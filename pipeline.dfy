/** Resolving one input (a PDF, a DOI or a URL) to a normalized record, and the
    batch run that fills the `results` and `audit` lists. Everything that reaches
    outside the program (the temporary PDF file, PDF text extraction, the
    registry's DOI lookup and title search, page downloads) is a field of
    `Services`; a call that raises is a
    `Failure` carrying the exception's message. */
module Pipeline {
  import opened Wrappers
  import opened Text
  import opened Identifiers
  import opened Normalizer
  import opened Seqs

  /** An uploaded PDF: its file name and its bytes. */
  datatype PdfUpload = PdfUpload(name: string, bytes: seq<bv8>)

  /** The outside calls, each one total: writing the upload's bytes to a temporary
      file at a path (Some(message) when that raises), the PDF backends' text,
      the work record for a DOI, the first hit of a title query (None when the
      registry returns no items), and the text of a downloaded page. */
  datatype Services = Services(
    writeTemp: (string, seq<bv8>) -> Option<string>,
    pdfText: seq<bv8> -> Result<string, string>,
    fetchWork: string -> Result<RawRecord, string>,
    queryTitle: string -> Result<Option<RawRecord>, string>,
    fetchPage: string -> Result<string, string>)

  /** The routes by which a record is found. */
  datatype Route = ByDoi | UrlDoi | UrlTitle | PdfDoi | PdfTitle {
    /** The route's name in the audit log. */
    function Name(): string {
      match this
      case ByDoi => "doi"
      case UrlDoi => "url_doi"
      case UrlTitle => "url_title"
      case PdfDoi => "pdf_doi"
      case PdfTitle => "pdf_title"
    }
  }

  /** What resolving one input came to when nothing raised: nothing, or the work
      record found and the route it was found by. */
  datatype Outcome = Unresolved | Resolved(route: Route, record: RawRecord)

  /** The `route` field of an audit entry: still "" when nothing was found, a
      route when something was, or the error route of the loop whose exception
      handler wrote the entry. */
  datatype LogRoute = NoRoute | Found(route: Route) | PdfError | UrlError {
    function Name(): string {
      match this
      case NoRoute => ""
      case Found(r) => r.Name()
      case PdfError => "pdf_error"
      case UrlError => "url_error"
    }
  }

  /** One audit-log record; its route is written out as `route.Name()`. `error`
      is present only on the entries written by an exception handler. */
  datatype AuditEntry = AuditEntry(input: string, route: LogRoute, success: bool, meta: Option<Meta>, error: Option<string>)

  /** Distinct routes are logged under distinct names. */
  lemma LogRouteNamesDistinct(a: LogRoute, b: LogRoute)
    ensures a.Name() == b.Name() ==> a == b
  {
  }

  // ---------------------------------------------------------------------------
  // extract_text_from_pdf_bytes, search_crossref_by_title

  /** The `max_chars` default of each variant. */
  function MaxChars(v: Variant): nat {
    if v == Baseline then 100000 else 120000
  }

  function Prefix(t: string, n: nat): (r: string)
    ensures |r| <= n && |r| <= |t| && r == t[..|r|]
    ensures |t| <= n ==> r == t
  {
    if |t| <= n then t else t[..n]
  }

  /** The temporary file each variant writes the upload to. */
  function TempPath(v: Variant): string {
    if v == Baseline then "._tmp_upload.pdf" else ".__upload.pdf"
  }

  /** `extract_text_from_pdf_bytes`: write the bytes to the temporary file, then
      the backends' text cut to `max_chars`. An exception from the write escapes
      in both variants. The baseline lets a backend's exception escape too; the
      fixed variant swallows it and goes on with empty text. */
  function ExtractText(v: Variant, svc: Services, bytes: seq<bv8>): (r: Result<string, string>)
    ensures r.Success? ==> |r.value| <= MaxChars(v)
    ensures svc.writeTemp(TempPath(v), bytes).Some? ==> r == Failure(svc.writeTemp(TempPath(v), bytes).value)
    ensures svc.writeTemp(TempPath(v), bytes).None? && svc.pdfText(bytes).Success? ==>
      r == Success(Prefix(svc.pdfText(bytes).value, MaxChars(v)))
    ensures svc.writeTemp(TempPath(v), bytes).None? && svc.pdfText(bytes).Failure? ==>
      (r.Failure? <==> v == Baseline)
    ensures v == Fixed ==> (r.Failure? <==> svc.writeTemp(TempPath(v), bytes).Some?)
  {
    match svc.writeTemp(TempPath(v), bytes)
    case Some(e) => Failure(e)
    case None =>
      match svc.pdfText(bytes)
      case Failure(e) => if v == Baseline then Failure(e) else Success("")
      case Success(t) => Success(Prefix(t, MaxChars(v)))
  }

  /** `search_crossref_by_title`: a title that is blank once stripped never
      reaches the registry. */
  function SearchByTitle(svc: Services, title: string): (r: Result<Option<RawRecord>, string>)
    ensures Strip(title) == "" ==> r == Success(None)
    ensures Strip(title) != "" ==> r == svc.queryTitle(title)
  {
    if Strip(title) == "" then Success(None) else svc.queryTitle(title)
  }

  // ---------------------------------------------------------------------------
  // Resolving one input

  /** Fetch the work record for `doi`. */
  function FetchRoute(svc: Services, doi: string, route: Route): (r: Result<Outcome, string>)
    ensures r.Success? <==> svc.fetchWork(doi).Success?
    ensures r.Success? ==> r == Success(Resolved(route, svc.fetchWork(doi).value))
  {
    match svc.fetchWork(doi)
    case Failure(e) => Failure(e)
    case Success(msg) => Success(Resolved(route, msg))
  }

  /** Search the registry for `title` and take its first hit, if any. */
  function SearchRoute(svc: Services, title: string, route: Route): (r: Result<Outcome, string>)
    ensures r.Success? <==> SearchByTitle(svc, title).Success?
    ensures r.Success? && SearchByTitle(svc, title).value.None? ==> r.value == Unresolved
    ensures r.Success? && SearchByTitle(svc, title).value.Some? ==>
      r.value == Resolved(route, SearchByTitle(svc, title).value.value)
  {
    match SearchByTitle(svc, title)
    case Failure(e) => Failure(e)
    case Success(None) => Success(Unresolved)
    case Success(Some(hit)) => Success(Resolved(route, hit))
  }

  /** A PDF's text: the first DOI in it, failing that the guessed title. */
  function ResolveText(svc: Services, text: string): (r: Result<Outcome, string>)
    ensures r.Success? && r.value.Resolved? ==> r.value.route in {PdfDoi, PdfTitle}
    ensures FindDoi(text).Some? && r.Success? ==> r.value.Resolved? && r.value.route == PdfDoi
  {
    match FindDoi(text)
    case Some(d) => FetchRoute(svc, d, PdfDoi)
    case None =>
      var t := GuessTitle(text).GetOr("");
      if t == "" then Success(Unresolved) else SearchRoute(svc, t, PdfTitle)
  }

  /** An uploaded PDF. */
  function ResolvePdf(v: Variant, svc: Services, bytes: seq<bv8>): (r: Result<Outcome, string>)
    ensures r.Success? && r.value.Resolved? ==> r.value.route in {PdfDoi, PdfTitle}
  {
    match ExtractText(v, svc, bytes)
    case Failure(e) => Failure(e)
    case Success(text) => ResolveText(svc, text)
  }

  /** A page: download it, then the first DOI in it, failing that its HTML title. */
  function ResolvePage(svc: Services, url: string): (r: Result<Outcome, string>)
    ensures r.Success? && r.value.Resolved? ==> r.value.route in {UrlDoi, UrlTitle}
  {
    match svc.fetchPage(url)
    case Failure(e) => Failure(e)
    case Success(page) =>
      match FindDoi(page)
      case Some(d) => FetchRoute(svc, d, UrlDoi)
      case None =>
        var t := HtmlTitle(page);
        if t == "" then Success(Unresolved) else SearchRoute(svc, t, UrlTitle)
  }

  /** A line of the batch list: when the pattern matches anywhere in it, the WHOLE
      line goes to the DOI lookup; otherwise it is downloaded as a page. */
  function ResolveItem(svc: Services, item: string): (r: Result<Outcome, string>)
    ensures r.Success? && r.value.Resolved? ==> r.value.route in {ByDoi, UrlDoi, UrlTitle}
    ensures r.Success? && r.value.Resolved? ==> (r.value.route == ByDoi <==> FindDoi(item).Some?)
  {
    if FindDoi(item).Some? then FetchRoute(svc, item, ByDoi) else ResolvePage(svc, item)
  }

  /** An entry with `success` set exactly when a record came back, and an error
      message exactly when it was written by the exception handler. */
  predicate WellFormed(e: AuditEntry) {
    (e.success <==> e.meta.Some?) && (e.error.Some? ==> !e.success)
  }

  /** The audit entry for `input`, given how resolving it went; a record that was
      found is logged normalized. */
  function Record(v: Variant, input: string, o: Result<Outcome, string>, errorRoute: LogRoute): (e: AuditEntry)
    ensures WellFormed(e) && e.input == input
    ensures e.error.Some? <==> o.Failure?
    ensures o.Failure? ==> e.route == errorRoute && e.error == Some(o.error)
    ensures e.success <==> o.Success? && o.value.Resolved?
    ensures e.success ==> e.route == Found(o.value.route) && e.meta == Some(CrossrefToMeta(v, o.value.record))
    ensures o == Success(Unresolved) ==> e.route == NoRoute
  {
    match o
    case Failure(msg) => AuditEntry(input, errorRoute, false, None, Some(msg))
    case Success(Unresolved) => AuditEntry(input, NoRoute, false, None, None)
    case Success(Resolved(r, rec)) => AuditEntry(input, Found(r), true, Some(CrossrefToMeta(v, rec)), None)
  }

  /** The routes a PDF's entry may carry, and those of a list line's. */
  predicate IsPdfRoute(r: LogRoute) {
    r in {NoRoute, Found(PdfDoi), Found(PdfTitle), PdfError}
  }

  predicate IsItemRoute(r: LogRoute) {
    r in {NoRoute, Found(ByDoi), Found(UrlDoi), Found(UrlTitle), UrlError}
  }

  /** A well-formed entry of the PDF loop: a PDF route, and an error exactly on
      the error route. */
  predicate PdfLogged(e: AuditEntry) {
    WellFormed(e) && IsPdfRoute(e.route) && (e.error.Some? <==> e.route == PdfError)
  }

  /** A well-formed entry of the list loop. */
  predicate ItemLogged(e: AuditEntry) {
    WellFormed(e) && IsItemRoute(e.route) && (e.error.Some? <==> e.route == UrlError)
  }

  /** The audit entry of one uploaded PDF. */
  function PdfEntry(v: Variant, svc: Services, f: PdfUpload): (e: AuditEntry)
    ensures PdfLogged(e) && e.input == f.name
    ensures e.success ==> e.route in {Found(PdfDoi), Found(PdfTitle)}
  {
    var o := ResolvePdf(v, svc, f.bytes);
    Record(v, f.name, o, PdfError)
  }

  /** The audit entry of one line of the batch list. */
  function ItemEntry(v: Variant, svc: Services, item: string): (e: AuditEntry)
    ensures ItemLogged(e) && e.input == item
    ensures e.success ==> e.route in {Found(ByDoi), Found(UrlDoi), Found(UrlTitle)}
  {
    var o := ResolveItem(svc, item);
    Record(v, item, o, UrlError)
  }

  // ---------------------------------------------------------------------------
  // What each route means

  /** A line reaches the "doi" route exactly when the pattern matches in it and the
      lookup of the whole line succeeds; the record is that lookup's. */
  lemma ItemDoiRoute(v: Variant, svc: Services, item: string)
    ensures ItemEntry(v, svc, item).route == Found(ByDoi)
        <==> FindDoi(item).Some? && svc.fetchWork(item).Success?
    ensures ItemEntry(v, svc, item).route == Found(ByDoi)
        ==> ItemEntry(v, svc, item).meta == Some(CrossrefToMeta(v, svc.fetchWork(item).value))
  {
  }

  /** A line in which the pattern matches is never downloaded and never searched
      for: the page download and the title query do not affect its entry. */
  lemma DoiItemIgnoresPages(v: Variant, svc: Services, item: string,
                            page: string -> Result<string, string>,
                            query: string -> Result<Option<RawRecord>, string>)
    requires FindDoi(item).Some?
    ensures ItemEntry(v, svc, item) == ItemEntry(v, svc.(fetchPage := page, queryTitle := query), item)
  {
  }

  /** A page that contains a DOI is resolved by that DOI: the title query does not
      affect its entry, and a success is on the "url_doi" route with the record
      looked up for the page's first match. */
  lemma PageDoiFirst(v: Variant, svc: Services, item: string, query: string -> Result<Option<RawRecord>, string>)
    requires FindDoi(item).None? && svc.fetchPage(item).Success?
    requires FindDoi(svc.fetchPage(item).value).Some?
    ensures ItemEntry(v, svc, item) == ItemEntry(v, svc.(queryTitle := query), item)
    ensures ItemEntry(v, svc, item).success ==>
      var d := FindDoi(svc.fetchPage(item).value).value;
      ItemEntry(v, svc, item).route == Found(UrlDoi) && ItemEntry(v, svc, item).meta == Some(CrossrefToMeta(v, svc.fetchWork(d).value))
  {
  }

  /** A page with neither a DOI nor a non-blank HTML title comes to an unresolved
      entry: route "", no record and no error. */
  lemma PageWithoutClues(v: Variant, svc: Services, item: string)
    requires FindDoi(item).None? && svc.fetchPage(item).Success?
    requires FindDoi(svc.fetchPage(item).value).None? && HtmlTitle(svc.fetchPage(item).value) == ""
    ensures ItemEntry(v, svc, item) == AuditEntry(item, NoRoute, false, None, None)
  {
  }

  /** A PDF's text that contains a DOI is resolved by that DOI: the title query
      does not affect its entry. */
  lemma PdfDoiFirst(v: Variant, svc: Services, f: PdfUpload, query: string -> Result<Option<RawRecord>, string>)
    requires ExtractText(v, svc, f.bytes).Success?
    requires FindDoi(ExtractText(v, svc, f.bytes).value).Some?
    ensures PdfEntry(v, svc, f) == PdfEntry(v, svc.(queryTitle := query), f)
    ensures PdfEntry(v, svc, f).route in {Found(PdfDoi), PdfError}
  {
  }

  /** The "pdf_title" route searches for the guessed title, which is non-blank. */
  lemma PdfTitleRoute(v: Variant, svc: Services, f: PdfUpload)
    requires PdfEntry(v, svc, f).route == Found(PdfTitle)
    ensures ExtractText(v, svc, f.bytes).Success?
    ensures var text := ExtractText(v, svc, f.bytes).value;
      FindDoi(text).None? && GuessTitle(text).Some? && GuessTitle(text).value != ""
      && svc.queryTitle(GuessTitle(text).value).Success?
      && svc.queryTitle(GuessTitle(text).value).value.Some?
      && PdfEntry(v, svc, f).meta == Some(CrossrefToMeta(v, svc.queryTitle(GuessTitle(text).value).value.value))
  {
    var text := ExtractText(v, svc, f.bytes).value;
    var t := GuessTitle(text).GetOr("");
    assert t != "";
    assert IsStripped(t) by { GuessTitleStripped(text); }
    assert Strip(t) == t;
  }

  lemma GuessTitleStripped(text: string)
    ensures GuessTitle(text).Some? ==> IsStripped(GuessTitle(text).value)
  {
    var lines := SplitLines(text);
    if GuessTitle(text).Some? {
      var k :| IsFirstTitleAt(lines, k) && GuessTitle(text).value == Strip(lines[k]);
    }
  }

  /** When the temporary file cannot be written, both variants log the exception
      on the "pdf_error" route. */
  lemma TempWriteFailure(v: Variant, svc: Services, f: PdfUpload)
    requires svc.writeTemp(TempPath(v), f.bytes).Some?
    ensures PdfEntry(v, svc, f) ==
      AuditEntry(f.name, PdfError, false, None, Some(svc.writeTemp(TempPath(v), f.bytes).value))
  {
  }

  /** The two variants part ways on a PDF whose backends raise once it is written
      out: the baseline logs the exception on the "pdf_error" route, the fixed
      variant goes on with empty text, which has neither a DOI nor a title, and
      logs an unresolved entry. */
  lemma ExtractFailureDivergence(svc: Services, f: PdfUpload)
    requires svc.writeTemp(TempPath(Baseline), f.bytes).None? && svc.writeTemp(TempPath(Fixed), f.bytes).None?
    requires svc.pdfText(f.bytes).Failure?
    ensures PdfEntry(Baseline, svc, f) == AuditEntry(f.name, PdfError, false, None, Some(svc.pdfText(f.bytes).error))
    ensures PdfEntry(Fixed, svc, f) == AuditEntry(f.name, NoRoute, false, None, None)
  {
    assert ExtractText(Fixed, svc, f.bytes) == Success("");
    assert FindDoi("") == None;
    assert SplitLines("") == [];
    assert GuessTitle("") == None;
  }

  // ---------------------------------------------------------------------------
  // The list of DOIs/URLs

  /** The non-blank lines, stripped, in order. */
  function KeptLines(lines: seq<string>): (items: seq<string>)
    ensures |items| <= |lines|
    ensures forall k :: 0 <= k < |items| ==> items[k] != "" && IsStripped(items[k])
  {
    if lines == [] then []
    else
      var s := Strip(lines[|lines| - 1]);
      KeptLines(lines[..|lines| - 1]) + (if s == "" then [] else [s])
  }

  /** The list box's items: `[ln.strip() for ln in list_box.splitlines() if ln.strip()]`. */
  function ListItems(listBox: string): seq<string> {
    KeptLines(SplitLines(listBox))
  }

  /** Every non-blank line, stripped, is an item. */
  lemma {:induction false} KeptLinesComplete(lines: seq<string>, k: nat)
    requires k < |lines| && Strip(lines[k]) != ""
    ensures Strip(lines[k]) in KeptLines(lines)
  {
    var init := lines[..|lines| - 1];
    if k < |init| {
      KeptLinesComplete(init, k);
      assert init[k] == lines[k];
    }
  }

  /** Every item is some line, stripped. */
  lemma {:induction false} KeptLinesSound(lines: seq<string>, s: string)
    requires s in KeptLines(lines)
    ensures exists k :: 0 <= k < |lines| && Strip(lines[k]) == s
  {
    var init := lines[..|lines| - 1];
    if s in KeptLines(init) {
      KeptLinesSound(init, s);
      var k :| 0 <= k < |init| && Strip(init[k]) == s;
      assert Strip(lines[k]) == s;
    } else {
      assert Strip(lines[|lines| - 1]) == s;
    }
  }

  /** A string is an item exactly when it is non-blank and some line strips to it. */
  lemma KeptLinesMember(lines: seq<string>, s: string)
    ensures s in KeptLines(lines) <==> s != "" && exists k :: 0 <= k < |lines| && Strip(lines[k]) == s
  {
    if s in KeptLines(lines) {
      KeptLinesSound(lines, s);
    }
    if s != "" && exists k :: 0 <= k < |lines| && Strip(lines[k]) == s {
      var k :| 0 <= k < |lines| && Strip(lines[k]) == s;
      KeptLinesComplete(lines, k);
    }
  }

  lemma KeptLinesSnoc(lines: seq<string>, i: nat)
    requires i < |lines|
    ensures KeptLines(lines[..i + 1]) == KeptLines(lines[..i]) + (if Strip(lines[i]) == "" then [] else [Strip(lines[i])])
  {
    assert lines[..i + 1][..i] == lines[..i];
  }

  /** The baseline's loop over the list box's lines, skipping blank ones. */
  method CollectItems(listBox: string) returns (items: seq<string>)
    ensures items == ListItems(listBox)
  {
    var lines := SplitLines(listBox);
    items := [];
    for i := 0 to |lines|
      invariant items == KeptLines(lines[..i])
    {
      KeptLinesSnoc(lines, i);
      var value := Strip(lines[i]);
      if value != "" {
        items := items + [value];
      }
    }
    assert lines[..|lines|] == lines;
  }

  // ---------------------------------------------------------------------------
  // Batch mode

  /** The audit entry of one upload, as a function of the upload. */
  function PdfEntryOf(v: Variant, svc: Services): PdfUpload -> AuditEntry {
    f => PdfEntry(v, svc, f)
  }

  /** The audit entry of one list line, as a function of the line. */
  function ItemEntryOf(v: Variant, svc: Services): string -> AuditEntry {
    item => ItemEntry(v, svc, item)
  }

  /** The entries of the PDF loop, one per upload, in upload order. */
  function PdfEntries(v: Variant, svc: Services, pdfs: seq<PdfUpload>): seq<AuditEntry> {
    Map(PdfEntryOf(v, svc), pdfs)
  }

  /** The entries of the list loop, one per item, in list order. */
  function ItemEntries(v: Variant, svc: Services, items: seq<string>): seq<AuditEntry> {
    Map(ItemEntryOf(v, svc), items)
  }

  /** The audit log of one batch run: every PDF, then every item. */
  function BatchEntries(v: Variant, svc: Services, pdfs: seq<PdfUpload>, items: seq<string>): seq<AuditEntry> {
    PdfEntries(v, svc, pdfs) + ItemEntries(v, svc, items)
  }

  function BatchAudit(v: Variant, svc: Services, pdfs: seq<PdfUpload>, listBox: string): seq<AuditEntry> {
    BatchEntries(v, svc, pdfs, ListItems(listBox))
  }

  /** The records of the successful entries, in log order. */
  function Successes(audit: seq<AuditEntry>): (rs: seq<Meta>)
    ensures |rs| <= |audit|
  {
    if audit == [] then []
    else
      var e := audit[|audit| - 1];
      Successes(audit[..|audit| - 1]) + (if e.success && e.meta.Some? then [e.meta.value] else [])
  }

  lemma {:induction false} SuccessesAppend(a: seq<AuditEntry>, b: seq<AuditEntry>)
    ensures Successes(a + b) == Successes(a) + Successes(b)
    decreases |b|
  {
    if b == [] {
      assert a + b == a;
    } else {
      var b' := b[..|b| - 1];
      assert (a + b)[..|a + b| - 1] == a + b';
      SuccessesAppend(a, b');
    }
  }

  /** A record is among the results exactly when some successful entry carries it. */
  lemma {:induction false} SuccessesMember(audit: seq<AuditEntry>, m: Meta)
    ensures m in Successes(audit) <==> exists i :: 0 <= i < |audit| && audit[i].success && audit[i].meta == Some(m)
  {
    if audit != [] {
      var init := audit[..|audit| - 1];
      SuccessesMember(init, m);
      if exists i :: 0 <= i < |init| && init[i].success && init[i].meta == Some(m) {
        var i :| 0 <= i < |init| && init[i].success && init[i].meta == Some(m);
        assert audit[i] == init[i];
      }
    }
  }

  /** A log with no successful entry yields no results. */
  lemma {:induction false} NoSuccesses(audit: seq<AuditEntry>)
    requires forall i :: 0 <= i < |audit| ==> !audit[i].success
    ensures Successes(audit) == []
  {
    if audit != [] {
      NoSuccesses(audit[..|audit| - 1]);
    }
  }

  /** One entry per input, PDFs first then items, each naming its own input. */
  lemma BatchOnePerInput(v: Variant, svc: Services, pdfs: seq<PdfUpload>, items: seq<string>)
    ensures var audit := BatchEntries(v, svc, pdfs, items);
      |audit| == |pdfs| + |items|
      && (forall i :: 0 <= i < |pdfs| ==> audit[i].input == pdfs[i].name)
      && (forall j :: 0 <= j < |items| ==> audit[|pdfs| + j].input == items[j])
  {
    PdfEntryOfLogged(v, svc);
    ItemEntryOfLogged(v, svc);
    MapAppendKeys(PdfEntryOf(v, svc), pdfs, ItemEntryOf(v, svc), items,
                  (e: AuditEntry) => e.input, (f: PdfUpload) => f.name, (item: string) => item);
  }

  /** Every entry is well formed and carries a route name of its own loop; errors
      sit exactly on the loop's error route. */
  lemma BatchRoutes(v: Variant, svc: Services, pdfs: seq<PdfUpload>, items: seq<string>)
    ensures var audit := BatchEntries(v, svc, pdfs, items);
      (forall i :: 0 <= i < |pdfs| ==> PdfLogged(audit[i]))
      && (forall j :: |pdfs| <= j < |audit| ==> ItemLogged(audit[j]))
  {
    PdfEntryOfLogged(v, svc);
    ItemEntryOfLogged(v, svc);
    MapAppendAll(PdfEntryOf(v, svc), pdfs, ItemEntryOf(v, svc), items, PdfLogged, ItemLogged);
  }

  /** Every upload's entry is logged as the PDF loop logs, under the file's name. */
  lemma PdfEntryOfLogged(v: Variant, svc: Services)
    ensures forall f :: PdfLogged(PdfEntryOf(v, svc)(f)) && PdfEntryOf(v, svc)(f).input == f.name
  {
  }

  /** Every line's entry is logged as the list loop logs, under the line. */
  lemma ItemEntryOfLogged(v: Variant, svc: Services)
    ensures forall item :: ItemLogged(ItemEntryOf(v, svc)(item)) && ItemEntryOf(v, svc)(item).input == item
  {
  }

  /** Isolation: each entry depends on its own input alone, so whatever the other
      inputs are, and whether or not they raise, it is the same. */
  lemma BatchIsolation(v: Variant, svc: Services, pdfs: seq<PdfUpload>, items: seq<string>,
                       pdfs': seq<PdfUpload>, items': seq<string>, k: nat)
    requires |pdfs| == |pdfs'| && |items| == |items'|
    requires k < |pdfs| + |items|
    requires k < |pdfs| ==> pdfs[k] == pdfs'[k]
    requires k >= |pdfs| ==> items[k - |pdfs|] == items'[k - |pdfs|]
    ensures BatchEntries(v, svc, pdfs, items)[k] == BatchEntries(v, svc, pdfs', items')[k]
  {
    MapAppendAt(PdfEntryOf(v, svc), pdfs, ItemEntryOf(v, svc), items, k);
    MapAppendAt(PdfEntryOf(v, svc), pdfs', ItemEntryOf(v, svc), items', k);
  }

  /** The results are the records of the PDF loop's successes, then those of the
      list loop's. */
  lemma BatchResults(v: Variant, svc: Services, pdfs: seq<PdfUpload>, items: seq<string>)
    ensures Successes(BatchEntries(v, svc, pdfs, items))
         == Successes(PdfEntries(v, svc, pdfs)) + Successes(ItemEntries(v, svc, items))
  {
    SuccessesAppend(PdfEntries(v, svc, pdfs), ItemEntries(v, svc, items));
  }

  /** Three list items of which the second raises: the log still holds three
      entries in order, the second on the "url_error" route with the message, and
      the first and third exactly as they would be alone. */
  lemma TransportErrorExample(v: Variant, svc: Services, a: string, b: string, c: string)
    requires ResolveItem(svc, b).Failure?
    ensures var audit := BatchEntries(v, svc, [], [a, b, c]);
      |audit| == 3
      && audit[0] == ItemEntry(v, svc, a)
      && audit[1] == AuditEntry(b, UrlError, false, None, Some(ResolveItem(svc, b).error))
      && audit[2] == ItemEntry(v, svc, c)
  {
    var items := [a, b, c];
    var es := ItemEntries(v, svc, items);
    assert PdfEntries(v, svc, []) == [];
    assert BatchEntries(v, svc, [], items) == es;
  }

  /** The PDF loop's body for one upload: extract, look for a DOI, else guess a
      title and search; an exception becomes a "pdf_error" entry. */
  method ProcessPdf(v: Variant, svc: Services, f: PdfUpload) returns (entry: AuditEntry)
    ensures entry == PdfEntry(v, svc, f)
  {
    var extracted := ExtractText(v, svc, f.bytes);
    if extracted.Failure? {
      return AuditEntry(f.name, PdfError, false, None, Some(extracted.error));
    }
    var text := extracted.value;
    var meta: Option<Meta> := None;
    var route := NoRoute;
    var d := FindDoi(text);
    if d.Some? {
      var msg := svc.fetchWork(d.value);
      if msg.Failure? {
        return AuditEntry(f.name, PdfError, false, None, Some(msg.error));
      }
      meta, route := Some(CrossrefToMeta(v, msg.value)), Found(PdfDoi);
    } else {
      var guess := GuessTitleFromText(text);
      var title := guess.GetOr("");
      if title != "" {
        var hit := SearchByTitle(svc, title);
        if hit.Failure? {
          return AuditEntry(f.name, PdfError, false, None, Some(hit.error));
        }
        if hit.value.Some? {
          meta, route := Some(CrossrefToMeta(v, hit.value.value)), Found(PdfTitle);
        }
      }
    }
    if meta.Some? {
      entry := AuditEntry(f.name, route, true, meta, None);
    } else {
      entry := AuditEntry(f.name, route, false, None, None);
    }
  }

  /** The list loop's body for one item: the DOI lookup when the pattern matches in
      the item, else the page's DOI or HTML title; an exception becomes a
      "url_error" entry. */
  method ProcessItem(v: Variant, svc: Services, item: string) returns (entry: AuditEntry)
    ensures entry == ItemEntry(v, svc, item)
  {
    var meta: Option<Meta> := None;
    var route := NoRoute;
    if FindDoi(item).Some? {
      var msg := svc.fetchWork(item);
      if msg.Failure? {
        return AuditEntry(item, UrlError, false, None, Some(msg.error));
      }
      meta, route := Some(CrossrefToMeta(v, msg.value)), Found(ByDoi);
    } else {
      var resp := svc.fetchPage(item);
      if resp.Failure? {
        return AuditEntry(item, UrlError, false, None, Some(resp.error));
      }
      var page := resp.value;
      var found := FindDoi(page);
      if found.Some? {
        var msg := svc.fetchWork(found.value);
        if msg.Failure? {
          return AuditEntry(item, UrlError, false, None, Some(msg.error));
        }
        meta, route := Some(CrossrefToMeta(v, msg.value)), Found(UrlDoi);
      } else {
        var title := HtmlTitle(page);
        if title != "" {
          var hit := SearchByTitle(svc, title);
          if hit.Failure? {
            return AuditEntry(item, UrlError, false, None, Some(hit.error));
          }
          if hit.value.Some? {
            meta, route := Some(CrossrefToMeta(v, hit.value.value)), Found(UrlTitle);
          }
        }
      }
    }
    if meta.Some? {
      entry := AuditEntry(item, route, true, meta, None);
    } else {
      entry := AuditEntry(item, route, false, None, None);
    }
  }

  /** One press of "Process batch": collect the items, run the PDF loop and then
      the list loop, appending one audit entry per input and the record of every
      success to the results. */
  method ProcessBatch(v: Variant, svc: Services, pdfs: seq<PdfUpload>, listBox: string)
    returns (results: seq<Meta>, audit: seq<AuditEntry>)
    ensures audit == BatchAudit(v, svc, pdfs, listBox)
    ensures results == Successes(audit)
  {
    var items := CollectItems(listBox);
    ghost var fromPdfs := PdfEntries(v, svc, pdfs);
    results, audit := RunPdfLoop(v, svc, pdfs, [], []);
    assert audit == fromPdfs by {
      assert [] + fromPdfs == fromPdfs;
    }
    results, audit := RunItemLoop(v, svc, items, results, audit);
    assert audit == BatchEntries(v, svc, pdfs, items);
  }

  /** The PDF loop: one entry per upload appended to `audit`, and each success's
      record to `results`. */
  method RunPdfLoop(v: Variant, svc: Services, pdfs: seq<PdfUpload>, results0: seq<Meta>, audit0: seq<AuditEntry>)
    returns (results: seq<Meta>, audit: seq<AuditEntry>)
    requires results0 == Successes(audit0)
    ensures audit == audit0 + PdfEntries(v, svc, pdfs)
    ensures results == Successes(audit)
  {
    results, audit := results0, audit0;
    for i := 0 to |pdfs|
      invariant audit == audit0 + PdfEntries(v, svc, pdfs[..i])
      invariant results == Successes(audit)
    {
      PdfEntriesSnoc(v, svc, pdfs, i);
      var entry := ProcessPdf(v, svc, pdfs[i]);
      results, audit := Log(results, audit, entry);
    }
    assert pdfs[..|pdfs|] == pdfs;
  }

  /** The list loop: one entry per item appended to `audit`, and each success's
      record to `results`. */
  method RunItemLoop(v: Variant, svc: Services, items: seq<string>, results0: seq<Meta>, audit0: seq<AuditEntry>)
    returns (results: seq<Meta>, audit: seq<AuditEntry>)
    requires results0 == Successes(audit0)
    ensures audit == audit0 + ItemEntries(v, svc, items)
    ensures results == Successes(audit)
  {
    results, audit := results0, audit0;
    for j := 0 to |items|
      invariant audit == audit0 + ItemEntries(v, svc, items[..j])
      invariant results == Successes(audit)
    {
      ItemEntriesSnoc(v, svc, items, j);
      var entry := ProcessItem(v, svc, items[j]);
      results, audit := Log(results, audit, entry);
    }
    assert items[..|items|] == items;
  }

  /** `if meta: results.append(meta)` and `audit.append(entry)`. */
  method Log(results0: seq<Meta>, audit0: seq<AuditEntry>, entry: AuditEntry)
    returns (results: seq<Meta>, audit: seq<AuditEntry>)
    requires results0 == Successes(audit0) && WellFormed(entry)
    ensures audit == audit0 + [entry]
    ensures results == Successes(audit)
    ensures results == results0 + (if entry.success then [entry.meta.value] else [])
  {
    SuccessesSnoc(audit0, entry);
    results := results0;
    if entry.success {
      results := results + [entry.meta.value];
    }
    audit := audit0 + [entry];
  }

  lemma SuccessesSnoc(audit: seq<AuditEntry>, e: AuditEntry)
    ensures Successes(audit + [e]) == Successes(audit) + (if e.success && e.meta.Some? then [e.meta.value] else [])
  {
    assert (audit + [e])[..|audit|] == audit;
  }

  lemma PdfEntriesSnoc(v: Variant, svc: Services, pdfs: seq<PdfUpload>, i: nat)
    requires i < |pdfs|
    ensures PdfEntries(v, svc, pdfs[..i + 1]) == PdfEntries(v, svc, pdfs[..i]) + [PdfEntry(v, svc, pdfs[i])]
  {
    MapSnoc(PdfEntryOf(v, svc), pdfs, i);
  }

  lemma ItemEntriesSnoc(v: Variant, svc: Services, items: seq<string>, j: nat)
    requires j < |items|
    ensures ItemEntries(v, svc, items[..j + 1]) == ItemEntries(v, svc, items[..j]) + [ItemEntry(v, svc, items[j])]
  {
    MapSnoc(ItemEntryOf(v, svc), items, j);
  }

  // ---------------------------------------------------------------------------
  // Single mode

  /** The three fields of the single-input form. */
  datatype SingleInput = SingleInput(doi: string, url: string, pdf: Option<PdfUpload>)

  predicate IsBlankForm(inp: SingleInput) {
    Strip(inp.doi) == "" && Strip(inp.url) == "" && inp.pdf.None?
  }

  /** The first non-blank field wins: the stripped DOI, else the stripped URL's
      page, else the PDF. */
  function ResolveSingle(v: Variant, svc: Services, inp: SingleInput): Result<Outcome, string> {
    if Strip(inp.doi) != "" then FetchRoute(svc, Strip(inp.doi), ByDoi)
    else if Strip(inp.url) != "" then ResolvePage(svc, Strip(inp.url))
    else if inp.pdf.Some? then ResolvePdf(v, svc, inp.pdf.value.bytes)
    else Success(Unresolved)
  }

  /** The input the log names: `doi or url or (pdf.name if pdf else "")`, on the
      fields as typed, so a DOI field holding only spaces is named even when the
      URL was used. */
  function SingleInputName(inp: SingleInput): string {
    if inp.doi != "" then inp.doi
    else if inp.url != "" then inp.url
    else if inp.pdf.Some? then inp.pdf.value.name
    else ""
  }

  /** The audit entry of one press of "Process single input", none for a blank
      form. The exception handler only reports, so a raised call leaves route ""
      and no error field. */
  function SingleEntry(v: Variant, svc: Services, inp: SingleInput): (e: Option<AuditEntry>)
    ensures e.None? <==> IsBlankForm(inp)
    ensures e.Some? ==> WellFormed(e.value) && e.value.error.None? && e.value.input == SingleInputName(inp)
    ensures e.Some? ==> e.value.route != PdfError && e.value.route != UrlError
    ensures e.Some? ==> (e.value.route == NoRoute <==> !e.value.success)
  {
    if IsBlankForm(inp) then None
    else
      var name := SingleInputName(inp);
      match ResolveSingle(v, svc, inp)
      case Failure(_) => Some(AuditEntry(name, NoRoute, false, None, None))
      case Success(Unresolved) => Some(AuditEntry(name, NoRoute, false, None, None))
      case Success(Resolved(r, rec)) => Some(AuditEntry(name, Found(r), true, Some(CrossrefToMeta(v, rec)), None))
  }

  /** A non-blank DOI field decides the entry alone: the URL and the PDF are
      ignored, and success means the lookup of the stripped DOI succeeded. */
  lemma SingleDoiPrecedence(v: Variant, svc: Services, inp: SingleInput, url: string, pdf: Option<PdfUpload>)
    requires Strip(inp.doi) != ""
    ensures ResolveSingle(v, svc, inp) == ResolveSingle(v, svc, inp.(url := url, pdf := pdf))
    ensures SingleEntry(v, svc, inp).value.success <==> svc.fetchWork(Strip(inp.doi)).Success?
    ensures SingleEntry(v, svc, inp).value.success ==> SingleEntry(v, svc, inp).value.route == Found(ByDoi)
  {
  }

  /** A URL field is resolved exactly as a batch line without a DOI would be,
      short of the error route. */
  lemma SingleUrlIsPage(v: Variant, svc: Services, inp: SingleInput)
    requires Strip(inp.doi) == "" && Strip(inp.url) != ""
    requires FindDoi(Strip(inp.url)).None?
    requires ResolveSingle(v, svc, inp).Success?
    ensures SingleEntry(v, svc, inp).value.success == ItemEntry(v, svc, Strip(inp.url)).success
    ensures SingleEntry(v, svc, inp).value.meta == ItemEntry(v, svc, Strip(inp.url)).meta
    ensures SingleEntry(v, svc, inp).value.route == ItemEntry(v, svc, Strip(inp.url)).route
  {
  }

  /** A whitespace-only DOI field next to a URL: the URL is resolved, but the log
      names the untouched DOI field. */
  lemma SingleNamesRawDoiField(v: Variant, svc: Services, url: string)
    requires Strip(url) != ""
    ensures SingleEntry(v, svc, SingleInput(" ", url, None)).value.input == " "
    ensures ResolveSingle(v, svc, SingleInput(" ", url, None)) == ResolvePage(svc, Strip(url))
  {
    assert IsSpace(' ');
    assert TrimLeft(" ") == "";
  }
}
