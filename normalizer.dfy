/** `crossref_to_meta` and its helpers: a Crossref work record, as the registry
    returns it, mapped to the flat fourteen-field record the RIS writer consumes. */
module Normalizer {
  import opened Wrappers
  import opened Text
  import opened Seqs

  // ---------------------------------------------------------------------------
  // Records

  /** An element of the record's `author` list: its `given` and `family` parts,
      None when the key is absent or null. */
  datatype RawAuthor = RawAuthor(given: Option<string>, family: Option<string>)

  /** The `date-parts` list of a date field. Each element of a part is Some(n) when
      Python's `int` accepts it as `n`, and None when `int` raises on it. A missing
      date field reads as the empty list. */
  type DateParts = seq<seq<Option<int>>>

  /** An element of the `subject` list: a string, or some other JSON value. */
  datatype Item = StrItem(s: string) | OtherItem

  /** The `subject` value: absent or falsy, a list, a (non-empty) string, or a
      (non-empty) JSON object given by its keys in order. */
  datatype Subject =
    | NoSubject
    | SubjectList(items: seq<Item>)
    | SubjectText(text: string)
    | SubjectKeys(keys: seq<string>)

  /** The fields of a Crossref work `message` that the normaliser reads. `title` and
      `containerTitle` are Some(list) when the value is a JSON list (elements None
      when null) and None otherwise. */
  datatype RawRecord = RawRecord(
    ty: Option<string>,
    title: Option<seq<Option<string>>>,
    containerTitle: Option<seq<Option<string>>>,
    authors: seq<RawAuthor>,
    publishedPrint: DateParts,
    issued: DateParts,
    created: DateParts,
    publishedOnline: DateParts,
    volume: Option<string>,
    issue: Option<string>,
    page: Option<string>,
    doi: Option<string>,
    url: Option<string>,
    publisher: Option<string>,
    abstractText: Option<string>,
    subject: Subject)

  /** The normalised record (`meta`): the dictionary `crossref_to_meta` returns. */
  datatype Meta = Meta(
    ty: string,
    title: string,
    authors: seq<string>,
    year: Option<string>,
    journal: string,
    volume: string,
    issue: string,
    sp: string,
    ep: string,
    doi: string,
    url: string,
    publisher: string,
    abstractText: string,
    keywords: seq<string>)

  /** The two versions of the program; they differ only on a string `subject`. */
  datatype Variant = Baseline | Fixed

  // ---------------------------------------------------------------------------
  // clean, normalize_author

  /** `clean`: an absent value becomes "", a present one is stripped. */
  function Clean(s: Option<string>): (r: string)
    ensures IsStripped(r)
    ensures s.None? ==> r == ""
    ensures s.Some? && IsStripped(s.value) ==> r == s.value
  {
    Strip(s.GetOr(""))
  }

  /** `normalize_author`: "family, given" when both cleaned parts are non-empty,
      otherwise the one that is non-empty, otherwise "". */
  function NormalizeAuthor(a: RawAuthor): (r: string)
    ensures Clean(a.family) != "" && Clean(a.given) != "" ==> r == Clean(a.family) + ", " + Clean(a.given)
    ensures Clean(a.family) == "" || Clean(a.given) == "" ==>
      r == if Clean(a.family) != "" then Clean(a.family) else Clean(a.given)
    ensures r == "" <==> Clean(a.family) == "" && Clean(a.given) == ""
    ensures IsStripped(r)
  {
    var given := Clean(a.given);
    var family := Clean(a.family);
    if family != "" && given != "" then
      StrippedAround(family, ", ", given);
      family + ", " + given
    else if family != "" then
      family
    else
      given
  }

  /** `[normalize_author(a) for a in authors]`: one entry per author, in order,
      empty ones included. */
  function NormalizeAuthors(authors: seq<RawAuthor>): (r: seq<string>)
    ensures |r| == |authors|
    ensures forall k :: 0 <= k < |authors| ==> r[k] == NormalizeAuthor(authors[k])
    ensures forall k :: 0 <= k < |r| ==> IsStripped(r[k])
  {
    seq(|authors|, k requires 0 <= k < |authors| => NormalizeAuthor(authors[k]))
  }

  // ---------------------------------------------------------------------------
  // TYPE_MAP

  const TypeMap: map<string, string> := map[
    "journal-article" := "JOUR",
    "proceedings-article" := "CPAPER",
    "book-chapter" := "CHAP",
    "book" := "BOOK",
    "report" := "RPRT",
    "thesis" := "THES",
    "reference-entry" := "GEN",
    "posted-content" := "GEN",
    "dataset" := "DATA",
    "standard" := "STD"]

  /** The RIS reference types the normaliser can produce. */
  const RisTypes: set<string> := {"JOUR", "CPAPER", "CHAP", "BOOK", "RPRT", "THES", "GEN", "DATA", "STD"}

  /** `TYPE_MAP.get((type or "").lower(), "GEN")`. */
  function RisType(ty: Option<string>): (r: string)
    ensures r in RisTypes
    ensures Lower(ty.GetOr("")) !in TypeMap ==> r == "GEN"
    ensures Lower(ty.GetOr("")) in TypeMap ==> r == TypeMap[Lower(ty.GetOr(""))]
  {
    var key := Lower(ty.GetOr(""));
    assert TypeMap.Values <= RisTypes;
    if key in TypeMap then TypeMap[key] else "GEN"
  }

  /** Upper- and lower-case spellings of a registry type map to the same RIS type. */
  lemma RisTypeIgnoresCase(s: string)
    ensures RisType(Some(s)) == RisType(Some(Lower(s)))
  {
    assert Lower(Lower(s)) == Lower(s);
  }

  /** A registry type maps to something other than GEN only when, lowered, it is
      one of the eight keys whose table entry is not GEN. */
  lemma RisTypeNotGen(ty: Option<string>)
    ensures RisType(ty) != "GEN" <==>
      Lower(ty.GetOr("")) in {"journal-article", "proceedings-article", "book-chapter", "book",
                              "report", "thesis", "dataset", "standard"}
  {
  }

  // ---------------------------------------------------------------------------
  // title and container-title

  /** The first element of a `title`-like list when the value is a non-empty list,
      else "", then cleaned (the form of `app_streamlit.py`). */
  function FirstText(f: Option<seq<Option<string>>>): (r: string)
    ensures IsStripped(r)
    ensures f.None? || f.value == [] ==> r == ""
    ensures f.Some? && f.value != [] ==> r == Clean(f.value[0])
  {
    var first := if f.Some? && f.value != [] then f.value[0] else Some("");
    Clean(first)
  }

  /** The same selection in the form of `app_streamlit_fixed.py`:
      `(x or [""])[0] if isinstance(x, list) and x else ""`, then cleaned. */
  function FirstTextFixed(f: Option<seq<Option<string>>>): string {
    var first :=
      if f.Some? && f.value != [] then (if f.value == [] then [Some("")] else f.value)[0]
      else Some("");
    Clean(first)
  }

  /** Both spellings select the same value. */
  lemma FirstTextVariantsAgree(f: Option<seq<Option<string>>>)
    ensures FirstText(f) == FirstTextFixed(f)
  {
  }

  // ---------------------------------------------------------------------------
  // crossref_first_year

  /** The date fields in the order of precedence: published-print, issued,
      created, published-online. */
  function DateKeys(raw: RawRecord): (keys: seq<DateParts>)
    ensures |keys| == 4
  {
    [raw.publishedPrint, raw.issued, raw.created, raw.publishedOnline]
  }

  /** `parts and parts[0]`, and `int(parts[0][0])` does not raise. */
  predicate HasYear(parts: DateParts) {
    |parts| > 0 && |parts[0]| > 0 && parts[0][0].Some?
  }

  /** The date field at precedence index `k` is the first one that yields a year. */
  ghost predicate IsFirstYearAt(raw: RawRecord, k: int) {
    0 <= k < 4 && HasYear(DateKeys(raw)[k])
    && forall j :: 0 <= j < k ==> !HasYear(DateKeys(raw)[j])
  }

  /** `crossref_first_year` as a specification: `str(int(y))` of the first element
      of the first part of the first date field, in precedence order, that has one. */
  function FirstYear(raw: RawRecord): (r: Option<string>)
    ensures r.None? <==> forall k :: 0 <= k < 4 ==> !HasYear(DateKeys(raw)[k])
    ensures r.Some? ==> exists k :: IsFirstYearAt(raw, k) && r.value == IntToString(DateKeys(raw)[k][0][0].value)
  {
    var keys := DateKeys(raw);
    var k := FirstIndexWhere(keys, HasYear);
    if k < |keys| then
      assert IsFirstYearAt(raw, k);
      Some(IntToString(keys[k][0][0].value))
    else None
  }

  /** A year from published-print wins whatever the later fields hold. */
  lemma FirstYearPrefersPrint(raw: RawRecord)
    requires HasYear(raw.publishedPrint)
    ensures FirstYear(raw) == Some(IntToString(raw.publishedPrint[0][0].value))
  {
    assert DateKeys(raw)[0] == raw.publishedPrint;
  }

  /** The year text reads back as the integer it was made from. */
  lemma FirstYearReadsBack(raw: RawRecord)
    requires FirstYear(raw).Some?
    ensures exists k :: IsFirstYearAt(raw, k) && ParseInt(FirstYear(raw).value) == DateKeys(raw)[k][0][0].value
  {
    var k :| IsFirstYearAt(raw, k) && FirstYear(raw).value == IntToString(DateKeys(raw)[k][0][0].value);
    IntToStringRoundTrip(DateKeys(raw)[k][0][0].value);
  }

  /** `crossref_first_year`: tries the date fields in precedence order and returns
      at the first one whose first part starts with an integer. */
  method CrossrefFirstYear(raw: RawRecord) returns (y: Option<string>)
    ensures y == FirstYear(raw)
  {
    var keys := DateKeys(raw);
    var i := 0;
    while i < |keys|
      invariant 0 <= i <= |keys|
      invariant forall j :: 0 <= j < i ==> !HasYear(keys[j])
    {
      var parts: DateParts := keys[i];
      if |parts| > 0 && |parts[0]| > 0 {
        var first: Option<int> := parts[0][0];
        if first.Some? {
          FirstIndexWhereAt(keys, HasYear, i);
          return Some(IntToString(first.value));
        }
      }
      i := i + 1;
    }
    FirstIndexWhereAt(keys, HasYear, i);
    return None;
  }

  // ---------------------------------------------------------------------------
  // page -> sp, ep

  datatype Pages = Pages(sp: string, ep: string)

  /** `i` is the position of the first hyphen of `s`. */
  predicate IsFirstHyphen(s: string, i: int) {
    0 <= i < |s| && s[i] == '-' && '-' !in s[..i]
  }

  /** The cleaned page value split on its first hyphen, each piece stripped; with
      no hyphen the whole value is the start page and the end page is "". Both
      pieces come out stripped and the start page without a hyphen. */
  function SplitPages(page: Option<string>): (p: Pages)
    ensures IsStripped(p.sp) && IsStripped(p.ep) && '-' !in p.sp
  {
    var pg := Clean(page);
    match IndexOf(pg, '-')
    case Some(i) =>
      StripKeepsAbsence(pg[..i], '-');
      assert IsFirstHyphen(pg, i);
      Pages(Strip(pg[..i]), Strip(pg[i + 1..]))
    case None =>
      if pg != "" then Pages(Strip(pg), "") else Pages("", "")
  }

  /** The stripped pieces on either side of position `i` of `s`. */
  function HyphenPieces(s: string, i: nat): Pages
    requires i < |s|
  {
    Pages(Strip(s[..i]), Strip(s[i + 1..]))
  }

  /** Without a hyphen the cleaned value is the start page and the end page is "". */
  lemma SplitPagesWhole(page: Option<string>)
    requires '-' !in Clean(page)
    ensures SplitPages(page) == Pages(Clean(page), "")
  {
    assert IndexOf(Clean(page), '-') == None;
  }

  /** With a hyphen, the start and end pages are the stripped pieces before and
      after the first one. */
  lemma SplitPagesAtHyphen(page: Option<string>, i: nat)
    requires IsFirstHyphen(Clean(page), i)
    ensures SplitPages(page) == HyphenPieces(Clean(page), i)
  {
    var pg := Clean(page);
    var k := IndexOf(pg, '-').value;
    FirstHyphenUnique(pg, i, k);
  }

  /** A string has one first hyphen. */
  lemma FirstHyphenUnique(s: string, i: nat, k: nat)
    requires IsFirstHyphen(s, i) && IsFirstHyphen(s, k)
    ensures i == k
  {
  }

  /** Splitting undoes writing a page range "sp-ep" out of stripped pieces, when the
      start page holds no hyphen. */
  lemma SplitPagesRange(sp: string, ep: string)
    requires IsStripped(sp) && IsStripped(ep) && '-' !in sp
    ensures SplitPages(Some(sp + "-" + ep)) == Pages(sp, ep)
  {
    RangeIsFirstHyphen(sp, ep);
    RangePieces(sp, ep);
    SplitPagesAtHyphen(Some(sp + "-" + ep), |sp|);
  }

  lemma RangePieces(sp: string, ep: string)
    requires IsStripped(sp) && IsStripped(ep)
    ensures HyphenPieces(sp + "-" + ep, |sp|) == Pages(sp, ep)
  {
    var s := sp + "-" + ep;
    assert s[..|sp|] == sp;
    assert s[|sp| + 1..] == ep;
  }

  lemma RangeIsFirstHyphen(sp: string, ep: string)
    requires IsStripped(sp) && IsStripped(ep) && '-' !in sp
    ensures Clean(Some(sp + "-" + ep)) == sp + "-" + ep
    ensures IsFirstHyphen(sp + "-" + ep, |sp|)
  {
    var s := sp + "-" + ep;
    StrippedAround(sp, "-", ep);
    assert s[..|sp|] == sp;
  }

  /** The worked examples: "100-110" gives 100 and 110. */
  lemma SplitPagesRangeExample()
    ensures SplitPages(Some("100-110")) == Pages("100", "110")
  {
    var s := "100-110";
    assert s[..3] == "100" && s[4..] == "110" && s[3] == '-';
    assert IsStripped(s) && IsStripped("100") && IsStripped("110");
    assert '-' !in "100";
    assert IndexOf(s, '-') == Some(3);
  }

  /** "100" gives the start page 100 and no end page; an absent page gives neither. */
  lemma SplitPagesSingleExamples()
    ensures SplitPages(Some("100")) == Pages("100", "")
    ensures SplitPages(None) == Pages("", "")
  {
    assert IsStripped("100");
    assert '-' !in "100";
  }

  // ---------------------------------------------------------------------------
  // abstract: re.sub(r"<[^>]+>", " ", abstract).strip() for JATS abstracts

  /** The length of the match of `<[^>]+>` at the start of `s`, or 0 when none:
      a match exists exactly when `s` opens with '<', a character other than '>'
      follows, and a '>' comes later; it ends at the first such '>'. */
  function TagLength(s: string): (n: nat)
    ensures n == 0 || (3 <= n <= |s| && s[0] == '<' && s[n - 1] == '>' && '>' !in s[1..n - 1])
  {
    if s == [] || s[0] != '<' then 0
    else
      match IndexOf(s[1..], '>')
      case None => 0
      case Some(k) =>
        if k == 0 then 0
        else
          assert s[1..k + 1] == s[1..][..k];
          k + 2
  }

  /** Every text that opens with '<', then a character other than '>', and has
      a '>' further on starts a match. */
  lemma TagLengthComplete(s: string)
    requires |s| > 2 && s[0] == '<' && s[1] != '>' && '>' in s[2..]
    ensures TagLength(s) > 0
  {
    assert '>' in s[1..] by {
      assert s[2..] == s[1..][1..];
    }
  }

  /** No position of `s` starts a match of `<[^>]+>`. */
  predicate NoTag(s: string) {
    forall i :: 0 <= i < |s| ==> TagLength(s[i..]) == 0
  }

  /** `re.sub(r"<[^>]+>", " ", s)`: every match, leftmost first and without
      overlap, becomes a single space. Nothing of the pattern remains, and text
      without it is left as it is. */
  function ReplaceTags(s: string): (r: string)
    ensures |r| <= |s|
    ensures NoTag(r)
    ensures NoTag(s) ==> r == s
    ensures '>' !in s ==> '>' !in r
    decreases |s|
  {
    if s == [] then ""
    else
      var n := TagLength(s);
      if n > 0 then
        assert s[0..] == s;
        var rest := ReplaceTags(s[n..]);
        NoTagCons(' ', rest);
        " " + rest
      else
        var rest := ReplaceTags(s[1..]);
        assert NoTag(s) ==> NoTag(s[1..]) by {
          if NoTag(s) {
            forall i | 0 <= i < |s[1..]|
              ensures TagLength(s[1..][i..]) == 0
            {
              assert s[1..][i..] == s[i + 1..];
            }
          }
        }
        if s[0] == '<' then
          TagFreeHead(s, rest);
          [s[0]] + rest
        else
          NoTagCons(s[0], rest);
          [s[0]] + rest
  }

  /** Text without '<' is copied as it is, a match after it becomes one space,
      and the replacement goes on after the match. */
  lemma ReplaceTagsSplice(a: string, t: string, b: string)
    requires '<' !in a && |t| > 0 && TagLength(t + b) == |t|
    ensures ReplaceTags(a + t + b) == a + " " + ReplaceTags(b)
  {
    var x := ReplaceTags(b);
    ReplaceTagsPlain(a, t + b);
    ReplaceTagsAtTag(t, b);
    Assoc3(a, t, b);
    Assoc3(a, " ", x);
  }

  lemma Assoc3(x: string, y: string, z: string)
    ensures x + y + z == x + (y + z)
  {
  }

  /** Text without '<' is copied as it is. */
  lemma {:induction false} ReplaceTagsPlain(a: string, rest: string)
    requires '<' !in a
    ensures ReplaceTags(a + rest) == a + ReplaceTags(rest)
    decreases |a|
  {
    if a == [] {
      assert a + rest == rest;
    } else {
      var s := a + rest;
      var x := ReplaceTags(rest);
      ConsShape(a, rest);
      ConsShape(a, x);
      ReplaceTagsStep(s);
      ReplaceTagsPlain(a[1..], rest);
    }
  }

  lemma ConsShape(a: string, x: string)
    requires a != []
    ensures (a + x)[0] == a[0] && (a + x)[1..] == a[1..] + x
    ensures a + x == [a[0]] + (a[1..] + x)
  {
    assert a == [a[0]] + a[1..];
  }

  /** A match at the head of the text becomes one space. */
  lemma ReplaceTagsAtTag(t: string, b: string)
    requires |t| > 0 && TagLength(t + b) == |t|
    ensures ReplaceTags(t + b) == " " + ReplaceTags(b)
  {
    ReplaceTagsStep(t + b);
    assert (t + b)[|t|..] == b;
  }

  /** One step of the replacement: a match at the head becomes a space, any
      other first character is kept. */
  lemma ReplaceTagsStep(s: string)
    requires s != []
    ensures TagLength(s) > 0 ==> ReplaceTags(s) == " " + ReplaceTags(s[TagLength(s)..])
    ensures TagLength(s) == 0 ==> ReplaceTags(s) == [s[0]] + ReplaceTags(s[1..])
  {
  }

  lemma NoTagCons(c: char, s: string)
    requires c != '<' && NoTag(s)
    ensures NoTag([c] + s)
  {
    forall i | 0 <= i < |[c] + s|
      ensures TagLength(([c] + s)[i..]) == 0
    {
      if i > 0 {
        assert ([c] + s)[i..] == s[i - 1..];
      }
    }
  }

  /** A '<' that starts no match in `s` starts none ahead of the replaced rest:
      either no '>' follows it at all, or the next character is '>'. */
  lemma TagFreeHead(s: string, rest: string)
    requires s != [] && s[0] == '<' && TagLength(s) == 0
    requires NoTag(rest)
    requires '>' !in s[1..] ==> '>' !in rest
    requires |s| > 1 && s[1] == '>' ==> rest != [] && rest[0] == '>'
    ensures NoTag([s[0]] + rest)
  {
    var t := [s[0]] + rest;
    forall i | 0 <= i < |t|
      ensures TagLength(t[i..]) == 0
    {
      if i > 0 {
        assert t[i..] == rest[i - 1..];
      } else {
        assert t[1..] == rest;
        if '>' in s[1..] {
          assert IndexOf(s[1..], '>') == Some(0);
          assert t[1] == '>';
          assert IndexOf(t[1..], '>') == Some(0);
        }
      }
    }
  }

  /** What Strip keeps of tag-free text is tag-free. */
  lemma NoTagStrip(s: string)
    requires NoTag(s)
    ensures NoTag(Strip(s))
  {
    StripIsCore(s);
    var a: nat :| IsCoreAt(s, Strip(s), a);
    NoTagSlice(s, Strip(s), a);
  }

  /** A piece of tag-free text is tag-free. */
  lemma NoTagSlice(s: string, t: string, a: nat)
    requires NoTag(s) && a + |t| <= |s| && s[a..a + |t|] == t
    ensures NoTag(t)
  {
    forall i | 0 <= i < |t|
      ensures TagLength(t[i..]) == 0
    {
      NoTagInCore(s, t, a, i);
    }
  }

  lemma NoTagInCore(s: string, t: string, a: nat, i: nat)
    requires NoTag(s) && a + |t| <= |s| && s[a..a + |t|] == t && i < |t|
    ensures TagLength(t[i..]) == 0
  {
    assert t[i..] == s[a + i..][..|t| - i];
    assert TagLength(s[a + i..]) == 0;
    TagLengthPrefix(s[a + i..], |t| - i);
  }

  /** Cutting text short cannot create a match at its start. */
  lemma TagLengthPrefix(u: string, n: nat)
    requires n <= |u| && TagLength(u) == 0
    ensures TagLength(u[..n]) == 0
  {
    var v := u[..n];
    if v != [] && v[0] == '<' {
      assert v[1..] == u[1..][..n - 1];
      match IndexOf(u[1..], '>')
      case None =>
        assert '>' !in v[1..];
      case Some(k) =>
        assert k == 0;
        if n > 1 {
          assert v[1] == '>';
          assert IndexOf(v[1..], '>') == Some(0);
        }
    }
  }

  /** The cleaned abstract; when it opens with `<jats:` its tags are replaced by
      spaces and the result is stripped again. */
  function CleanAbstract(a: Option<string>): (r: string)
    ensures IsStripped(r)
    ensures !StartsWith(Clean(a), "<jats:") ==> r == Clean(a)
    ensures StartsWith(Clean(a), "<jats:") ==> NoTag(r) && r == Strip(ReplaceTags(Clean(a)))
  {
    var text := Clean(a);
    if StartsWith(text, "<jats:") then
      NoTagStrip(ReplaceTags(text));
      Strip(ReplaceTags(text))
    else text
  }

  // ---------------------------------------------------------------------------
  // keywords

  /** `[s.strip() for s in items if isinstance(s, str)]`. */
  function StringItems(items: seq<Item>): (r: seq<string>)
    ensures |r| <= |items|
    ensures forall k :: 0 <= k < |r| ==> IsStripped(r[k])
  {
    if items == [] then [] else ItemText(items[0]) + StringItems(items[1..])
  }

  /** What one subject element contributes: its stripped text when it is a string. */
  function ItemText(it: Item): (r: seq<string>)
    ensures |r| <= 1
  {
    match it
    case StrItem(s) => [Strip(s)]
    case OtherItem => []
  }

  /** Filtering distributes over concatenation, so the order of the subject list
      is kept. */
  lemma {:induction false} StringItemsAppend(a: seq<Item>, b: seq<Item>)
    ensures StringItems(a + b) == StringItems(a) + StringItems(b)
    decreases |a|
  {
    if a != [] {
      assert (a + b)[0] == a[0];
      assert (a + b)[1..] == a[1..] + b;
      StringItemsAppend(a[1..], b);
      AppendAssocStrings(ItemText(a[0]), StringItems(a[1..]), StringItems(b));
    } else {
      assert a + b == b;
    }
  }

  lemma AppendAssocStrings(x: seq<string>, y: seq<string>, z: seq<string>)
    ensures x + (y + z) == (x + y) + z
  {
  }

  /** A list of strings only loses nothing: its keywords are its stripped elements. */
  lemma {:induction false} StringItemsAllStrings(items: seq<Item>)
    requires forall k :: 0 <= k < |items| ==> items[k].StrItem?
    ensures |StringItems(items)| == |items|
    ensures forall k :: 0 <= k < |items| ==> StringItems(items)[k] == Strip(items[k].s)
  {
    if items != [] {
      StringItemsAllStrings(items[1..]);
    }
  }

  /** Iterating a string yields its characters: each one, stripped. */
  function CharKeywords(t: string): (r: seq<string>)
    ensures |r| == |t|
    ensures forall i :: 0 <= i < |t| ==> (r[i] == "" <==> IsSpace(t[i]))
    ensures forall i :: 0 <= i < |t| ==> (!IsSpace(t[i]) ==> r[i] == [t[i]])
  {
    seq(|t|, i requires 0 <= i < |t| => Strip([t[i]]))
  }

  /** The keys of a JSON object, each stripped: iterating a dictionary yields
      its keys, which are all strings. */
  function KeyKeywords(keys: seq<string>): (r: seq<string>)
    ensures |r| == |keys|
    ensures forall i :: 0 <= i < |keys| ==> r[i] == Strip(keys[i])
  {
    seq(|keys|, i requires 0 <= i < |keys| => Strip(keys[i]))
  }

  /** The keywords of a record. The baseline keeps the string elements of a list
      `subject` and ignores anything else; the fixed version iterates the value
      itself, so a string `subject` gives one keyword per character and an object
      one keyword per key. */
  function Keywords(v: Variant, subject: Subject): (r: seq<string>)
    ensures forall k :: 0 <= k < |r| ==> IsStripped(r[k])
    ensures subject.NoSubject? ==> r == []
    ensures subject.SubjectList? ==> r == StringItems(subject.items)
    ensures v == Baseline && (subject.SubjectText? || subject.SubjectKeys?) ==> r == []
    ensures v == Fixed && subject.SubjectText? ==> |r| == |subject.text|
    ensures v == Fixed && subject.SubjectKeys? ==> |r| == |subject.keys|
  {
    match subject
    case NoSubject => []
    case SubjectList(items) => StringItems(items)
    case SubjectText(t) => if v == Baseline then [] else CharKeywords(t)
    case SubjectKeys(keys) => if v == Baseline then [] else KeyKeywords(keys)
  }

  /** The two versions agree on an absent `subject` and on a list. */
  lemma KeywordsAgree(subject: Subject)
    requires subject.NoSubject? || subject.SubjectList?
    ensures Keywords(Baseline, subject) == Keywords(Fixed, subject)
  {
  }

  /** A string `subject` is where they part: "ab" gives no keywords in the baseline
      and the keywords "a" and "b" in the fixed version. */
  lemma KeywordsDiverge()
    ensures Keywords(Baseline, SubjectText("ab")) == []
    ensures Keywords(Fixed, SubjectText("ab")) == ["a", "b"]
  {
    var r := CharKeywords("ab");
    assert r[0] == "a" && r[1] == "b";
  }

  /** An object `subject` parts them too: {" x ": 1} gives no keywords in the
      baseline and the keyword "x" in the fixed version. */
  lemma KeywordsDivergeOnObject()
    ensures Keywords(Baseline, SubjectKeys([" x "])) == []
    ensures Keywords(Fixed, SubjectKeys([" x "])) == ["x"]
  {
    var r := KeyKeywords([" x "]);
    assert r[0] == "x";
  }

  // ---------------------------------------------------------------------------
  // crossref_to_meta

  /** What every normalised record satisfies: a known RIS type, every text field
      stripped, a start page without a hyphen, a year that is integer text. */
  predicate IsNormalized(m: Meta) {
    m.ty in RisTypes
    && IsStripped(m.title) && IsStripped(m.journal) && IsStripped(m.volume) && IsStripped(m.issue)
    && IsStripped(m.sp) && IsStripped(m.ep) && IsStripped(m.doi) && IsStripped(m.url)
    && IsStripped(m.publisher) && IsStripped(m.abstractText)
    && (forall k :: 0 <= k < |m.authors| ==> IsStripped(m.authors[k]))
    && (forall k :: 0 <= k < |m.keywords| ==> IsStripped(m.keywords[k]))
    && (m.year.Some? ==> IsIntString(m.year.value))
    && '-' !in m.sp
  }

  /** `crossref_to_meta`; what it guarantees is `CrossrefToMetaNormalized`. */
  function CrossrefToMeta(v: Variant, raw: RawRecord): Meta {
    var pages := SplitPages(raw.page);
    var year := FirstYear(raw);
    Meta(
      ty := RisType(raw.ty),
      title := FirstText(raw.title),
      authors := NormalizeAuthors(raw.authors),
      year := year,
      journal := FirstText(raw.containerTitle),
      volume := Clean(raw.volume),
      issue := Clean(raw.issue),
      sp := pages.sp,
      ep := pages.ep,
      doi := Clean(raw.doi),
      url := Clean(raw.url),
      publisher := Clean(raw.publisher),
      abstractText := CleanAbstract(raw.abstractText),
      keywords := Keywords(v, raw.subject))
  }

  /** Every field of the normalised record is stripped, the type is one of the RIS
      types, a year is a decimal integer and the start page holds no hyphen; the
      authors are the normalised authors, in order, and the year the first date
      part found. */
  lemma CrossrefToMetaNormalized(v: Variant, raw: RawRecord)
    ensures IsNormalized(CrossrefToMeta(v, raw))
    ensures CrossrefToMeta(v, raw).authors == NormalizeAuthors(raw.authors)
    ensures CrossrefToMeta(v, raw).year == FirstYear(raw)
  {
    var year := FirstYear(raw);
    assert year.Some? ==> IsIntString(year.value);
  }

  /** A record with nothing in it. */
  const EmptyRecord: RawRecord := RawRecord(None, None, None, [], [], [], [], [], None, None, None,
                                            None, None, None, None, NoSubject)

  /** Every field of an empty record defaults to its empty value and the type to GEN. */
  lemma EmptyRecordDefaults(v: Variant)
    ensures CrossrefToMeta(v, EmptyRecord) == Meta("GEN", "", [], None, "", "", "", "", "", "", "", "", "", [])
  {
    assert Lower("") == "";
    assert "" !in TypeMap;
    assert RisType(None) == "GEN";
    assert forall k :: 0 <= k < 4 ==> DateKeys(EmptyRecord)[k] == [];
    assert FirstYear(EmptyRecord) == None;
    assert SplitPages(None) == Pages("", "");
    assert CleanAbstract(None) == "";
  }

  /** An unrecognised or absent registry type becomes GEN. */
  lemma UnknownTypeIsGen(v: Variant, raw: RawRecord)
    requires Lower(raw.ty.GetOr("")) !in TypeMap
    ensures CrossrefToMeta(v, raw).ty == "GEN"
  {
  }

  /** The variants agree on every record whose `subject` is absent or a list. */
  lemma CrossrefToMetaVariantsAgree(raw: RawRecord)
    requires raw.subject.NoSubject? || raw.subject.SubjectList?
    ensures CrossrefToMeta(Baseline, raw) == CrossrefToMeta(Fixed, raw)
  {
    KeywordsAgree(raw.subject);
  }
}
