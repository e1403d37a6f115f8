/** The RIS writer: `ris_escape`, `to_ris_lines` and `meta_to_ris`. A record
    becomes a block of tagged lines "XX  - value" in a fixed tag order, closed by
    the end-of-record line "ER  - ", and the blocks are joined into one document. */
module Ris {
  import opened Wrappers
  import opened Text
  import opened Normalizer

  // ---------------------------------------------------------------------------
  // ris_escape

  lemma ReplaceNewlinesKeepsStripped(v: string)
    requires IsStripped(v)
    ensures IsStripped(ReplaceChar(v, '\n', ' '))
  {
  }

  /** `ris_escape`: line feeds become spaces, then the value is stripped. */
  function RisEscape(v: string): string {
    Strip(ReplaceChar(v, '\n', ' '))
  }

  /** The escaped value holds no line feed and no surrounding whitespace; a
      value with no line feed is only stripped, and a stripped one only has its
      line feeds turned into spaces. */
  lemma RisEscapeSpec(v: string)
    ensures '\n' !in RisEscape(v) && IsStripped(RisEscape(v))
    ensures '\n' !in v ==> RisEscape(v) == Strip(v)
    ensures IsStripped(v) ==> RisEscape(v) == ReplaceChar(v, '\n', ' ')
  {
    var replaced := ReplaceChar(v, '\n', ' ');
    assert '\n' !in v ==> replaced == v;
    StripKeepsAbsence(replaced, '\n');
    if IsStripped(v) {
      ReplaceNewlinesKeepsStripped(v);
    }
  }

  // ---------------------------------------------------------------------------
  // Tagged lines

  /** One tagged field of a record. */
  datatype Entry = Entry(tag: string, value: string)

  /** The text of a tagged line: the tag, two spaces, a hyphen, a space, the value. */
  function Line(tag: string, value: string): string {
    tag + "  - " + value
  }

  /** The position of a tag in the fixed order TY, TI, T2, PB, PY, VL, IS, AU, SP,
      EP, DO, UR, AB, KW, ER; 15 for any other text. */
  function Rank(tag: string): nat {
    if |tag| != 2 then 15
    else
      var a, b := tag[0], tag[1];
      if a == 'T' && b == 'Y' then 0 else if a == 'T' && b == 'I' then 1
      else if a == 'T' && b == '2' then 2 else if a == 'P' && b == 'B' then 3
      else if a == 'P' && b == 'Y' then 4 else if a == 'V' && b == 'L' then 5
      else if a == 'I' && b == 'S' then 6 else if a == 'A' && b == 'U' then 7
      else if a == 'S' && b == 'P' then 8 else if a == 'E' && b == 'P' then 9
      else if a == 'D' && b == 'O' then 10 else if a == 'U' && b == 'R' then 11
      else if a == 'A' && b == 'B' then 12 else if a == 'K' && b == 'W' then 13
      else if a == 'E' && b == 'R' then 14
      else 15
  }

  lemma RankedTagLength(tag: string)
    requires Rank(tag) < 15
    ensures |tag| == 2
  {
  }

  /** The line of an optional field written as it is: none when the field is
      empty, otherwise one carrying the value. */
  function PlainField(tag: string, v: string): seq<Entry> {
    if v == "" then [] else [Entry(tag, v)]
  }

  /** The line of an optional field passed through `ris_escape`: none when
      the field is empty, otherwise one carrying the escaped value. */
  function EscapedField(tag: string, v: string): seq<Entry> {
    if v == "" then [] else [Entry(tag, RisEscape(v))]
  }

  /** One escaped line per non-empty element of `vs`, in order. */
  function RepeatedEntries(tag: string, vs: seq<string>): (es: seq<Entry>)
    ensures |es| <= |vs|
    ensures forall i :: 0 <= i < |es| ==> es[i].tag == tag
  {
    if vs == [] then [] else RepeatedEntries(tag, vs[..|vs| - 1]) + EscapedField(tag, vs[|vs| - 1])
  }

  function TypeValue(m: Meta): string {
    if m.ty != "" then m.ty else "GEN"
  }

  /** The tag of section `k`, in the fixed order TY, TI, T2, PB, PY, VL, IS,
      AU, SP, EP, DO, UR, AB, KW, ER. */
  function SectionTag(k: nat): string
    requires k < 15
  {
    if k == 0 then "TY" else if k == 1 then "TI" else if k == 2 then "T2"
    else if k == 3 then "PB" else if k == 4 then "PY" else if k == 5 then "VL"
    else if k == 6 then "IS" else if k == 7 then "AU" else if k == 8 then "SP"
    else if k == 9 then "EP" else if k == 10 then "DO" else if k == 11 then "UR"
    else if k == 12 then "AB" else if k == 13 then "KW" else "ER"
  }

  /** The sections whose value goes through `ris_escape`. */
  predicate EscapedSection(k: nat) {
    k == 1 || k == 2 || k == 3 || k == 12
  }

  /** The field behind a single-valued section; the year is empty when absent. */
  function FieldValue(m: Meta, k: nat): string {
    if k == 1 then m.title else if k == 2 then m.journal
    else if k == 3 then m.publisher else if k == 4 then m.year.GetOr("")
    else if k == 5 then m.volume else if k == 6 then m.issue
    else if k == 8 then m.sp else if k == 9 then m.ep
    else if k == 10 then m.doi else if k == 11 then m.url
    else m.abstractText
  }

  /** The list behind a repeated section: the authors (7) or the keywords (13). */
  function ListValue(m: Meta, k: nat): seq<string> {
    if k == 7 then m.authors else m.keywords
  }

  /** Section `k` of a record: its entries whose tag is `SectionTag(k)`. */
  function Section(m: Meta, k: nat): seq<Entry>
    requires k < 15
  {
    if k == 0 then [Entry("TY", TypeValue(m))]
    else if k == 14 then [Entry("ER", "")]
    else if k == 7 || k == 13 then RepeatedEntries(SectionTag(k), ListValue(m, k))
    else if EscapedSection(k) then EscapedField(SectionTag(k), FieldValue(m, k))
    else PlainField(SectionTag(k), FieldValue(m, k))
  }

  /** The entries of sections 0 to `k - 1`, in order. */
  function EntriesUpTo(m: Meta, k: nat): seq<Entry>
    requires k <= 15
  {
    if k == 0 then [] else EntriesUpTo(m, k - 1) + Section(m, k - 1)
  }

  /** The entries of a record in output order: the fifteen sections, one
      after the other (`EntriesInOrder` writes them out). */
  function Entries(m: Meta): seq<Entry> {
    EntriesUpTo(m, 15)
  }

  function Render(es: seq<Entry>): (lines: seq<string>)
    ensures |lines| == |es|
  {
    if es == [] then [] else Render(es[..|es| - 1]) + [Line(es[|es| - 1].tag, es[|es| - 1].value)]
  }

  /** `to_ris_lines` as a specification. */
  function RisLines(m: Meta): seq<string> {
    Render(Entries(m))
  }

  // ---------------------------------------------------------------------------
  // Building the lines step by step

  /** Rendering is line by line: the lines of two runs of entries are the lines
      of each, one after the other. */
  lemma {:induction false} RenderAppend(a: seq<Entry>, b: seq<Entry>)
    ensures Render(a + b) == Render(a) + Render(b)
    decreases |b|
  {
    if b == [] {
      assert a + b == a;
    } else {
      var b' := b[..|b| - 1];
      assert (a + b)[..|a + b| - 1] == a + b';
      RenderAppend(a, b');
    }
  }

  lemma RepeatedStep(tag: string, vs: seq<string>, i: nat)
    requires i < |vs|
    ensures RepeatedEntries(tag, vs[..i + 1]) == RepeatedEntries(tag, vs[..i]) + EscapedField(tag, vs[i])
  {
    assert vs[..i + 1][..i] == vs[..i];
  }

  lemma AppendAssoc(a: seq<Entry>, b: seq<Entry>, c: seq<Entry>)
    ensures a + b + c == a + (b + c)
  {
  }

  lemma AppendNil(a: seq<Entry>)
    ensures a + [] == a
  {
  }

  lemma RenderSnoc(es: seq<Entry>, e: Entry)
    ensures Render(es + [e]) == Render(es) + [Line(e.tag, e.value)]
  {
    assert (es + [e])[..|es|] == es;
  }

  lemma EndLine()
    ensures Line("ER", "") == "ER  - "
  {
  }

  /** One `if meta.get(key): lines.append(...)` step of `to_ris_lines` for a
      field written as it is; `es` is the entries the lines so far render. */
  method AppendPlain(lines: seq<string>, ghost es: seq<Entry>, tag: string, value: string)
    returns (next: seq<string>, ghost es': seq<Entry>)
    requires lines == Render(es)
    ensures es' == es + PlainField(tag, value) && next == Render(es')
  {
    es' := es + PlainField(tag, value);
    next := lines;
    if value != "" {
      next := lines + [Line(tag, value)];
      RenderSnoc(es, Entry(tag, value));
    } else {
      AppendNil(es);
    }
  }

  /** The same step for a field passed through `ris_escape`. */
  method AppendEscaped(lines: seq<string>, ghost es: seq<Entry>, tag: string, value: string)
    returns (next: seq<string>, ghost es': seq<Entry>)
    requires lines == Render(es)
    ensures es' == es + EscapedField(tag, value) && next == Render(es')
  {
    es' := es + EscapedField(tag, value);
    next := lines;
    if value != "" {
      var v := RisEscape(value);
      next := lines + [Line(tag, v)];
      RenderSnoc(es, Entry(tag, v));
    } else {
      AppendNil(es);
    }
  }

  /** One `for a in ...: if a: lines.append(...)` loop of `to_ris_lines`. */
  method AppendRepeated(lines: seq<string>, ghost es: seq<Entry>, tag: string, vs: seq<string>)
    returns (next: seq<string>, ghost es': seq<Entry>)
    requires lines == Render(es)
    ensures es' == es + RepeatedEntries(tag, vs) && next == Render(es')
  {
    next, es' := lines, es;
    AppendNil(es);
    var i := 0;
    while i < |vs|
      invariant 0 <= i <= |vs|
      invariant es' == es + RepeatedEntries(tag, vs[..i]) && next == Render(es')
    {
      RepeatedStep(tag, vs, i);
      AppendAssoc(es, RepeatedEntries(tag, vs[..i]), EscapedField(tag, vs[i]));
      next, es' := AppendEscaped(next, es', tag, vs[i]);
      i := i + 1;
    }
    assert vs[..i] == vs;
  }

  /** `to_ris_lines`: the TY line, each optional line whose field is non-empty,
      one line per non-empty author and keyword, and the ER line. */
  method ToRisLines(m: Meta) returns (lines: seq<string>)
    ensures lines == RisLines(m)
  {
    var ty := if m.ty != "" then m.ty else "GEN";
    lines := [Line("TY", ty)];
    ghost var es := [Entry("TY", TypeValue(m))];
    lines, es := AppendEscaped(lines, es, "TI", m.title);
    lines, es := AppendEscaped(lines, es, "T2", m.journal);
    lines, es := AppendEscaped(lines, es, "PB", m.publisher);
    var year := if m.year.Some? then m.year.value else "";
    lines, es := AppendPlain(lines, es, "PY", year);
    lines, es := AppendPlain(lines, es, "VL", m.volume);
    lines, es := AppendPlain(lines, es, "IS", m.issue);
    lines, es := AppendRepeated(lines, es, "AU", m.authors);
    lines, es := AppendPlain(lines, es, "SP", m.sp);
    lines, es := AppendPlain(lines, es, "EP", m.ep);
    lines, es := AppendPlain(lines, es, "DO", m.doi);
    lines, es := AppendPlain(lines, es, "UR", m.url);
    lines, es := AppendEscaped(lines, es, "AB", m.abstractText);
    lines, es := AppendRepeated(lines, es, "KW", m.keywords);
    RenderSnoc(es, Entry("ER", ""));
    EndLine();
    lines := lines + ["ER  - "];
    EntriesInOrder(m);
  }

  // ---------------------------------------------------------------------------
  // What the block says

  lemma {:induction false} RenderAt(es: seq<Entry>, i: nat)
    requires i < |es|
    ensures Render(es)[i] == Line(es[i].tag, es[i].value)
    decreases |es|
  {
    if i < |es| - 1 {
      RenderAt(es[..|es| - 1], i);
    }
  }

  lemma {:induction false} EntriesUpToFirst(m: Meta, k: nat)
    requires 1 <= k <= 15
    ensures |EntriesUpTo(m, k)| >= 1 && EntriesUpTo(m, k)[0] == Entry("TY", TypeValue(m))
  {
    if k > 1 {
      EntriesUpToFirst(m, k - 1);
    }
  }

  lemma EntriesFraming(m: Meta)
    ensures |Entries(m)| >= 2
    ensures Entries(m)[0] == Entry("TY", TypeValue(m))
    ensures Entries(m)[|Entries(m)| - 1] == Entry("ER", "")
  {
    EntriesUpToFirst(m, 14);
    assert Entries(m) == EntriesUpTo(m, 14) + [Entry("ER", "")];
  }

  /** A block opens with the TY line, whose value defaults to GEN, and closes
      with the end-of-record line. */
  lemma RisLinesFraming(m: Meta)
    ensures |RisLines(m)| >= 2
    ensures RisLines(m)[0] == "TY  - " + TypeValue(m)
    ensures RisLines(m)[|RisLines(m)| - 1] == "ER  - "
    ensures TypeValue(m) == if m.ty != "" then m.ty else "GEN"
  {
    var es := Entries(m);
    EntriesFraming(m);
    RenderAt(es, 0);
    RenderAt(es, |es| - 1);
    EndLine();
  }

  /** The entries field by field: the TY line, the escaped title, journal and
      publisher, the year, volume and issue as they are, the authors, the
      pages, DOI and URL as they are, the escaped abstract, the keywords, and
      the ER line. */
  lemma EntriesInOrder(m: Meta)
    ensures Entries(m) ==
      [Entry("TY", TypeValue(m))]
      + EscapedField("TI", m.title)
      + EscapedField("T2", m.journal)
      + EscapedField("PB", m.publisher)
      + PlainField("PY", m.year.GetOr(""))
      + PlainField("VL", m.volume)
      + PlainField("IS", m.issue)
      + RepeatedEntries("AU", m.authors)
      + PlainField("SP", m.sp)
      + PlainField("EP", m.ep)
      + PlainField("DO", m.doi)
      + PlainField("UR", m.url)
      + EscapedField("AB", m.abstractText)
      + RepeatedEntries("KW", m.keywords)
      + [Entry("ER", "")]
  {
    assert EntriesUpTo(m, 1) == [Entry("TY", TypeValue(m))];
    assert EntriesUpTo(m, 3) == EntriesUpTo(m, 2) + Section(m, 2);
    assert EntriesUpTo(m, 5) == EntriesUpTo(m, 4) + Section(m, 4);
    assert EntriesUpTo(m, 7) == EntriesUpTo(m, 6) + Section(m, 6);
    assert EntriesUpTo(m, 9) == EntriesUpTo(m, 8) + Section(m, 8);
    assert EntriesUpTo(m, 11) == EntriesUpTo(m, 10) + Section(m, 10);
    assert EntriesUpTo(m, 13) == EntriesUpTo(m, 12) + Section(m, 12);
    assert EntriesUpTo(m, 15) == EntriesUpTo(m, 14) + Section(m, 14);
  }

  lemma PlainRanked(tag: string, v: string)
    ensures forall e :: e in PlainField(tag, v) ==> e.tag == tag
  {
  }

  lemma EscapedRanked(tag: string, v: string)
    ensures forall e :: e in EscapedField(tag, v) ==> e.tag == tag
  {
  }

  lemma RepeatedRanked(tag: string, vs: seq<string>)
    ensures forall e :: e in RepeatedEntries(tag, vs) ==> e.tag == tag
  {
    var es := RepeatedEntries(tag, vs);
    forall e | e in es
      ensures e.tag == tag
    {
      var i :| 0 <= i < |es| && es[i] == e;
    }
  }

  /** Section tags are two line-feed-free letters ranked by their section. */
  lemma SectionTagRank(k: nat)
    requires k < 15
    ensures Rank(SectionTag(k)) == k && '\n' !in SectionTag(k)
  {
  }

  /** Every entry of section `k` carries a tag of rank `k`. */
  lemma SectionRanked(m: Meta, k: nat)
    requires k < 15
    ensures forall e :: e in Section(m, k) ==> Rank(e.tag) == k
  {
    var tag := SectionTag(k);
    SectionTagRank(k);
    if k == 0 || k == 14 {
      assert Section(m, k) == [Entry(tag, Section(m, k)[0].value)];
    } else if k == 7 || k == 13 {
      RepeatedRanked(tag, ListValue(m, k));
    } else if EscapedSection(k) {
      EscapedRanked(tag, FieldValue(m, k));
    } else {
      PlainRanked(tag, FieldValue(m, k));
    }
  }

  /** Tags of rank `k` never precede tags of a lower rank. */
  predicate RankOrdered(es: seq<Entry>) {
    forall i, j :: 0 <= i < j < |es| ==> Rank(es[i].tag) <= Rank(es[j].tag)
  }

  lemma {:induction false} EntriesUpToRanked(m: Meta, k: nat)
    requires k <= 15
    ensures RankOrdered(EntriesUpTo(m, k))
    ensures forall e :: e in EntriesUpTo(m, k) ==> Rank(e.tag) < k
  {
    if k > 0 {
      EntriesUpToRanked(m, k - 1);
      SectionRanked(m, k - 1);
      var a: seq<Entry>, b: seq<Entry> := EntriesUpTo(m, k - 1), Section(m, k - 1);
      assert EntriesUpTo(m, k) == a + b;
      forall i, j | 0 <= i < j < |a + b|
        ensures Rank((a + b)[i].tag) <= Rank((a + b)[j].tag)
      {
        if j < |a| {
          assert (a + b)[i] == a[i] && (a + b)[j] == a[j];
        } else if i < |a| {
          assert (a + b)[i] == a[i] && a[i] in a;
          assert (a + b)[j] == b[j - |a|] && b[j - |a|] in b;
        } else {
          assert (a + b)[i] == b[i - |a|] && b[i - |a|] in b;
          assert (a + b)[j] == b[j - |a|] && b[j - |a|] in b;
        }
      }
    }
  }

  /** The entries of a record come in the fixed tag order, and every tag is one
      of the fifteen. */
  lemma EntriesOrdered(m: Meta)
    ensures RankOrdered(Entries(m))
    ensures forall e :: e in Entries(m) ==> Rank(e.tag) < 15
  {
    EntriesUpToRanked(m, 15);
  }

  /** Every line is at least a tag and the separator long, and the tags, read
      from the first two characters, come in the fixed order. */
  predicate TagsOrdered(lines: seq<string>) {
    (forall i :: 0 <= i < |lines| ==> |lines[i]| >= 6)
    && forall i, j :: 0 <= i < j < |lines| ==> Rank(lines[i][..2]) <= Rank(lines[j][..2])
  }

  /** The lines of a block come in the fixed tag order. */
  lemma RisLinesOrdered(m: Meta)
    ensures TagsOrdered(RisLines(m))
  {
    var es := Entries(m);
    var lines := Render(es);
    EntriesOrdered(m);
    forall i | 0 <= i < |lines|
      ensures |lines[i]| >= 6 && lines[i][..2] == es[i].tag
    {
      assert es[i] in es;
      RankedTagLength(es[i].tag);
      RenderAt(es, i);
      LineFields(es[i].tag, es[i].value);
    }
  }

  /** A line splits back into its tag, the separator and its value. */
  lemma LineFields(tag: string, value: string)
    requires |tag| == 2
    ensures |Line(tag, value)| == 6 + |value|
    ensures Line(tag, value)[..2] == tag
    ensures Line(tag, value)[2..6] == "  - "
    ensures Line(tag, value)[6..] == value
  {
  }

  // ---------------------------------------------------------------------------
  // The entries of each tag

  /** The entries whose tag has rank `k`, in order. */
  function WithRank(es: seq<Entry>, k: nat): (r: seq<Entry>)
    ensures |r| <= |es|
  {
    if es == [] then []
    else WithRank(es[..|es| - 1], k) + (if Rank(es[|es| - 1].tag) == k then [es[|es| - 1]] else [])
  }

  lemma {:induction false} WithRankAppend(a: seq<Entry>, b: seq<Entry>, k: nat)
    ensures WithRank(a + b, k) == WithRank(a, k) + WithRank(b, k)
    decreases |b|
  {
    if b == [] {
      assert a + b == a;
    } else {
      var b' := b[..|b| - 1];
      assert (a + b)[..|a + b| - 1] == a + b';
      assert (a + b)[|a + b| - 1] == b[|b| - 1];
      WithRankAppend(a, b', k);
    }
  }

  lemma {:induction false} WithRankUniform(es: seq<Entry>, k: nat, j: nat)
    requires forall e :: e in es ==> Rank(e.tag) == j
    ensures WithRank(es, k) == if j == k then es else []
    decreases |es|
  {
    if es != [] {
      var es' := es[..|es| - 1];
      assert forall e :: e in es' ==> e in es;
      assert es[|es| - 1] in es;
      WithRankUniform(es', k, j);
      assert es' + [es[|es| - 1]] == es;
    }
  }

  lemma {:induction false} WithRankUpTo(m: Meta, n: nat, k: nat)
    requires n <= 15 && k < 15
    ensures WithRank(EntriesUpTo(m, n), k) == if k < n then Section(m, k) else []
  {
    if n > 0 {
      WithRankUpTo(m, n - 1, k);
      WithRankAppend(EntriesUpTo(m, n - 1), Section(m, n - 1), k);
      SectionRanked(m, n - 1);
      WithRankUniform(Section(m, n - 1), k, n - 1);
      if k < n - 1 {
        assert Section(m, k) + [] == Section(m, k);
      }
    }
  }

  /** The entries of the record with tag rank `k` are exactly section `k`:
      the TY entry, each optional field's entry when it is non-empty, every
      author and every keyword, and the ER entry. */
  lemma EntriesOfRank(m: Meta, k: nat)
    requires k < 15
    ensures WithRank(Entries(m), k) == Section(m, k)
  {
    WithRankUpTo(m, 15, k);
  }

  /** The non-empty elements of `vs`, in order. */
  function NonEmpty(vs: seq<string>): (r: seq<string>)
    ensures |r| <= |vs|
    ensures forall i :: 0 <= i < |r| ==> r[i] != "" && r[i] in vs
  {
    if vs == [] then []
    else NonEmpty(vs[..|vs| - 1]) + (if vs[|vs| - 1] == "" then [] else [vs[|vs| - 1]])
  }

  /** One entry per non-empty value, in order, each escaped. */
  lemma {:induction false} RepeatedEntriesAreNonEmpty(tag: string, vs: seq<string>)
    ensures |RepeatedEntries(tag, vs)| == |NonEmpty(vs)|
    ensures forall i :: 0 <= i < |NonEmpty(vs)| ==>
      RepeatedEntries(tag, vs)[i] == Entry(tag, RisEscape(NonEmpty(vs)[i]))
    decreases |vs|
  {
    if vs != [] {
      RepeatedEntriesAreNonEmpty(tag, vs[..|vs| - 1]);
    }
  }

  /** The AU entries are the escaped non-empty authors, in input order. */
  lemma AuthorEntries(m: Meta)
    ensures WithRank(Entries(m), 7) == RepeatedEntries("AU", m.authors)
    ensures |WithRank(Entries(m), 7)| == |NonEmpty(m.authors)|
  {
    EntriesOfRank(m, 7);
    AuthorSection(m);
    RepeatedEntriesAreNonEmpty("AU", m.authors);
  }

  lemma AuthorSection(m: Meta)
    ensures Section(m, 7) == RepeatedEntries("AU", m.authors)
  {
    assert SectionTag(7) == "AU" && ListValue(m, 7) == m.authors;
  }

  /** The KW entries are the escaped non-empty keywords, in input order. */
  lemma KeywordEntries(m: Meta)
    ensures WithRank(Entries(m), 13) == RepeatedEntries("KW", m.keywords)
    ensures |WithRank(Entries(m), 13)| == |NonEmpty(m.keywords)|
  {
    EntriesOfRank(m, 13);
    KeywordSection(m);
    RepeatedEntriesAreNonEmpty("KW", m.keywords);
  }

  lemma KeywordSection(m: Meta)
    ensures Section(m, 13) == RepeatedEntries("KW", m.keywords)
  {
    assert SectionTag(13) == "KW" && ListValue(m, 13) == m.keywords;
  }

  /** The TI entry is present exactly when the title is non-empty, and holds the
      escaped title. */
  lemma TitleEntry(m: Meta)
    ensures WithRank(Entries(m), 1) == if m.title == "" then [] else [Entry("TI", RisEscape(m.title))]
  {
    EntriesOfRank(m, 1);
  }

  /** The DO entry carries the DOI as it is, when it is non-empty. */
  lemma DoiEntry(m: Meta)
    ensures WithRank(Entries(m), 10) == if m.doi == "" then [] else [Entry("DO", m.doi)]
  {
    EntriesOfRank(m, 10);
  }

  /** The PY entry carries the year as it is, when there is one. */
  lemma YearEntry(m: Meta)
    ensures WithRank(Entries(m), 4) == if m.year.None? || m.year.value == "" then [] else [Entry("PY", m.year.value)]
  {
    EntriesOfRank(m, 4);
  }

  /** A record whose only non-empty field is its title. */
  predicate OnlyTitle(m: Meta) {
    m.ty == "" && m.authors == [] && m.year == None && m.journal == "" && m.volume == ""
    && m.issue == "" && m.sp == "" && m.ep == "" && m.doi == "" && m.url == ""
    && m.publisher == "" && m.abstractText == "" && m.keywords == []
  }

  /** Such a record gives the TY entry with the GEN default, the escaped
      title when there is one, and the ER entry. */
  lemma OnlyTitleEntries(m: Meta)
    requires OnlyTitle(m)
    ensures Entries(m) == [Entry("TY", "GEN")] + EscapedField("TI", m.title) + [Entry("ER", "")]
  {
    EntriesInOrder(m);
    assert RepeatedEntries("AU", m.authors) == [];
    assert RepeatedEntries("KW", m.keywords) == [];
  }

  lemma TitleOnlyEntries(m: Meta)
    requires OnlyTitle(m) && m.title == "Test"
    ensures Entries(m) == [Entry("TY", "GEN"), Entry("TI", "Test"), Entry("ER", "")]
  {
    OnlyTitleEntries(m);
    TestEscape();
  }

  lemma TestEscape()
    ensures RisEscape("Test") == "Test"
  {
    assert IsStripped("Test");
    assert '\n' !in "Test";
    RisEscapeSpec("Test");
  }

  lemma TitleOnlyLines()
    ensures Line("TY", "GEN") == "TY  - GEN" && Line("TI", "Test") == "TI  - Test"
  {
    assert "TY" + "  - " + "GEN" == "TY  - GEN";
    assert "TI" + "  - " + "Test" == "TI  - Test";
  }

  /** A record holding only the title "Test" gives the TY line with the GEN
      default, the TI line and the ER line, and no line for an empty field. */
  lemma TitleOnlyExample(m: Meta)
    requires OnlyTitle(m) && m.title == "Test"
    ensures RisLines(m) == ["TY  - GEN", "TI  - Test", "ER  - "]
  {
    var es := [Entry("TY", "GEN"), Entry("TI", "Test"), Entry("ER", "")];
    TitleOnlyEntries(m);
    assert Render(es) == [Line("TY", "GEN"), Line("TI", "Test"), Line("ER", "")] by {
      assert es[..2][..1] == [es[0]];
      assert es[..2] == [es[0], es[1]];
    }
    TitleOnlyLines();
    EndLine();
  }

  // ---------------------------------------------------------------------------
  // Reading a block back

  /** A line read back as a tag and a value, when it has the "XX  - " shape. */
  function ParseLine(line: string): Option<Entry> {
    if |line| >= 6 && line[2..6] == "  - " then Some(Entry(line[..2], line[6..])) else None
  }

  /** All lines read back, or None when one of them is not a tagged line. */
  function ParseLines(lines: seq<string>): Option<seq<Entry>> {
    if lines == [] then Some([])
    else
      match (ParseLines(lines[..|lines| - 1]), ParseLine(lines[|lines| - 1]))
      case (Some(es), Some(e)) => Some(es + [e])
      case _ => None
  }

  lemma ParseLineRoundTrip(tag: string, value: string)
    requires |tag| == 2
    ensures ParseLine(Line(tag, value)) == Some(Entry(tag, value))
  {
    LineFields(tag, value);
  }

  lemma {:induction false} ParseRender(es: seq<Entry>)
    requires forall e :: e in es ==> |e.tag| == 2
    ensures ParseLines(Render(es)) == Some(es)
    decreases |es|
  {
    if es != [] {
      var es' := es[..|es| - 1];
      var e := es[|es| - 1];
      assert forall x :: x in es' ==> x in es;
      assert e in es;
      ParseRender(es');
      ParseLineRoundTrip(e.tag, e.value);
      assert es' + [e] == es;
      RenderSnoc(es', e);
      ParseLinesSnoc(Render(es'), Line(e.tag, e.value), es', e);
    }
  }

  lemma ParseLinesSnoc(lines: seq<string>, line: string, es: seq<Entry>, e: Entry)
    requires ParseLines(lines) == Some(es) && ParseLine(line) == Some(e)
    ensures ParseLines(lines + [line]) == Some(es + [e])
  {
    assert (lines + [line])[..|lines|] == lines;
  }

  /** Reading the lines of a block back gives its entries: every field the
      block holds can be recovered from the text. */
  lemma RisLinesRoundTrip(m: Meta)
    ensures ParseLines(RisLines(m)) == Some(Entries(m))
  {
    EntriesOrdered(m);
    forall e | e in Entries(m)
      ensures |e.tag| == 2
    {
      RankedTagLength(e.tag);
    }
    ParseRender(Entries(m));
  }

  /** A stripped value comes back with its line feeds turned into spaces, and
      unchanged when it has none. */
  lemma EscapedFieldRoundTrip(tag: string, v: string)
    requires IsStripped(v)
    ensures EscapedField(tag, v) == if v == "" then [] else [Entry(tag, ReplaceChar(v, '\n', ' '))]
    ensures '\n' !in v ==> EscapedField(tag, v) == if v == "" then [] else [Entry(tag, v)]
  {
    RisEscapeSpec(v);
  }

  /** Serialising a normalised record and reading the lines back recovers the
      title (line feeds aside) and the DOI as they are, each exactly when it is
      non-empty. */
  lemma NormalizedRoundTrip(m: Meta)
    requires IsNormalized(m)
    ensures ParseLines(RisLines(m)).Some?
    ensures WithRank(ParseLines(RisLines(m)).value, 1)
      == if m.title == "" then [] else [Entry("TI", ReplaceChar(m.title, '\n', ' '))]
    ensures WithRank(ParseLines(RisLines(m)).value, 10)
      == if m.doi == "" then [] else [Entry("DO", m.doi)]
  {
    RisLinesRoundTrip(m);
    TitleEntry(m);
    DoiEntry(m);
    EscapedFieldRoundTrip("TI", m.title);
  }

  // ---------------------------------------------------------------------------
  // The end-of-record line

  function Count<T(==)>(xs: seq<T>, x: T): nat {
    if xs == [] then 0 else Count(xs[..|xs| - 1], x) + (if xs[|xs| - 1] == x then 1 else 0)
  }

  lemma {:induction false} CountAppend<T>(a: seq<T>, b: seq<T>, x: T)
    ensures Count(a + b, x) == Count(a, x) + Count(b, x)
    decreases |b|
  {
    if b == [] {
      assert a + b == a;
    } else {
      assert (a + b)[..|a + b| - 1] == a + b[..|b| - 1];
      CountAppend(a, b[..|b| - 1], x);
    }
  }

  /** A line equals another line exactly when its tag and value do. */
  lemma {:induction false} CountRender(es: seq<Entry>, e: Entry)
    requires |e.tag| == 2 && forall x :: x in es ==> |x.tag| == 2
    ensures Count(Render(es), Line(e.tag, e.value)) == Count(es, e)
    decreases |es|
  {
    if es != [] {
      var es' := es[..|es| - 1];
      var x := es[|es| - 1];
      assert forall y :: y in es' ==> y in es;
      assert x in es;
      CountRender(es', e);
      assert Render(es)[..|es| - 1] == Render(es');
      ParseLineRoundTrip(e.tag, e.value);
      ParseLineRoundTrip(x.tag, x.value);
    }
  }

  /** Counting an entry of rank `k` only needs the entries of rank `k`. */
  lemma {:induction false} CountWithRank(es: seq<Entry>, e: Entry, k: nat)
    requires Rank(e.tag) == k
    ensures Count(es, e) == Count(WithRank(es, k), e)
    decreases |es|
  {
    if es != [] {
      var es' := es[..|es| - 1];
      var x := es[|es| - 1];
      CountWithRank(es', e, k);
      if Rank(x.tag) == k {
        CountAppend(WithRank(es', k), [x], e);
        assert Count([x], e) == if x == e then 1 else 0 by {
          assert [x][..0] == [];
        }
      } else {
        assert WithRank(es, k) == WithRank(es', k) + [];
        assert WithRank(es', k) + [] == WithRank(es', k);
      }
    }
  }

  lemma OneEndEntry(m: Meta)
    ensures Count(Entries(m), Entry("ER", "")) == 1
  {
    var er := Entry("ER", "");
    CountWithRank(Entries(m), er, 14);
    EntriesOfRank(m, 14);
    assert [er][..0] == [];
  }

  /** A block holds exactly one end-of-record line. */
  lemma OneEndOfRecord(m: Meta)
    ensures Count(RisLines(m), "ER  - ") == 1
  {
    EntriesOrdered(m);
    forall e | e in Entries(m)
      ensures |e.tag| == 2
    {
      RankedTagLength(e.tag);
    }
    EndLine();
    CountRender(Entries(m), Entry("ER", ""));
    OneEndEntry(m);
  }

  // ---------------------------------------------------------------------------
  // Line feeds

  /** The fields written without escaping hold no line feed. The escaped ones
      never do, whatever the record holds. */
  predicate LineSafe(m: Meta) {
    '\n' !in m.ty && (m.year.Some? ==> '\n' !in m.year.value)
    && '\n' !in m.volume && '\n' !in m.issue && '\n' !in m.sp && '\n' !in m.ep
    && '\n' !in m.doi && '\n' !in m.url
  }

  predicate SingleLine(e: Entry) {
    '\n' !in e.tag && '\n' !in e.value
  }

  lemma PlainSingleLine(tag: string, v: string)
    requires '\n' !in tag && '\n' !in v
    ensures forall e :: e in PlainField(tag, v) ==> SingleLine(e)
  {
  }

  lemma EscapedSingleLine(tag: string, v: string)
    requires '\n' !in tag
    ensures forall e :: e in EscapedField(tag, v) ==> SingleLine(e)
  {
    RisEscapeSpec(v);
  }

  lemma {:induction false} RepeatedSingleLine(tag: string, vs: seq<string>)
    requires '\n' !in tag
    ensures forall e :: e in RepeatedEntries(tag, vs) ==> SingleLine(e)
    decreases |vs|
  {
    if vs != [] {
      RepeatedSingleLine(tag, vs[..|vs| - 1]);
      EscapedSingleLine(tag, vs[|vs| - 1]);
    }
  }

  lemma SectionSingleLine(m: Meta, k: nat)
    requires k < 15 && LineSafe(m)
    ensures forall e :: e in Section(m, k) ==> SingleLine(e)
  {
    var tag := SectionTag(k);
    SectionTagRank(k);
    if k == 0 || k == 14 {
    } else if k == 7 || k == 13 {
      RepeatedSingleLine(tag, ListValue(m, k));
    } else if EscapedSection(k) {
      EscapedSingleLine(tag, FieldValue(m, k));
    } else {
      PlainSingleLine(tag, FieldValue(m, k));
    }
  }

  lemma {:induction false} EntriesUpToSingleLine(m: Meta, k: nat)
    requires k <= 15 && LineSafe(m)
    ensures forall e :: e in EntriesUpTo(m, k) ==> SingleLine(e)
  {
    if k > 0 {
      EntriesUpToSingleLine(m, k - 1);
      SectionSingleLine(m, k - 1);
    }
  }

  /** No line of a block holds a line feed when the unescaped fields hold none. */
  lemma RisLinesSingleLine(m: Meta)
    requires LineSafe(m)
    ensures forall i :: 0 <= i < |RisLines(m)| ==> '\n' !in RisLines(m)[i]
  {
    var es := Entries(m);
    EntriesUpToSingleLine(m, 15);
    forall i | 0 <= i < |es|
      ensures '\n' !in Render(es)[i]
    {
      assert es[i] in es;
      RenderAt(es, i);
    }
  }

  /** What the normaliser produces is line safe whenever the volume, issue,
      page, DOI and URL texts hold no line feed. */
  lemma NormalizedLineSafe(m: Meta)
    requires IsNormalized(m)
    requires '\n' !in m.volume && '\n' !in m.issue && '\n' !in m.sp && '\n' !in m.ep
    requires '\n' !in m.doi && '\n' !in m.url
    ensures LineSafe(m)
  {
  }

  // ---------------------------------------------------------------------------
  // meta_to_ris

  /** `"\n".join(to_ris_lines(m))`: one record's block. */
  function Block(m: Meta): string {
    Join("\n", RisLines(m))
  }

  function Blocks(ms: seq<Meta>): (bs: seq<string>)
    ensures |bs| == |ms|
  {
    if ms == [] then [] else Blocks(ms[..|ms| - 1]) + [Block(ms[|ms| - 1])]
  }

  /** `meta_to_ris`: the blocks joined by line feeds, with one more line feed
      after the last block; the empty list gives the empty document. */
  function RisDocument(ms: seq<Meta>): (doc: string)
    ensures doc == "" <==> ms == []
    ensures ms != [] ==> doc[|doc| - 1] == '\n'
  {
    Join("\n", Blocks(ms)) + (if ms == [] then "" else "\n")
  }

  /** The list loop of `meta_to_ris` in `app_streamlit.py`. */
  method MetaToRis(ms: seq<Meta>) returns (doc: string)
    ensures doc == RisDocument(ms)
  {
    var blocks: seq<string> := [];
    var i := 0;
    while i < |ms|
      invariant 0 <= i <= |ms|
      invariant blocks == Blocks(ms[..i])
    {
      var lines := ToRisLines(ms[i]);
      blocks := blocks + [Join("\n", lines)];
      assert ms[..i + 1][..i] == ms[..i];
      i := i + 1;
    }
    assert ms[..i] == ms;
    doc := Join("\n", blocks) + (if |blocks| > 0 then "\n" else "");
  }

  /** The lines of all blocks, in order. */
  function AllLines(ms: seq<Meta>): seq<string> {
    if ms == [] then [] else AllLines(ms[..|ms| - 1]) + RisLines(ms[|ms| - 1])
  }

  lemma {:induction false} JoinBlocks(ms: seq<Meta>)
    requires ms != []
    ensures |AllLines(ms)| >= 2
    ensures Join("\n", Blocks(ms)) == Join("\n", AllLines(ms))
    decreases |ms|
  {
    var ms', m := ms[..|ms| - 1], ms[|ms| - 1];
    RisLinesFraming(m);
    if ms' == [] {
      assert Blocks(ms) == [Block(m)];
      assert AllLines(ms) == RisLines(m);
    } else {
      JoinBlocks(ms');
      JoinAppend("\n", Blocks(ms'), [Block(m)]);
      JoinAppend("\n", AllLines(ms'), RisLines(m));
    }
  }

  /** The document is every line of every block, each followed by a line feed. */
  lemma RisDocumentIsLines(ms: seq<Meta>)
    ensures RisDocument(ms) == Join("\n", AllLines(ms) + [""])
  {
    if ms == [] {
      assert AllLines(ms) + [""] == [""];
    } else {
      JoinBlocks(ms);
      JoinAppend("\n", AllLines(ms), [""]);
      assert Join("\n", AllLines(ms)) + "\n" + "" == Join("\n", AllLines(ms)) + "\n";
    }
  }

  lemma {:induction false} AllLinesSingleLine(ms: seq<Meta>)
    requires forall i :: 0 <= i < |ms| ==> LineSafe(ms[i])
    ensures forall k :: 0 <= k < |AllLines(ms)| ==> '\n' !in AllLines(ms)[k]
    decreases |ms|
  {
    if ms != [] {
      var ms', m := ms[..|ms| - 1], ms[|ms| - 1];
      AllLinesSingleLine(ms');
      RisLinesSingleLine(m);
    }
  }

  lemma DocumentLinesSingleLine(ms: seq<Meta>)
    requires forall i :: 0 <= i < |ms| ==> LineSafe(ms[i])
    ensures forall k :: 0 <= k < |AllLines(ms) + [""]| ==> '\n' !in (AllLines(ms) + [""])[k]
  {
    var xs := AllLines(ms) + [""];
    AllLinesSingleLine(ms);
    forall k | 0 <= k < |xs|
      ensures '\n' !in xs[k]
    {
      if k < |AllLines(ms)| {
        assert xs[k] == AllLines(ms)[k];
      }
    }
  }

  /** Splitting the document at its line feeds gives every line of every block
      and then the empty text after the last line feed. */
  lemma RisDocumentSplit(ms: seq<Meta>)
    requires forall i :: 0 <= i < |ms| ==> LineSafe(ms[i])
    ensures SplitOn('\n', RisDocument(ms)) == AllLines(ms) + [""]
  {
    var xs := AllLines(ms) + [""];
    DocumentLinesSingleLine(ms);
    SplitJoin('\n', xs);
    RisDocumentIsLines(ms);
  }

  lemma {:induction false} AllLinesEndOfRecord(ms: seq<Meta>)
    ensures Count(AllLines(ms), "ER  - ") == |ms|
    decreases |ms|
  {
    if ms != [] {
      var ms', m := ms[..|ms| - 1], ms[|ms| - 1];
      AllLinesEndOfRecord(ms');
      CountAppend(AllLines(ms'), RisLines(m), "ER  - ");
      OneEndOfRecord(m);
    }
  }

  /** The document has one end-of-record line per record. */
  lemma RisDocumentRecords(ms: seq<Meta>)
    requires forall i :: 0 <= i < |ms| ==> LineSafe(ms[i])
    ensures Count(SplitOn('\n', RisDocument(ms)), "ER  - ") == |ms|
  {
    RisDocumentSplit(ms);
    AllLinesEndOfRecord(ms);
    CountAppend(AllLines(ms), [""], "ER  - ");
    assert [""][..0] == [];
  }
}
