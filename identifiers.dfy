/** Finding identifiers in free text: the DOI pattern `DOI_REGEX`, the title guess
    for PDF text, and the `<title>` element of an HTML page. */
module Identifiers {
  import opened Wrappers
  import opened Text
  import opened Seqs

  // ---------------------------------------------------------------------------
  // DOI_REGEX = (10\.\d{4,9}/[-._;()/:A-Z0-9]+) with re.I, searched leftmost-first

  /** The character class `[-._;()/:A-Z0-9]` under `re.I`, on ASCII. */
  predicate IsDoiChar(c: char) {
    IsDigitChar(c) || 'a' <= c <= 'z' || 'A' <= c <= 'Z'
    || c == '-' || c == '.' || c == '_' || c == ';' || c == '(' || c == ')' || c == '/' || c == ':'
  }

  /** Length of the run of digits starting at `i`. */
  function DigitRun(s: string, i: nat): (n: nat)
    requires i <= |s|
    ensures i + n <= |s|
    ensures forall k :: i <= k < i + n ==> IsDigitChar(s[k])
    ensures i + n == |s| || !IsDigitChar(s[i + n])
    decreases |s| - i
  {
    if i < |s| && IsDigitChar(s[i]) then 1 + DigitRun(s, i + 1) else 0
  }

  /** Length of the run of DOI characters starting at `i`. */
  function DoiCharRun(s: string, i: nat): (n: nat)
    requires i <= |s|
    ensures i + n <= |s|
    ensures forall k :: i <= k < i + n ==> IsDoiChar(s[k])
    ensures i + n == |s| || !IsDoiChar(s[i + n])
    decreases |s| - i
  {
    if i < |s| && IsDoiChar(s[i]) then 1 + DoiCharRun(s, i + 1) else 0
  }

  /** `m` reads as `10.`, then `n` digits with 4 <= n <= 9, then `/`, then at
      least one DOI character. */
  ghost predicate DoiSplit(m: string, n: nat) {
    4 <= n <= 9 && 4 + n < |m| && m[..3] == "10."
    && (forall k :: 3 <= k < 3 + n ==> IsDigitChar(m[k]))
    && m[3 + n] == '/'
    && (forall k :: 4 + n <= k < |m| ==> IsDoiChar(m[k]))
  }

  /** `m` is in the language of the pattern. */
  ghost predicate IsDoi(m: string) {
    exists n :: DoiSplit(m, n)
  }

  /** `m` is what the pattern matches when the match starts at offset `i` of `s`:
      it occurs there, it is in the language, and the greedy final run stops only
      at the end of `s` or at a character outside the class. */
  ghost predicate MatchesAt(s: string, i: nat, m: string) {
    i + |m| <= |s| && s[i..i + |m|] == m && IsDoi(m)
    && (i + |m| == |s| || !IsDoiChar(s[i + |m|]))
  }

  /** Where a match starting at `i` ends, if the pattern matches there. */
  function MatchEnd(s: string, i: nat): (e: Option<nat>)
    requires i <= |s|
    ensures e.Some? ==> i < e.value <= |s|
  {
    if i + 3 <= |s| && s[i..i + 3] == "10." then
      var n := DigitRun(s, i + 3);
      var slash := i + 3 + n;
      if 4 <= n <= 9 && slash < |s| && s[slash] == '/' then
        var t := DoiCharRun(s, slash + 1);
        if t >= 1 then Some(slash + 1 + t) else None
      else None
    else None
  }

  lemma MatchEndSound(s: string, i: nat)
    requires i <= |s| && MatchEnd(s, i).Some?
    ensures MatchesAt(s, i, s[i..MatchEnd(s, i).value])
  {
    var e := MatchEnd(s, i).value;
    var m := s[i..e];
    var n := DigitRun(s, i + 3);
    assert m[..3] == s[i..i + 3];
    assert DoiSplit(m, n);
  }

  /** A run of `n` characters of a class, followed by the end or by a character
      outside it, is the whole run. */
  lemma DigitRunExact(s: string, i: nat, n: nat)
    requires i + n <= |s|
    requires forall k :: i <= k < i + n ==> IsDigitChar(s[k])
    requires i + n == |s| || !IsDigitChar(s[i + n])
    ensures DigitRun(s, i) == n
    decreases n
  {
    if n > 0 {
      DigitRunExact(s, i + 1, n - 1);
    }
  }

  lemma DoiCharRunExact(s: string, i: nat, n: nat)
    requires i + n <= |s|
    requires forall k :: i <= k < i + n ==> IsDoiChar(s[k])
    requires i + n == |s| || !IsDoiChar(s[i + n])
    ensures DoiCharRun(s, i) == n
    decreases n
  {
    if n > 0 {
      DoiCharRunExact(s, i + 1, n - 1);
    }
  }

  lemma MatchEndComplete(s: string, i: nat, m: string)
    requires i <= |s| && MatchesAt(s, i, m)
    ensures MatchEnd(s, i) == Some(i + |m|)
  {
    var n :| DoiSplit(m, n);
    assert s[i..i + 3] == m[..3];
    forall k | i + 3 <= k < i + 3 + n
      ensures IsDigitChar(s[k])
    {
      assert s[k] == m[k - i];
    }
    assert s[i + 3 + n] == m[3 + n];
    DigitRunExact(s, i + 3, n);
    forall k | i + 4 + n <= k < i + |m|
      ensures IsDoiChar(s[k])
    {
      assert s[k] == m[k - i];
    }
    DoiCharRunExact(s, i + 4 + n, |m| - 4 - n);
  }

  function SearchFrom(s: string, i: nat): Option<string>
    requires i <= |s|
    decreases |s| - i
  {
    if i == |s| then None
    else
      match MatchEnd(s, i)
      case Some(e) => Some(s[i..e])
      case None => SearchFrom(s, i + 1)
  }

  /** `m` is the match at offset `j`, and the pattern matches nowhere in `[i, j)`. */
  ghost predicate IsLeftmostFrom(s: string, i: nat, j: nat, m: string) {
    i <= j < |s| && MatchesAt(s, j, m)
    && forall j', m' :: i <= j' < j ==> !MatchesAt(s, j', m')
  }

  lemma {:induction false} SearchFromSpec(s: string, i: nat)
    requires i <= |s|
    ensures SearchFrom(s, i).None? <==> forall j, m :: i <= j < |s| ==> !MatchesAt(s, j, m)
    ensures SearchFrom(s, i).Some? ==> exists j :: IsLeftmostFrom(s, i, j, SearchFrom(s, i).value)
    decreases |s| - i
  {
    if i < |s| {
      match MatchEnd(s, i)
      case Some(e) =>
        MatchEndSound(s, i);
        assert IsLeftmostFrom(s, i, i, s[i..e]);
      case None =>
        forall m | MatchesAt(s, i, m)
          ensures false
        {
          MatchEndComplete(s, i, m);
        }
        SearchFromSpec(s, i + 1);
        if SearchFrom(s, i + 1).Some? {
          var j :| IsLeftmostFrom(s, i + 1, j, SearchFrom(s, i + 1).value);
          assert IsLeftmostFrom(s, i, j, SearchFrom(s, i).value);
        }
    }
  }

  /** `find_doi_in_text`: the leftmost match of the DOI pattern, if there is one. */
  function FindDoi(text: string): Option<string> {
    SearchFrom(text, 0)
  }

  /** FindDoi finds nothing exactly when the pattern matches nowhere; otherwise it
      returns the match at the leftmost offset where the pattern matches: a
      substring of the text, in the DOI language, and not extendable. */
  lemma FindDoiSpec(text: string)
    ensures FindDoi(text).None? <==> forall j, m :: 0 <= j < |text| ==> !MatchesAt(text, j, m)
    ensures FindDoi(text).Some? ==> exists j :: IsLeftmostFrom(text, 0, j, FindDoi(text).value)
  {
    SearchFromSpec(text, 0);
  }

  // ---------------------------------------------------------------------------
  // guess_title_from_pdf_text

  /** The line starts, case-insensitively, with `arxiv:`, `doi:`, `issn:` or `copyright`. */
  predicate HasBannedPrefix(line: string) {
    StartsWithCi(line, "arxiv:") || StartsWithCi(line, "doi:") || StartsWithCi(line, "issn:") || StartsWithCi(line, "copyright")
  }

  /** A stripped line that may serve as a title: at least four whitespace-separated
      tokens (WordCountIsLenWords ties WordCount to `len(line.split())`), no banned
      prefix, and between 10 and 200 characters. */
  predicate IsTitleLine(line: string) {
    WordCount(line) >= 4 && !HasBannedPrefix(line) && 10 <= |line| <= 200
  }

  predicate IsTitleCandidate(line: string) {
    IsTitleLine(Strip(line))
  }

  /** The stripped line at index `k` is the first one that qualifies. */
  ghost predicate IsFirstTitleAt(lines: seq<string>, k: int) {
    0 <= k < |lines| && IsTitleLine(Strip(lines[k]))
    && forall j :: 0 <= j < k ==> !IsTitleLine(Strip(lines[j]))
  }

  /** The first line that, once stripped, may serve as a title: nothing exactly
      when no line qualifies, and otherwise the first qualifying line, stripped. */
  function FirstTitleLine(lines: seq<string>): (r: Option<string>)
    ensures r.None? <==> forall k :: 0 <= k < |lines| ==> !IsTitleLine(Strip(lines[k]))
    ensures r.Some? ==> exists k :: IsFirstTitleAt(lines, k) && r.value == Strip(lines[k])
  {
    var k := FirstIndexWhere(lines, IsTitleCandidate);
    if k < |lines| then
      assert IsFirstTitleAt(lines, k);
      Some(Strip(lines[k]))
    else None
  }

  /** `guess_title_from_pdf_text` as a specification. */
  function GuessTitle(text: string): Option<string> {
    FirstTitleLine(SplitLines(text))
  }

  lemma NoCandidateYet(lines: seq<string>, i: nat)
    requires i < |lines| && !IsTitleCandidate(lines[i])
    requires forall j :: 0 <= j < i ==> !IsTitleCandidate(lines[j])
    ensures forall j :: 0 <= j < i + 1 ==> !IsTitleCandidate(lines[j])
  {
  }

  /** `guess_title_from_pdf_text`: scans the lines in order and returns the first
      stripped line that qualifies. */
  method GuessTitleFromText(text: string) returns (r: Option<string>)
    ensures r == GuessTitle(text)
  {
    var lines := SplitLines(text);
    var i := 0;
    while i < |lines|
      invariant 0 <= i <= |lines|
      invariant forall j :: 0 <= j < i ==> !IsTitleCandidate(lines[j])
    {
      var line := Strip(lines[i]);
      assert IsTitleCandidate(lines[i]) == IsTitleLine(line);
      if WordCount(line) >= 4 && !HasBannedPrefix(line) {
        if 10 <= |line| <= 200 {
          FirstIndexWhereAt(lines, IsTitleCandidate, i);
          return Some(line);
        }
      }
      NoCandidateYet(lines, i);
      i := i + 1;
    }
    FirstIndexWhereAt(lines, IsTitleCandidate, i);
    return None;
  }

  // ---------------------------------------------------------------------------
  // re.search(r"<title[^>]*>(.*?)</title>", page, flags=re.I|re.S), then
  // re.sub(r"\s+", " ", group).strip()

  /** `s` holds the lower-case text `p` at offset `i`, ignoring ASCII case. */
  predicate HasAtCi(s: string, i: nat, p: string) {
    i + |p| <= |s| && StartsWithCi(s[i..], p)
  }

  /** The first offset at or after `i` where `s` holds `c`. */
  function IndexFrom(s: string, i: nat, c: char): (r: Option<nat>)
    requires i <= |s|
    ensures r.Some? ==> i <= r.value < |s| && s[r.value] == c && forall k :: i <= k < r.value ==> s[k] != c
    ensures r.None? ==> forall k :: i <= k < |s| ==> s[k] != c
    decreases |s| - i
  {
    if i == |s| then None else if s[i] == c then Some(i) else IndexFrom(s, i + 1, c)
  }

  /** The first offset at or after `i` where `s` holds `</title>` in any case. */
  function CloseTagFrom(s: string, i: nat): (r: Option<nat>)
    requires i <= |s|
    ensures r.Some? ==> i <= r.value && HasAtCi(s, r.value, "</title>")
                        && forall k :: i <= k < r.value ==> !HasAtCi(s, k, "</title>")
    ensures r.None? ==> forall k :: i <= k <= |s| ==> !HasAtCi(s, k, "</title>")
    decreases |s| - i
  {
    if i == |s| then None
    else if HasAtCi(s, i, "</title>") then Some(i)
    else CloseTagFrom(s, i + 1)
  }

  /** The match of the title pattern at offset `i` has its group `g` at offset
      `j + 1`: `[^>]*` runs from the end of `<title` to the first `>` (at `j`),
      and the lazy `(.*?)` stops at the first `</title>` after it. */
  ghost predicate TitleBodyAt(s: string, i: nat, j: nat, g: string) {
    i + 6 <= j && j + 1 + |g| <= |s| && s[j] == '>'
    && (forall k :: i + 6 <= k < j ==> s[k] != '>')
    && s[j + 1..j + 1 + |g|] == g
    && HasAtCi(s, j + 1 + |g|, "</title>")
    && (forall k :: j + 1 <= k < j + 1 + |g| ==> !HasAtCi(s, k, "</title>"))
  }

  /** The group of the title pattern when the match starts at offset `i`. */
  function TitleGroupAt(s: string, i: nat): (r: Option<string>)
    requires i <= |s|
    ensures r.Some? ==> HasAtCi(s, i, "<title") && exists j :: TitleBodyAt(s, i, j, r.value)
  {
    if !HasAtCi(s, i, "<title") then None
    else
      match IndexFrom(s, i + 6, '>')
      case None => None
      case Some(j) =>
        match CloseTagFrom(s, j + 1)
        case None => None
        case Some(c) =>
          assert TitleBodyAt(s, i, j, s[j + 1..c]);
          Some(s[j + 1..c])
  }

  /** The match, once an opening `<title` stands at `i`, is the unique one. */
  lemma TitleGroupAtComplete(s: string, i: nat, j: nat, g: string)
    requires i <= |s| && HasAtCi(s, i, "<title") && TitleBodyAt(s, i, j, g)
    ensures TitleGroupAt(s, i) == Some(g)
  {
    var c := j + 1 + |g|;
    assert IndexFrom(s, i + 6, '>') == Some(j);
    assert CloseTagFrom(s, j + 1) == Some(c);
  }

  /** The leftmost match of the title pattern at or after offset `i`. */
  function TitleSearch(s: string, i: nat): (r: Option<string>)
    requires i <= |s|
    ensures r.Some? ==> exists k :: i <= k <= |s| && TitleGroupAt(s, k) == r
    decreases |s| - i
  {
    var here := TitleGroupAt(s, i);
    if here.Some? || i == |s| then here else TitleSearch(s, i + 1)
  }

  /** The match at `k` is the first one at or after `i`. */
  ghost predicate IsFirstTitleMatch(s: string, i: nat, k: int, g: string) {
    i <= k <= |s| && TitleGroupAt(s, k) == Some(g)
    && forall k' :: i <= k' < k ==> TitleGroupAt(s, k').None?
  }

  /** TitleSearch finds nothing exactly when no offset starts a match, and
      otherwise the group of the leftmost match. */
  lemma {:induction false} TitleSearchSpec(s: string, i: nat)
    requires i <= |s|
    ensures TitleSearch(s, i).None? <==> forall k :: i <= k <= |s| ==> TitleGroupAt(s, k).None?
    ensures TitleSearch(s, i).Some? ==> exists k :: IsFirstTitleMatch(s, i, k, TitleSearch(s, i).value)
    decreases |s| - i
  {
    var here := TitleGroupAt(s, i);
    if here.Some? {
      assert IsFirstTitleMatch(s, i, i, here.value);
    } else if i < |s| {
      TitleSearchSpec(s, i + 1);
      if TitleSearch(s, i).Some? {
        var k :| IsFirstTitleMatch(s, i + 1, k, TitleSearch(s, i).value);
        assert IsFirstTitleMatch(s, i, k, TitleSearch(s, i).value);
      }
    }
  }

  /** The page title the URL strategy searches the registry for: the words of the
      first `<title>` element, separated by single spaces, or "" if there is none. */
  function HtmlTitle(page: string): (r: string)
    ensures TitleSearch(page, 0).None? ==> r == ""
    ensures TitleSearch(page, 0).Some? ==> r == Join(" ", Words(TitleSearch(page, 0).value))
    ensures IsStripped(r)
  {
    match TitleSearch(page, 0)
    case None => ""
    case Some(g) =>
      SquashIsJoinedWords(g);
      Strip(Collapse(g))
  }
}
