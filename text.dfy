/** ASCII models of the Python string operations the pipeline relies on:
    `isspace`, `strip`, `lower`, `startswith`, `split`, `splitlines`, `join`,
    `re.sub(r"\s+", " ", ...)` and `str(int)`. */
module Text {
  import opened Wrappers

  /** `str.isspace()` on ASCII: tab, line feed, vertical tab, form feed, carriage
      return, the separators 0x1C-0x1F and space. */
  predicate IsSpace(c: char) {
    '\t' <= c <= '\r' || '\U{1C}' <= c <= ' '
  }

  /** No leading and no trailing whitespace. */
  predicate IsStripped(s: string) {
    s == [] || (!IsSpace(s[0]) && !IsSpace(s[|s| - 1]))
  }

  /** `r` sits at offset `i` of `s` and everything around it is whitespace. */
  predicate IsCoreAt(s: string, r: string, i: nat) {
    i + |r| <= |s| && s[i..i + |r|] == r
    && (forall k :: 0 <= k < i ==> IsSpace(s[k]))
    && (forall k :: i + |r| <= k < |s| ==> IsSpace(s[k]))
  }

  function TrimLeft(s: string): (r: string)
    ensures |r| <= |s| && r == s[|s| - |r|..]
    ensures forall i :: 0 <= i < |s| - |r| ==> IsSpace(s[i])
    ensures r == [] || !IsSpace(r[0])
  {
    if s != [] && IsSpace(s[0]) then TrimLeft(s[1..]) else s
  }

  function TrimRight(s: string): (r: string)
    ensures |r| <= |s| && r == s[..|r|]
    ensures forall i :: |r| <= i < |s| ==> IsSpace(s[i])
    ensures r == [] || !IsSpace(r[|r| - 1])
  {
    if s != [] && IsSpace(s[|s| - 1]) then TrimRight(s[..|s| - 1]) else s
  }

  /** `str.strip()`: the part of `s` left once the surrounding whitespace is dropped. */
  function Strip(s: string): (r: string)
    ensures IsStripped(r)
    ensures IsStripped(s) ==> r == s
  {
    TrimRight(TrimLeft(s))
  }

  /** What Strip keeps is a piece of `s` with only whitespace around it. */
  lemma StripIsCore(s: string)
    ensures exists i :: IsCoreAt(s, Strip(s), i)
  {
    var l := TrimLeft(s);
    assert Strip(s) == TrimRight(l);
    assert IsCoreAt(s, TrimRight(l), |s| - |l|);
  }

  /** A character that `s` does not hold is not in what Strip keeps of `s`. */
  lemma StripKeepsAbsence(s: string, c: char)
    requires c !in s
    ensures c !in Strip(s)
  {
    StripIsCore(s);
    var i: nat :| IsCoreAt(s, Strip(s), i);
    assert Strip(s) == s[i..i + |Strip(s)|];
  }

  /** Two stripped pieces around a middle are stripped when each end is a
      non-blank piece or a non-blank end of the middle. */
  lemma StrippedAround(a: string, m: string, b: string)
    requires IsStripped(a) && IsStripped(b)
    requires a != [] || (m != [] && !IsSpace(m[0]))
    requires b != [] || (m != [] && !IsSpace(m[|m| - 1]))
    ensures IsStripped(a + m + b)
  {
    var s := a + m + b;
    assert s[0] == if a == [] then m[0] else a[0];
    assert s[|s| - 1] == if b == [] then m[|m| - 1] else b[|b| - 1];
  }

  function LowerChar(c: char): char {
    if 'A' <= c <= 'Z' then (c as int + 32) as char else c
  }

  /** `str.lower()` on ASCII letters. */
  function Lower(s: string): (r: string)
    ensures |r| == |s|
  {
    seq(|s|, i requires 0 <= i < |s| => LowerChar(s[i]))
  }

  /** `s` begins with the lower-case text `p` once its ASCII letters are lowered. */
  predicate StartsWithCi(s: string, p: string) {
    p == [] || (s != [] && LowerChar(s[0]) == p[0] && StartsWithCi(s[1..], p[1..]))
  }

  /** StartsWithCi is `s.lower().startswith(p)`. */
  lemma {:induction false} StartsWithCiIsLowerPrefix(s: string, p: string)
    ensures StartsWithCi(s, p) <==> StartsWith(Lower(s), p)
  {
    if p != [] && s != [] {
      StartsWithCiIsLowerPrefix(s[1..], p[1..]);
      assert Lower(s)[1..] == Lower(s[1..]);
    }
  }

  predicate StartsWith(s: string, prefix: string) {
    |prefix| <= |s| && s[..|prefix|] == prefix
  }

  /** The first position of `c` in `s`, if any (`str.find`). */
  function IndexOf(s: string, c: char): (r: Option<nat>)
    ensures r.None? <==> c !in s
    ensures r.Some? ==> r.value < |s| && s[r.value] == c && c !in s[..r.value]
  {
    if s == [] then None
    else if s[0] == c then Some(0)
    else
      match IndexOf(s[1..], c)
      case None => None
      case Some(k) =>
        assert s[..k + 1] == [s[0]] + s[1..][..k];
        Some(k + 1)
  }

  /** `sep.join(xs)`. */
  function Join(sep: string, xs: seq<string>): string {
    if |xs| == 0 then ""
    else if |xs| == 1 then xs[0]
    else xs[0] + sep + Join(sep, xs[1..])
  }

  /** Joining two non-empty lists is joining each and putting `sep` between. */
  lemma {:induction false} JoinAppend(sep: string, a: seq<string>, b: seq<string>)
    requires |a| >= 1 && |b| >= 1
    ensures Join(sep, a + b) == Join(sep, a) + sep + Join(sep, b)
    decreases |a|
  {
    if |a| == 1 {
      assert (a + b)[0] == a[0] && (a + b)[1..] == b;
    } else {
      assert (a + b)[0] == a[0] && (a + b)[1..] == a[1..] + b;
      JoinAppend(sep, a[1..], b);
    }
  }

  /** `s.replace(a, b)` for single characters. */
  function ReplaceChar(s: string, a: char, b: char): (r: string)
    ensures |r| == |s|
  {
    seq(|s|, i requires 0 <= i < |s| => if s[i] == a then b else s[i])
  }

  /** `s.split(c)`: the pieces between the occurrences of `c`; never empty. */
  function SplitOn(c: char, s: string): (r: seq<string>)
    ensures |r| >= 1
    ensures forall k :: 0 <= k < |r| ==> c !in r[k]
    decreases |s|
  {
    match IndexOf(s, c)
    case None => [s]
    case Some(k) => [s[..k]] + SplitOn(c, s[k + 1..])
  }

  lemma IndexOfAfter(a: string, c: char, b: string)
    requires c !in a
    ensures IndexOf(a + [c] + b, c) == Some(|a|)
  {
    var s := a + [c] + b;
    assert s[|a|] == c;
    assert s[..|a|] == a;
  }

  lemma IndexOfAt(s: string, c: char, k: nat)
    requires k < |s| && s[k] == c && c !in s[..k]
    ensures IndexOf(s, c) == Some(k)
  {
    assert s == s[..k] + [c] + s[k + 1..];
    IndexOfAfter(s[..k], c, s[k + 1..]);
  }

  /** Splitting a join undoes it when no piece holds the separator. */
  lemma {:induction false} SplitJoin(c: char, xs: seq<string>)
    requires |xs| >= 1
    requires forall k :: 0 <= k < |xs| ==> c !in xs[k]
    ensures SplitOn(c, Join([c], xs)) == xs
  {
    if |xs| > 1 {
      var rest := Join([c], xs[1..]);
      var s := xs[0] + [c] + rest;
      assert Join([c], xs) == s;
      IndexOfAfter(xs[0], c, rest);
      var k := |xs[0]|;
      assert s[..k] == xs[0];
      assert s[k + 1..] == rest;
      assert SplitOn(c, s) == [xs[0]] + SplitOn(c, rest);
      SplitJoin(c, xs[1..]);
      assert xs == [xs[0]] + xs[1..];
    }
  }

  /** Joining the pieces of a split gives the string back. */
  lemma {:induction false} JoinSplit(c: char, s: string)
    ensures Join([c], SplitOn(c, s)) == s
    decreases |s|
  {
    match IndexOf(s, c)
    case None =>
      assert SplitOn(c, s) == [s];
    case Some(k) =>
      var tail := SplitOn(c, s[k + 1..]);
      var xs := [s[..k]] + tail;
      assert SplitOn(c, s) == xs;
      assert |xs| >= 2 && xs[0] == s[..k] && xs[1..] == tail;
      assert Join([c], xs) == s[..k] + [c] + Join([c], tail);
      JoinSplit(c, s[k + 1..]);
      assert s == s[..k] + [c] + s[k + 1..];
  }

  /** A line boundary of `str.splitlines()` on ASCII. */
  predicate IsLineBreak(c: char) {
    '\n' <= c <= '\r' || '\U{1C}' <= c <= '\U{1E}'
  }

  function FirstBreak(s: string): (k: nat)
    ensures k <= |s|
    ensures forall i :: 0 <= i < k ==> !IsLineBreak(s[i])
    ensures k < |s| ==> IsLineBreak(s[k])
  {
    if s == [] || IsLineBreak(s[0]) then 0 else 1 + FirstBreak(s[1..])
  }

  /** `str.splitlines()`: the lines of `s` without their terminators; "\r\n"
      ends one line, and a final terminator does not start an empty line. */
  function SplitLines(s: string): (r: seq<string>)
    ensures forall k :: 0 <= k < |r| ==> forall i :: 0 <= i < |r[k]| ==> !IsLineBreak(r[k][i])
    ensures s != [] ==> r != []
    decreases |s|
  {
    if s == [] then []
    else
      var k := FirstBreak(s);
      if k == |s| then [s]
      else
        var w := if s[k] == '\r' && k + 1 < |s| && s[k + 1] == '\n' then 2 else 1;
        [s[..k]] + SplitLines(s[k + w..])
  }

  /** '\n' is the only line break in `s`. */
  predicate FeedsOnly(s: string) {
    forall i :: 0 <= i < |s| ==> (IsLineBreak(s[i]) ==> s[i] == '\n')
  }

  /** On text whose only line break is '\n', the lines are the pieces of
      `split("\n")`, less the empty piece that a final '\n' leaves behind. */
  lemma {:induction false} SplitLinesOnFeeds(s: string)
    requires FeedsOnly(s)
    ensures s == [] ==> SplitLines(s) == []
    ensures s != [] && s[|s| - 1] == '\n' ==> SplitLines(s) + [""] == SplitOn('\n', s)
    ensures s != [] && s[|s| - 1] != '\n' ==> SplitLines(s) == SplitOn('\n', s)
    decreases |s|
  {
    if s != [] {
      var k := FirstBreak(s);
      if k == |s| {
        NoFeed(s);
      } else {
        var rest := s[k + 1..];
        FeedStep(s, k);
        FeedsOnlySuffix(s, k + 1);
        SplitLinesOnFeeds(rest);
        if rest == [] {
          assert k == |s| - 1;
          assert SplitOn('\n', rest) == [""];
          assert SplitLines(s) == [s[..k]];
        } else {
          assert rest[|rest| - 1] == s[|s| - 1];
          assert SplitLines(s) + [""] == [s[..k]] + (SplitLines(rest) + [""]);
        }
      }
    }
  }

  lemma FeedsOnlySuffix(s: string, j: nat)
    requires FeedsOnly(s) && j <= |s|
    ensures FeedsOnly(s[j..])
  {
    forall i | 0 <= i < |s[j..]| ensures IsLineBreak(s[j..][i]) ==> s[j..][i] == '\n' {
      assert s[j..][i] == s[j + i];
    }
  }

  /** Text without a line break is one line and one piece. */
  lemma NoFeed(s: string)
    requires s != [] && FirstBreak(s) == |s|
    ensures SplitLines(s) == [s] && SplitOn('\n', s) == [s] && s[|s| - 1] != '\n'
  {
    assert '\n' !in s by {
      forall i | 0 <= i < |s| ensures s[i] != '\n' {
        assert !IsLineBreak(s[i]);
      }
    }
  }

  /** At the first '\n' of feed-only text, both splits cut the same line off. */
  lemma FeedStep(s: string, k: nat)
    requires FeedsOnly(s)
    requires k == FirstBreak(s) < |s|
    ensures SplitLines(s) == [s[..k]] + SplitLines(s[k + 1..])
    ensures SplitOn('\n', s) == [s[..k]] + SplitOn('\n', s[k + 1..])
  {
    var rest := s[k + 1..];
    assert '\n' !in s[..k] by {
      forall i | 0 <= i < k ensures s[..k][i] != '\n' {
        assert !IsLineBreak(s[i]);
      }
    }
    assert s[k] == '\n';
    IndexOfAt(s, '\n', k);
  }

  function WordLength(s: string): (n: nat)
    ensures n <= |s|
    ensures forall i :: 0 <= i < n ==> !IsSpace(s[i])
    ensures n == |s| || IsSpace(s[n])
  {
    if s != [] && !IsSpace(s[0]) then 1 + WordLength(s[1..]) else 0
  }

  /** A non-empty run of non-whitespace. */
  predicate IsWord(w: string) {
    w != [] && forall i :: 0 <= i < |w| ==> !IsSpace(w[i])
  }

  /** `str.split()` with no separator: the maximal runs of non-whitespace, in order. */
  function Words(s: string): seq<string>
    decreases |s|
  {
    var t := TrimLeft(s);
    if t == [] then []
    else
      var n := WordLength(t);
      [t[..n]] + Words(t[n..])
  }

  /** Every token is a non-empty run of non-whitespace. */
  lemma {:induction false} WordsAreWords(s: string)
    ensures forall k :: 0 <= k < |Words(s)| ==> IsWord(Words(s)[k])
    decreases |s|
  {
    var t := TrimLeft(s);
    if t != [] {
      var n := WordLength(t);
      WordsAreWords(t[n..]);
      FirstWord(t);
      AllWordsCons(t[..n], Words(t[n..]));
    }
  }

  lemma FirstWord(t: string)
    requires t != [] && !IsSpace(t[0])
    ensures IsWord(t[..WordLength(t)])
  {
  }

  lemma AllWordsCons(w: string, rest: seq<string>)
    requires IsWord(w) && forall k :: 0 <= k < |rest| ==> IsWord(rest[k])
    ensures forall k :: 0 <= k < |[w] + rest| ==> IsWord(([w] + rest)[k])
  {
  }

  /** The number of whitespace-separated tokens, counted in one pass; `inWord`
      says whether the previous character ended inside a token. */
  function CountWords(s: string, inWord: bool): nat {
    if s == [] then 0
    else if IsSpace(s[0]) then CountWords(s[1..], false)
    else (if inWord then 0 else 1) + CountWords(s[1..], true)
  }

  /** `len(s.split())`. */
  function WordCount(s: string): nat {
    CountWords(s, false)
  }

  lemma {:induction false} CountWordsSkipsSpaces(s: string)
    ensures CountWords(s, false) == CountWords(TrimLeft(s), false)
  {
    if s != [] && IsSpace(s[0]) {
      CountWordsSkipsSpaces(s[1..]);
    }
  }

  lemma {:induction false} CountWordsInsideWord(w: string, rest: string)
    requires forall i :: 0 <= i < |w| ==> !IsSpace(w[i])
    requires rest == [] || IsSpace(rest[0])
    ensures CountWords(w + rest, true) == CountWords(rest, false)
  {
    if w == [] {
      assert w + rest == rest;
    } else {
      assert (w + rest)[1..] == w[1..] + rest;
      CountWordsInsideWord(w[1..], rest);
    }
  }

  /** Counting in one pass agrees with the tokens `str.split()` returns. */
  lemma {:induction false} WordCountIsLenWords(s: string)
    ensures WordCount(s) == |Words(s)|
    decreases |s|
  {
    var t := TrimLeft(s);
    if t == [] {
      CountWordsSkipsSpaces(s);
    } else {
      var n := WordLength(t);
      calc {
        WordCount(s);
        { CountWordsSkipsSpaces(s); }
        CountWords(t, false);
        1 + CountWords(t[1..], true);
        { assert t[1..] == t[1..n] + t[n..];
          CountWordsInsideWord(t[1..n], t[n..]); }
        1 + CountWords(t[n..], false);
        { WordCountIsLenWords(t[n..]); }
        1 + |Words(t[n..])|;
        |Words(s)|;
      }
    }
  }

  /** `re.sub(r"\s+", " ", s)`: every maximal run of whitespace becomes one space. */
  function Collapse(s: string): string
    decreases |s|
  {
    if s == [] then []
    else if IsSpace(s[0]) then " " + Collapse(TrimLeft(s))
    else [s[0]] + Collapse(s[1..])
  }

  lemma TrimLeftCollapse(s: string)
    ensures TrimLeft(Collapse(s)) == Collapse(TrimLeft(s))
  {
    if s != [] && IsSpace(s[0]) {
      var t := TrimLeft(s);
      var x := Collapse(t);
      assert (" " + x)[1..] == x;
      if t != [] {
        assert x[0] == t[0];
      }
    } else if s != [] {
      assert Collapse(s)[0] == s[0];
    }
  }

  lemma {:induction false} CollapseWord(w: string, rest: string)
    requires forall i :: 0 <= i < |w| ==> !IsSpace(w[i])
    ensures Collapse(w + rest) == w + Collapse(rest)
  {
    if w == [] {
      assert w + rest == rest;
    } else {
      var s := w + rest;
      assert s[0] == w[0] && s[1..] == w[1..] + rest;
      assert Collapse(s) == [w[0]] + Collapse(w[1..] + rest);
      CollapseWord(w[1..], rest);
      assert [w[0]] + (w[1..] + Collapse(rest)) == w + Collapse(rest);
    }
  }

  lemma {:induction false} TrimRightAppend(a: string, b: string)
    requires TrimRight(b) != []
    ensures TrimRight(a + b) == a + TrimRight(b)
    decreases |b|
  {
    if IsSpace(b[|b| - 1]) {
      assert (a + b)[..|a + b| - 1] == a + b[..|b| - 1];
      TrimRightAppend(a, b[..|b| - 1]);
    }
  }

  lemma WordsTrimLeft(s: string)
    ensures Words(TrimLeft(s)) == Words(s)
  {
    var t := TrimLeft(s);
    assert TrimLeft(t) == t;
  }

  lemma WordsOfWordHead(t: string)
    requires t != [] && !IsSpace(t[0])
    ensures WordLength(t) >= 1
    ensures Words(t) == [t[..WordLength(t)]] + Words(t[WordLength(t)..])
  {
    assert TrimLeft(t) == t;
  }

  /** A word followed only by whitespace collapses and trims back to the word. */
  lemma TrimRightWordBeforeSpaces(w: string, rest: string)
    requires w != [] && !IsSpace(w[|w| - 1])
    requires TrimLeft(rest) == []
    ensures TrimRight(w + Collapse(rest)) == w
  {
    if rest != [] {
      assert Collapse(rest) == " " + Collapse([]);
      assert (w + " ")[..|w|] == w;
    } else {
      assert w + Collapse(rest) == w;
    }
  }

  lemma {:induction false} TrimRightCollapse(t: string)
    requires t == [] || !IsSpace(t[0])
    ensures TrimRight(Collapse(t)) == Join(" ", Words(t))
    decreases |t|
  {
    if t != [] {
      WordsOfWordHead(t);
      var n := WordLength(t);
      var w, rest := t[..n], t[n..];
      assert t == w + rest;
      CollapseWord(w, rest);
      var r' := TrimLeft(rest);
      WordsTrimLeft(rest);
      if r' == [] {
        assert Words(rest) == [];
        TrimRightWordBeforeSpaces(w, rest);
      } else {
        TrimRightCollapseTail(w, rest);
      }
    }
  }

  lemma {:induction false} TrimRightCollapseTail(w: string, rest: string)
    requires w != [] && forall i :: 0 <= i < |w| ==> !IsSpace(w[i])
    requires rest != [] && IsSpace(rest[0]) && TrimLeft(rest) != []
    ensures TrimRight(w + Collapse(rest)) == Join(" ", [w] + Words(rest))
    decreases |rest|, 0
  {
    var r' := TrimLeft(rest);
    assert |r'| < |rest| by {
      assert r' == rest[|rest| - |r'|..];
    }
    var x := Collapse(r');
    calc {
      TrimRight(w + Collapse(rest));
      == { assert Collapse(rest) == " " + x;
           assert w + Collapse(rest) == (w + " ") + x; }
      TrimRight((w + " ") + x);
      == { CollapseHeadKept(r'); TrimRightAppend(w + " ", x); }
      (w + " ") + TrimRight(x);
      == { TrimRightCollapse(r'); }
      (w + " ") + Join(" ", Words(r'));
      == { WordsTrimLeft(rest); }
      (w + " ") + Join(" ", Words(rest));
      == { WordsTrimLeft(rest); WordsOfWordHead(r'); JoinCons(" ", w, Words(rest)); }
      Join(" ", [w] + Words(rest));
    }
  }

  lemma CollapseHeadKept(t: string)
    requires t != [] && !IsSpace(t[0])
    ensures TrimRight(Collapse(t)) != []
  {
    var x := Collapse(t);
    assert x[0] == t[0];
  }

  lemma JoinCons(sep: string, x: string, xs: seq<string>)
    requires xs != []
    ensures Join(sep, [x] + xs) == x + sep + Join(sep, xs)
  {
    assert ([x] + xs)[1..] == xs;
  }

  /** Collapsing whitespace runs and then stripping leaves exactly the words of
      `s`, separated by one space each. */
  lemma SquashIsJoinedWords(s: string)
    ensures Strip(Collapse(s)) == Join(" ", Words(s))
  {
    TrimLeftCollapse(s);
    TrimRightCollapse(TrimLeft(s));
    WordsTrimLeft(s);
  }

  predicate IsDigitChar(c: char) {
    '0' <= c <= '9'
  }

  predicate AllDigits(s: string) {
    forall i :: 0 <= i < |s| ==> IsDigitChar(s[i])
  }

  function DigitChar(d: nat): char
    requires d < 10
  {
    ('0' as int + d) as char
  }

  /** Decimal notation of a natural number, most significant digit first. */
  function NatToString(n: nat): (r: string)
    ensures r != [] && AllDigits(r)
    decreases n
  {
    if n < 10 then [DigitChar(n)] else NatToString(n / 10) + [DigitChar(n % 10)]
  }

  function ParseNat(s: string): nat
    requires AllDigits(s)
  {
    if s == [] then 0 else 10 * ParseNat(s[..|s| - 1]) + (s[|s| - 1] as int - '0' as int)
  }

  lemma {:induction false} ParseNatToString(n: nat)
    ensures ParseNat(NatToString(n)) == n
    decreases n
  {
    if n >= 10 {
      var s := NatToString(n);
      assert s[..|s| - 1] == NatToString(n / 10);
      ParseNatToString(n / 10);
    }
  }

  /** The strings `str(i)` produces for an integer `i`. */
  predicate IsIntString(s: string) {
    (s != [] && AllDigits(s)) || (|s| >= 2 && s[0] == '-' && AllDigits(s[1..]))
  }

  /** `str(i)` for a Python integer. */
  function IntToString(i: int): (r: string)
    ensures IsIntString(r)
  {
    if i < 0 then "-" + NatToString(-i) else NatToString(i)
  }

  function ParseInt(s: string): int
    requires IsIntString(s)
  {
    if s[0] == '-' then -(ParseNat(s[1..]) as int) else ParseNat(s)
  }

  /** Reading the decimal text back gives the integer: `int(str(i)) == i`. */
  lemma IntToStringRoundTrip(i: int)
    ensures ParseInt(IntToString(i)) == i
  {
    if i < 0 {
      var s := IntToString(i);
      assert s[1..] == NatToString(-i);
      ParseNatToString(-i);
    } else {
      ParseNatToString(i);
    }
  }
}
