/** The pieces of Python's `str` API that the scenario scripts rely on, on `seq<char>`:
    `strip`, `startswith`/`endswith`, `in`, `split` with and without `maxsplit`,
    `",".join`, `re.split(r'[, \t]+', ...)`, `str(int)` and `int(str)` (ASCII digits). */
module Strings {
  import opened Wrappers

  /** Python's whitespace (`str.isspace`), which `strip()` and `int()` remove. */
  predicate IsSpace(c: char) {
    c == ' ' || c == '\t' || c == '\n' || c == '\r' || c == '\U{000B}' || c == '\U{000C}'
    || ('\U{001C}' <= c <= '\U{001F}') || c == '\U{0085}' || c == '\U{00A0}' || c == '\U{1680}'
    || ('\U{2000}' <= c <= '\U{200A}') || c == '\U{2028}' || c == '\U{2029}' || c == '\U{202F}'
    || c == '\U{205F}' || c == '\U{3000}'
  }

  /** The first position at or after `i` that does not hold whitespace, `|s|` if none. */
  function SkipSpaces(s: string, i: nat): (j: nat)
    requires i <= |s|
    ensures i <= j <= |s| && (j == |s| || !IsSpace(s[j]))
    ensures forall k :: i <= k < j ==> IsSpace(s[k])
    decreases |s| - i
  {
    if i < |s| && IsSpace(s[i]) then SkipSpaces(s, i + 1) else i
  }

  /** The position just after the last non-whitespace character of `s[lo..hi]`, `lo` if
      there is none. */
  function SkipSpacesBack(s: string, lo: nat, hi: nat): (j: nat)
    requires lo <= hi <= |s|
    ensures lo <= j <= hi && (j == lo || !IsSpace(s[j - 1]))
    ensures forall k :: j <= k < hi ==> IsSpace(s[k])
    decreases hi
  {
    if lo < hi && IsSpace(s[hi - 1]) then SkipSpacesBack(s, lo, hi - 1) else hi
  }

  /** Any position with only whitespace before it (from `i`) and none at it is the one
      `SkipSpaces` finds. */
  lemma SkipSpacesUnique(s: string, i: nat, j: nat)
    requires i <= j <= |s| && (j == |s| || !IsSpace(s[j]))
    requires forall k :: i <= k < j ==> IsSpace(s[k])
    ensures SkipSpaces(s, i) == j
  {}

  /** The same for `SkipSpacesBack`. */
  lemma SkipSpacesBackUnique(s: string, lo: nat, hi: nat, j: nat)
    requires lo <= j <= hi <= |s| && (j == lo || !IsSpace(s[j - 1]))
    requires forall k :: j <= k < hi ==> IsSpace(s[k])
    ensures SkipSpacesBack(s, lo, hi) == j
  {}

  /** Where `s.strip()` starts in `s`. */
  function StripStart(s: string): (i: nat)
    ensures i <= |s|
  {
    SkipSpaces(s, 0)
  }

  /** Where `s.strip()` ends in `s`. */
  function StripEnd(s: string): (j: nat)
    ensures StripStart(s) <= j <= |s|
  {
    SkipSpacesBack(s, StripStart(s), |s|)
  }

  /** `s.strip()`: a slice of `s` with no whitespace at either end, everything cut being whitespace. */
  function Strip(s: string): (r: string)
    ensures StripStart(s) + |r| <= |s| && r == s[StripStart(s)..StripStart(s) + |r|]
    ensures forall j :: 0 <= j < StripStart(s) ==> IsSpace(s[j])
    ensures forall j :: StripStart(s) + |r| <= j < |s| ==> IsSpace(s[j])
    ensures r == [] || (!IsSpace(r[0]) && !IsSpace(r[|r| - 1]))
  {
    s[StripStart(s)..StripEnd(s)]
  }

  /** The cut `strip()` makes is fixed by where the first and the last non-whitespace
      characters are. */
  lemma StripAt(s: string, a: nat, e: nat)
    requires a <= e <= |s|
    requires forall k :: 0 <= k < a ==> IsSpace(s[k])
    requires forall k :: e <= k < |s| ==> IsSpace(s[k])
    requires a == e || (!IsSpace(s[a]) && !IsSpace(s[e - 1]))
    ensures Strip(s) == s[a..e]
  {
    if a == e {
      forall k | 0 <= k < |s| ensures IsSpace(s[k]) {
        if k >= a {
          assert k >= e;
        }
      }
      SkipSpacesUnique(s, 0, |s|);
      SkipSpacesBackUnique(s, |s|, |s|, |s|);
    } else {
      SkipSpacesUnique(s, 0, a);
      SkipSpacesBackUnique(s, a, |s|, e);
    }
  }

  /** A string that starts and ends with non-whitespace is its own `strip()`. */
  lemma StripUnchanged(s: string)
    requires s == [] || (!IsSpace(s[0]) && !IsSpace(s[|s| - 1]))
    ensures Strip(s) == s
  {
    StripAt(s, 0, |s|);
    assert s[0..|s|] == s;
  }

  /** `(s + "\n").strip() == s` for a string that is its own `strip()`. */
  lemma StripNewline(s: string)
    requires s != [] && !IsSpace(s[0]) && !IsSpace(s[|s| - 1])
    ensures Strip(s + "\n") == s
  {
    var t := s + "\n";
    StripAt(t, 0, |s|);
    assert t[0..|s|] == s;
  }

  /** `s.strip(c)` for a single character `c`: remove `c` from both ends. */
  function StripChar(s: string, c: char): (r: string)
    ensures |r| <= |s|
    ensures r == [] || (r[0] != c && r[|r| - 1] != c)
    ensures forall x :: x in r ==> x in s
    decreases |s|
  {
    if s != [] && s[0] == c then StripChar(s[1..], c)
    else if s != [] && s[|s| - 1] == c then StripChar(s[..|s| - 1], c)
    else s
  }

  /** `s[a..b]` is what is left of `s` once every `c` is cut from its ends. */
  predicate CutTo(s: string, c: char, a: nat, b: nat) {
    && a <= b <= |s|
    && (forall k :: 0 <= k < a ==> s[k] == c)
    && (forall k :: b <= k < |s| ==> s[k] == c)
  }

  /** A cut of `s[1..]` is a cut of `s` when `s` starts with `c`. */
  lemma CutAfterFirst(s: string, c: char, a: nat, b: nat)
    requires s != [] && s[0] == c && CutTo(s[1..], c, a, b)
    ensures CutTo(s, c, a + 1, b + 1) && s[1..][a..b] == s[a + 1..b + 1]
  {
    forall k | 1 <= k < |s| ensures s[1..][k - 1] == s[k] {
    }
  }

  /** A cut of `s[..|s| - 1]` is a cut of `s` when `s` ends with `c`. */
  lemma CutBeforeLast(s: string, c: char, a: nat, b: nat)
    requires s != [] && s[|s| - 1] == c && CutTo(s[..|s| - 1], c, a, b)
    ensures CutTo(s, c, a, b) && s[..|s| - 1][a..b] == s[a..b]
  {
  }

  /** `s.strip(c)` is the slice of `s` left after removing every `c` at either end: all
      characters cut off before `a` and from `b` on are `c`, and (by the contract of
      `StripChar`) the slice neither starts nor ends with `c`. */
  lemma {:induction false} StripCharCut(s: string, c: char) returns (a: nat, b: nat)
    ensures CutTo(s, c, a, b) && StripChar(s, c) == s[a..b]
    decreases |s|
  {
    if s != [] && s[0] == c {
      var a', b' := StripCharCut(s[1..], c);
      CutAfterFirst(s, c, a', b');
      a, b := a' + 1, b' + 1;
    } else if s != [] && s[|s| - 1] == c {
      a, b := StripCharCut(s[..|s| - 1], c);
      CutBeforeLast(s, c, a, b);
    } else {
      a, b := 0, |s|;
      assert s[0..|s|] == s;
    }
  }

  /** A string that neither starts nor ends with `c` is what `s.strip(c)` leaves of it
      after a leading `c`. */
  lemma StripCharAfterLead(y: string, c: char)
    requires y != [] && y[0] != c && y[|y| - 1] != c
    ensures StripChar([c] + y, c) == y
  {
    assert ([c] + y)[1..] == y;
  }

  predicate StartsWith(s: string, prefix: string) {
    |prefix| <= |s| && s[..|prefix|] == prefix
  }

  /** A string that starts with `k1` does not start with a `k2` that differs from `k1` at
      position `i`. */
  lemma PrefixesDiffer(s: string, k1: string, k2: string, i: nat)
    requires StartsWith(s, k1) && i < |k1| && i < |k2| && k1[i] != k2[i]
    ensures !StartsWith(s, k2)
  {
    assert s[..|k1|][i] == s[i];
    if |k2| <= |s| {
      assert s[..|k2|][i] == s[i];
    }
  }

  predicate EndsWith(s: string, suffix: string) {
    |suffix| <= |s| && s[|s| - |suffix|..] == suffix
  }

  /** `pat` occurs in `s` at position `i`. */
  predicate OccursAt(s: string, pat: string, i: int) {
    0 <= i && i + |pat| <= |s| && s[i..i + |pat|] == pat
  }

  /** The first position at or after `from` where `pat` occurs (`s.find(pat, from)`). */
  function IndexOfFrom(s: string, pat: string, from: nat): (r: Option<nat>)
    ensures r.Some? ==> from <= r.value && OccursAt(s, pat, r.value)
    ensures r.Some? ==> forall j :: from <= j < r.value ==> !OccursAt(s, pat, j)
    ensures r.None? ==> forall j :: from <= j ==> !OccursAt(s, pat, j)
    decreases |s| - from
  {
    if from + |pat| > |s| then None
    else if s[from..from + |pat|] == pat then Some(from)
    else IndexOfFrom(s, pat, from + 1)
  }

  /** The first position where `pat` occurs in `s`. */
  function IndexOf(s: string, pat: string): (r: Option<nat>)
    ensures r.Some? ==> OccursAt(s, pat, r.value)
    ensures r.Some? ==> forall j :: 0 <= j < r.value ==> !OccursAt(s, pat, j)
    ensures r.None? ==> forall j :: !OccursAt(s, pat, j)
  {
    IndexOfFrom(s, pat, 0)
  }

  /** Python's `pat in s`. */
  predicate Contains(s: string, pat: string) {
    IndexOf(s, pat).Some?
  }

  /** `s.split(sep, 1)`, when it has two parts: the text before and after the first `sep`. */
  function SplitOnce(s: string, sep: string): (r: Option<(string, string)>)
    ensures r.None? <==> !Contains(s, sep)
    ensures r.Some? ==> var i := IndexOf(s, sep).value;
      r.value.0 == s[..i] && r.value.1 == s[i + |sep|..] && s == r.value.0 + sep + r.value.1
  {
    match IndexOf(s, sep)
    case None => None
    case Some(i) =>
      assert s == s[..i] + sep + s[i + |sep|..] by {
        assert s[i..i + |sep|] == sep;
      }
      Some((s[..i], s[i + |sep|..]))
  }

  /** `s.split(sep)[1]` for a non-empty `sep`: the text between the first and the second
      occurrence of `sep`, or to the end when there is no second one; `None` is the
      IndexError Python raises when `sep` does not occur. */
  function SecondPiece(s: string, sep: string): (r: Option<string>)
    requires |sep| > 0
    ensures r.None? <==> !Contains(s, sep)
    ensures r.Some? ==> var i := IndexOf(s, sep).value;
      StartsWith(s[i + |sep|..], r.value) && !Contains(r.value, sep)
      && (|r.value| == |s| - i - |sep| || OccursAt(s[i + |sep|..], sep, |r.value|))
  {
    match IndexOf(s, sep)
    case None => None
    case Some(i) =>
      var rest := s[i + |sep|..];
      match IndexOf(rest, sep)
      case None =>
        assert !Contains(rest, sep);
        Some(rest)
      case Some(j) =>
        assert rest[..j][..j] == rest[..j];
        assert forall k :: OccursAt(rest[..j], sep, k) ==> OccursAt(rest, sep, k) by {
          forall k | OccursAt(rest[..j], sep, k) ensures OccursAt(rest, sep, k) {
            assert rest[..j][k..k + |sep|] == rest[k..k + |sep|];
          }
        }
        Some(rest[..j])
  }

  /** `s.split(sep, 1)[1]`: everything after the first occurrence of `sep`. */
  function Remainder(s: string, sep: string): (r: Option<string>)
    ensures r.None? <==> !Contains(s, sep)
    ensures r.Some? ==> var i := IndexOf(s, sep).value; r.value == s[i + |sep|..]
  {
    match SplitOnce(s, sep)
    case None => None
    case Some(parts) => Some(parts.1)
  }

  /** `s.split(c)` for a single-character separator. */
  function SplitOn(s: string, c: char): (r: seq<string>)
    ensures |r| >= 1
    ensures forall k :: 0 <= k < |r| ==> c !in r[k]
    decreases |s|
  {
    match IndexOf(s, [c])
    case None =>
      assert forall j :: 0 <= j < |s| ==> s[j] != c by {
        forall j | 0 <= j < |s| ensures s[j] != c {
          assert !OccursAt(s, [c], j);
          assert s[j..j + 1] == [s[j]];
        }
      }
      [s]
    case Some(i) =>
      assert forall j :: 0 <= j < i ==> s[j] != c by {
        forall j | 0 <= j < i ensures s[j] != c {
          assert !OccursAt(s, [c], j);
          assert s[j..j + 1] == [s[j]];
        }
      }
      [s[..i]] + SplitOn(s[i + 1..], c)
  }

  /** `sep.join(xs)` for a one-character separator. */
  function Join(xs: seq<string>, c: char): string {
    if |xs| == 0 then []
    else if |xs| == 1 then xs[0]
    else xs[0] + [c] + Join(xs[1..], c)
  }

  /** Joining the pieces of a split gives the string back. */
  lemma {:induction false} JoinSplit(s: string, c: char)
    ensures Join(SplitOn(s, c), c) == s
    decreases |s|
  {
    match IndexOf(s, [c])
    case None =>
    case Some(i) =>
      var rest := SplitOn(s[i + 1..], c);
      JoinSplit(s[i + 1..], c);
      assert SplitOn(s, c) == [s[..i]] + rest;
      assert s[i..i + 1] == [c];
      assert s == s[..i] + [c] + s[i + 1..];
  }

  /** Splitting a join of pieces that do not contain the separator gives the pieces back. */
  lemma {:induction false} SplitJoin(xs: seq<string>, c: char)
    requires |xs| >= 1
    requires forall k :: 0 <= k < |xs| ==> c !in xs[k]
    ensures SplitOn(Join(xs, c), c) == xs
    decreases |xs|
  {
    var s := Join(xs, c);
    if |xs| == 1 {
      FirstChar(s, c, |s|);
    } else {
      var x, rest := xs[0], Join(xs[1..], c);
      assert s == x + [c] + rest;
      assert s[..|x|] == x;
      FirstChar(s, c, |x|);
      assert s[|x| + 1..] == rest;
      SplitJoin(xs[1..], c);
    }
  }

  /** The first occurrence of the one-character pattern `[c]` is the first `c`. */
  lemma FirstChar(s: string, c: char, i: nat)
    requires i <= |s| && c !in s[..i] && (i == |s| || s[i] == c)
    ensures IndexOf(s, [c]) == if i == |s| then None else Some(i)
  {
    forall j | 0 <= j < i ensures !OccursAt(s, [c], j) {
      assert s[..i][j] == s[j];
      assert s[j..j + 1][0] == s[j];
    }
    if i < |s| {
      assert s[i..i + 1] == [c];
      assert OccursAt(s, [c], i);
    }
  }

  /** The first occurrence of `pat` is at `i` when `pat` occurs there and its first
      character occurs nowhere before `i`. */
  lemma FirstOccurrence(s: string, pat: string, i: nat)
    requires |pat| > 0 && OccursAt(s, pat, i)
    requires forall j :: 0 <= j < i ==> s[j] != pat[0]
    ensures IndexOf(s, pat) == Some(i)
  {
    forall j | 0 <= j < i ensures !OccursAt(s, pat, j) {
      assert s[j] != pat[0];
    }
  }

  /** The separators of `re.split(r'[, \t]+', ...)`. */
  predicate IsTokenSep(c: char) {
    c == ',' || c == ' ' || c == '\t'
  }

  /** Length of the run of non-separator characters at the front of `s`. */
  function RunLength(s: string): (n: nat)
    ensures n <= |s|
    ensures forall i :: 0 <= i < n ==> !IsTokenSep(s[i])
    ensures n == |s| || IsTokenSep(s[n])
  {
    if s == [] || IsTokenSep(s[0]) then 0 else 1 + RunLength(s[1..])
  }

  /** `[t for t in re.split(r'[, \t]+', s) if t]`: the maximal runs of non-separators. */
  function Tokens(s: string): (r: seq<string>)
    ensures forall k :: 0 <= k < |r| ==> |r[k]| > 0 && forall i :: 0 <= i < |r[k]| ==> !IsTokenSep(r[k][i])
    decreases |s|
  {
    if s == [] then []
    else if IsTokenSep(s[0]) then Tokens(s[1..])
    else
      var n := RunLength(s);
      [s[..n]] + Tokens(s[n..])
  }

  lemma {:induction false} RunLengthOfJoin(x: string, rest: string)
    requires forall i :: 0 <= i < |x| ==> !IsTokenSep(x[i])
    requires rest == [] || IsTokenSep(rest[0])
    ensures RunLength(x + rest) == |x|
    decreases |x|
  {
    if x != [] {
      assert (x + rest)[1..] == x[1..] + rest;
      RunLengthOfJoin(x[1..], rest);
    }
  }

  /** The tokens of a comma-joined list of separator-free, non-empty pieces are those pieces. */
  lemma {:induction false} TokensOfJoin(xs: seq<string>)
    requires forall k :: 0 <= k < |xs| ==> |xs[k]| > 0 && forall i :: 0 <= i < |xs[k]| ==> !IsTokenSep(xs[k][i])
    ensures Tokens(Join(xs, ',')) == xs
    decreases |xs|
  {
    if |xs| == 1 {
      var x := xs[0];
      RunLengthOfJoin(x, []);
      assert x + [] == x;
      assert x[|x|..] == [];
    } else if |xs| > 1 {
      var x := xs[0];
      var rest := [','] + Join(xs[1..], ',');
      var s := Join(xs, ',');
      assert s == x + rest;
      RunLengthOfJoin(x, rest);
      assert s[..|x|] == x;
      assert s[|x|..] == rest;
      assert rest[1..] == Join(xs[1..], ',');
      TokensOfJoin(xs[1..]);
    }
  }

  /** A run made only of separators. */
  predicate AllSeps(w: string) {
    forall i :: 0 <= i < |w| ==> IsTokenSep(w[i])
  }

  /** The pieces `xs` with the separator run `seps[k]` before piece `k` and `seps[|xs|]`
      after the last one, as in `"1, 5"`, `" 1 5 "` or `"1,\t5"`. */
  function Interleave(xs: seq<string>, seps: seq<string>): string
    requires |seps| == |xs| + 1
    decreases |xs|
  {
    if xs == [] then seps[0] else seps[0] + xs[0] + Interleave(xs[1..], seps[1..])
  }

  /** Leading separators contribute no tokens. */
  lemma {:induction false} TokensAfterSeps(w: string, t: string)
    requires AllSeps(w)
    ensures Tokens(w + t) == Tokens(t)
    decreases |w|
  {
    if w != [] {
      assert IsTokenSep(w[0]) && (w + t)[0] == w[0];
      assert (w + t)[1..] == w[1..] + t;
      TokensAfterSeps(w[1..], t);
    } else {
      assert w + t == t;
    }
  }

  /** The tokens of non-empty, separator-free pieces written with any separator runs
      between them (at least one separator between two pieces, any number before the
      first and after the last) are those pieces. */
  lemma {:induction false} TokensOfSeparated(xs: seq<string>, seps: seq<string>)
    requires |seps| == |xs| + 1
    requires forall k :: 0 <= k < |xs| ==> |xs[k]| > 0 && forall i :: 0 <= i < |xs[k]| ==> !IsTokenSep(xs[k][i])
    requires forall k :: 0 <= k < |seps| ==> AllSeps(seps[k])
    requires forall k :: 0 < k < |xs| ==> |seps[k]| > 0
    ensures Tokens(Interleave(xs, seps)) == xs
    decreases |xs|
  {
    if xs == [] {
      TokensAfterSeps(seps[0], []);
      assert seps[0] + [] == seps[0];
    } else {
      var x, rest := xs[0], Interleave(xs[1..], seps[1..]);
      var y := x + rest;
      assert Interleave(xs, seps) == seps[0] + y;
      TokensAfterSeps(seps[0], y);
      assert rest == [] || IsTokenSep(rest[0]) by {
        assert AllSeps(seps[1]);
        if |xs| > 1 {
          assert rest[0] == seps[1][0];
        } else if rest != [] {
          assert rest == seps[1];
        }
      }
      RunLengthOfJoin(x, rest);
      assert y[0] == x[0];
      assert y[..|x|] == x;
      assert y[|x|..] == rest;
      TokensOfSeparated(xs[1..], seps[1..]);
    }
  }

  predicate IsDigit(c: char) {
    '0' <= c <= '9'
  }

  function DigitChar(d: nat): (c: char)
    requires d < 10
    ensures IsDigit(c)
  {
    "0123456789"[d]
  }

  function DigitValue(c: char): (d: nat)
    requires IsDigit(c)
    ensures d < 10
  {
    (c as int - '0' as int) as nat
  }

  /** `str(n)` for a non-negative integer: decimal, no leading zeros. */
  function NatToString(n: nat): (s: string)
    ensures |s| >= 1 && forall i :: 0 <= i < |s| ==> IsDigit(s[i])
  {
    if n < 10 then [DigitChar(n)] else NatToString(n / 10) + [DigitChar(n % 10)]
  }

  /** `str(n)`. */
  function IntToString(n: int): (s: string)
    ensures |s| >= 1 && (s[0] == '-' || IsDigit(s[0])) && IsDigit(s[|s| - 1])
    ensures forall i :: 0 <= i < |s| ==> IsDigit(s[i]) || (i == 0 && s[i] == '-')
  {
    if n < 0 then "-" + NatToString(-n) else NatToString(n)
  }

  /** Digits with single underscores between them, as Python's `int()` accepts in base 10. */
  predicate ValidDigits(d: string) {
    && |d| >= 1
    && IsDigit(d[0]) && IsDigit(d[|d| - 1])
    && (forall i :: 0 <= i < |d| ==> IsDigit(d[i]) || d[i] == '_')
    && (forall i :: 0 <= i < |d| - 1 ==> d[i] == '_' ==> d[i + 1] != '_')
  }

  /** The decimal value of a digit string, underscores ignored. */
  function DigitsValue(d: string): nat
    requires forall i :: 0 <= i < |d| ==> IsDigit(d[i]) || d[i] == '_'
  {
    if d == [] then 0
    else if d[|d| - 1] == '_' then DigitsValue(d[..|d| - 1])
    else DigitsValue(d[..|d| - 1]) * 10 + DigitValue(d[|d| - 1])
  }

  /** `int(s)` restricted to ASCII digits: surrounding whitespace, an optional sign, then
      digits possibly grouped by single underscores; `None` is Python's ValueError. */
  function ParseInt(s: string): (r: Option<int>)
    ensures r.Some? ==> |Strip(s)| >= 1
  {
    var t := Strip(s);
    if |t| >= 1 && (t[0] == '-' || t[0] == '+') then
      var d := t[1..];
      if ValidDigits(d) then
        var v: int := DigitsValue(d);
        Some(if t[0] == '-' then -v else v)
      else None
    else if ValidDigits(t) then Some(DigitsValue(t))
    else None
  }

  lemma {:induction false} NatToStringValue(n: nat)
    ensures ValidDigits(NatToString(n)) && DigitsValue(NatToString(n)) == n
  {
    var s := NatToString(n);
    if n >= 10 {
      NatToStringValue(n / 10);
      var p := NatToString(n / 10);
      assert s == p + [DigitChar(n % 10)];
      assert s[..|s| - 1] == p;
      assert DigitValue(DigitChar(n % 10)) == n % 10 by {
        assert "0123456789"[n % 10] as int - '0' as int == n % 10;
      }
    } else {
      assert DigitValue(DigitChar(n)) == n by {
        assert "0123456789"[n] as int - '0' as int == n;
      }
      assert s[..0] == [];
    }
  }

  /** `int(str(n)) == n`. */
  lemma IntToStringRoundTrip(n: int)
    ensures ParseInt(IntToString(n)) == Some(n)
  {
    if n < 0 {
      NegativeRoundTrip(n);
    } else {
      NonNegativeRoundTrip(n);
    }
  }

  lemma NegativeRoundTrip(n: int)
    requires n < 0
    ensures ParseInt(IntToString(n)) == Some(n)
  {
    NatToStringValue(-n);
    ParseNegative(IntToString(n), NatToString(-n), n);
  }

  lemma NonNegativeRoundTrip(n: nat)
    ensures ParseInt(IntToString(n)) == Some(n)
  {
    var d := NatToString(n);
    NatToStringValue(n);
    assert IntToString(n) == d;
    ParseDigits(d);
  }

  lemma ParseDigits(d: string)
    requires ValidDigits(d)
    ensures ParseInt(d) == Some(DigitsValue(d))
  {
    StripUnchanged(d);
  }

  lemma ParseNegative(s: string, d: string, n: int)
    requires s == "-" + d && ValidDigits(d) && DigitsValue(d) == -n
    ensures ParseInt(s) == Some(n)
  {
    assert s[0] == '-' && s[|s| - 1] == d[|d| - 1];
    StripUnchanged(s);
    assert s[1..] == d;
  }
}
