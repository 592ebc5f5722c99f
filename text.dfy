/** Characters and strings with the meaning Python gives them in app.py:
    `str.isspace`, `str.strip`, `str.split`, `str.lower`, `in` on strings, `join`. */
module Text {

  datatype Option<T> = None | Some(value: T)

  /** `str.isspace()`; also what `\s` matches in a `str` regular expression. */
  predicate IsSpace(c: char) {
    ('\t' <= c <= '\r') || ('\U{1c}' <= c <= ' ') || c == '\U{85}' || c == '\U{a0}'
    || c == '\U{1680}' || ('\U{2000}' <= c <= '\U{200a}') || c == '\U{2028}' || c == '\U{2029}'
    || c == '\U{202f}' || c == '\U{205f}' || c == '\U{3000}'
  }

  /** The characters at which `str.splitlines()` ends a line; every one is whitespace. */
  predicate IsLineBreak(c: char)
    ensures IsLineBreak(c) ==> IsSpace(c) && c != ' '
  {
    ('\n' <= c <= '\r') || ('\U{1c}' <= c <= '\U{1e}') || c == '\U{85}' || c == '\U{2028}' || c == '\U{2029}'
  }

  predicate IsDigit(c: char) { '0' <= c <= '9' }

  predicate IsLetter(c: char) { ('A' <= c <= 'Z') || ('a' <= c <= 'z') }

  /** `\w`, restricted to ASCII. */
  predicate IsWordChar(c: char) { IsLetter(c) || IsDigit(c) || c == '_' }

  function LowerChar(c: char): char {
    if 'A' <= c <= 'Z' then (c as int + 32) as char else c
  }

  /** `str.lower()`, restricted to ASCII letters. */
  function Lower(s: string): (r: string)
    ensures |r| == |s|
    ensures forall i {:trigger r[i]} :: 0 <= i < |s| ==> r[i] == LowerChar(s[i])
  {
    seq(|s|, i requires 0 <= i < |s| => LowerChar(s[i]))
  }

  predicate DigitFree(s: string) {
    forall i :: 0 <= i < |s| ==> !IsDigit(s[i])
  }

  /** Character classes of the regular expressions in app.py. */
  datatype CharClass =
    | Space | NonSpace | Digit | Word | Letter
    | SkillChar     // [A-Za-z\+\#]
    | KeywordChar   // [a-zA-Z\+\#\-]
    | EmailLocal    // [A-Za-z0-9._%+-]
    | EmailDomain   // [A-Za-z0-9.-]
    | Dash          // [•\-\—\–]

  predicate InClass(k: CharClass, c: char) {
    match k
    case Space => IsSpace(c)
    case NonSpace => !IsSpace(c)
    case Digit => IsDigit(c)
    case Word => IsWordChar(c)
    case Letter => IsLetter(c)
    case SkillChar => IsLetter(c) || c == '+' || c == '#'
    case KeywordChar => IsLetter(c) || c == '+' || c == '#' || c == '-'
    case EmailLocal => IsLetter(c) || IsDigit(c) || c == '.' || c == '_' || c == '%' || c == '+' || c == '-'
    case EmailDomain => IsLetter(c) || IsDigit(c) || c == '.' || c == '-'
    case Dash => c == '\U{2022}' || c == '-' || c == '\U{2014}' || c == '\U{2013}'
  }

  /** Length of the longest run of `k` characters starting at `i`, at most `cap`. */
  function RunLen(s: string, i: nat, k: CharClass, cap: nat): (n: nat)
    requires i <= |s|
    ensures i + n <= |s| && n <= cap
    ensures forall j :: i <= j < i + n ==> InClass(k, s[j])
    ensures n < cap && i + n < |s| ==> !InClass(k, s[i + n])
    decreases |s| - i
  {
    if i == |s| || cap == 0 || !InClass(k, s[i]) then 0 else 1 + RunLen(s, i + 1, k, cap - 1)
  }

  /** `str.lstrip()`: drops leading whitespace and nothing else. */
  function LStrip(s: string): (r: string)
    ensures |r| <= |s| && r == s[|s| - |r|..]
    ensures r == [] || !IsSpace(r[0])
    ensures forall i :: 0 <= i < |s| - |r| ==> IsSpace(s[i])
    decreases |s|
  {
    if s != [] && IsSpace(s[0]) then LStrip(s[1..]) else s
  }

  /** `str.rstrip()`: drops trailing whitespace and nothing else. */
  function RStrip(s: string): (r: string)
    ensures |r| <= |s| && r == s[..|r|]
    ensures r == [] || !IsSpace(r[|r| - 1])
    ensures forall i :: |r| <= i < |s| ==> IsSpace(s[i])
    decreases |s|
  {
    if s != [] && IsSpace(s[|s| - 1]) then RStrip(s[..|s| - 1]) else s
  }

  /** `str.strip()` */
  function Strip(s: string): (r: string)
    ensures r == [] || (!IsSpace(r[0]) && !IsSpace(r[|r| - 1]))
    ensures (r == []) <==> (forall i :: 0 <= i < |s| ==> IsSpace(s[i]))
  {
    RStrip(LStrip(s))
  }

  /** `p` starts `s` (`str.startswith`). */
  predicate StartsWith(s: string, p: string) {
    |p| <= |s| && s[..|p|] == p
  }

  /** `sub` occurs in `s` at position `i`. */
  predicate OccursAt(s: string, sub: string, i: nat) {
    i + |sub| <= |s| && s[i..i + |sub|] == sub
  }

  /** `sub in s` for strings. */
  predicate Contains(s: string, sub: string) {
    exists i: nat :: i <= |s| && OccursAt(s, sub, i)
  }

  lemma StartsWithContains(s: string, p: string)
    requires StartsWith(s, p)
    ensures Contains(s, p)
  {
    assert OccursAt(s, p, 0);
  }

  /** `sep.join(xs)` */
  function Join(sep: string, xs: seq<string>): string {
    if xs == [] then [] else if |xs| == 1 then xs[0] else xs[0] + sep + Join(sep, xs[1..])
  }

  function Min(a: nat, b: nat): nat { if a < b then a else b }

  /** `s[:n]` for a non-negative `n`. */
  function Take<T>(s: seq<T>, n: nat): (r: seq<T>)
    ensures |r| == Min(n, |s|) && r == s[..|r|]
  {
    if n < |s| then s[..n] else s
  }

  /** `s[:n]` for any integer `n`: a negative `n` counts from the end. */
  function Slice<T>(s: seq<T>, n: int): (r: seq<T>)
    ensures |r| <= |s| && r == s[..|r|]
    ensures n >= 0 ==> |r| == Min(n, |s|)
    ensures n < 0 ==> |r| == (if |s| + n < 0 then 0 else |s| + n)
  {
    if n >= 0 then Take(s, n) else Take(s, if |s| + n < 0 then 0 else |s| + n)
  }

  /** `set(xs)` */
  function ToSet(xs: seq<string>): set<string> {
    if xs == [] then {} else {xs[0]} + ToSet(xs[1..])
  }

  lemma {:induction false} ToSetMembers(xs: seq<string>)
    ensures forall x :: x in ToSet(xs) <==> x in xs
    decreases |xs|
  {
    if xs != [] {
      ToSetMembers(xs[1..]);
      assert xs == [xs[0]] + xs[1..];
    }
  }

  /** No element occurs twice. */
  predicate NoDup<T(==)>(s: seq<T>) {
    forall i, j :: 0 <= i < j < |s| ==> s[i] != s[j]
  }

  /** `str.split()` without arguments: the maximal runs of non-whitespace. */
  function SplitWs(s: string): (r: seq<string>)
    decreases |s|
  {
    if s == [] then []
    else if IsSpace(s[0]) then SplitWs(s[1..])
    else
      var w := RunLen(s, 0, NonSpace, |s|);
      assert InClass(NonSpace, s[0]);
      [s[..w]] + SplitWs(s[w..])
  }

  /** The non-whitespace characters of `s`, in order. */
  function NonSpaceChars(s: string): string {
    if s == [] then [] else (if IsSpace(s[0]) then [] else [s[0]]) + NonSpaceChars(s[1..])
  }

  lemma {:induction false} NonSpaceCharsAppend(a: string, b: string)
    ensures NonSpaceChars(a + b) == NonSpaceChars(a) + NonSpaceChars(b)
    decreases |a|
  {
    if a != [] {
      assert (a + b)[0] == a[0];
      assert (a + b)[1..] == a[1..] + b;
      NonSpaceCharsAppend(a[1..], b);
    } else {
      assert a + b == b;
    }
  }

  lemma NonSpaceCharsCons(c: char, s: string)
    ensures NonSpaceChars([c] + s) == (if IsSpace(c) then [] else [c]) + NonSpaceChars(s)
  {
    assert ([c] + s)[1..] == s;
  }

  /** Dropping whitespace from the front of `t[i..]` leaves its non-whitespace characters. */
  lemma {:induction false} SkipSpaces(t: string, i: nat, j: nat)
    requires i <= j <= |t|
    requires forall k :: i <= k < j ==> IsSpace(t[k])
    ensures NonSpaceChars(t[i..]) == NonSpaceChars(t[j..])
    decreases j - i
  {
    if i < j {
      assert t[i..] == [t[i]] + t[i + 1..];
      NonSpaceCharsCons(t[i], t[i + 1..]);
      SkipSpaces(t, i + 1, j);
    }
  }

  lemma {:induction false} NonSpaceCharsOfSpaces(s: string)
    requires forall i :: 0 <= i < |s| ==> IsSpace(s[i])
    ensures NonSpaceChars(s) == []
    decreases |s|
  {
    if s != [] {
      NonSpaceCharsOfSpaces(s[1..]);
    }
  }

  lemma LStripKeepsNonSpace(s: string)
    ensures NonSpaceChars(LStrip(s)) == NonSpaceChars(s)
  {
    var l := LStrip(s);
    var d := s[..|s| - |l|];
    assert s == d + l;
    NonSpaceCharsOfSpaces(d);
    NonSpaceCharsAppend(d, l);
  }

  lemma RStripKeepsNonSpace(s: string)
    ensures NonSpaceChars(RStrip(s)) == NonSpaceChars(s)
  {
    var r := RStrip(s);
    var d := s[|r|..];
    assert s == r + d;
    NonSpaceCharsOfSpaces(d);
    NonSpaceCharsAppend(r, d);
  }

  /** `str.strip()` only removes whitespace. */
  lemma StripKeepsNonSpace(s: string)
    ensures NonSpaceChars(Strip(s)) == NonSpaceChars(s)
  {
    LStripKeepsNonSpace(s);
    RStripKeepsNonSpace(LStrip(s));
  }

  /** Every character of a stripped string comes from its input. */
  lemma StripChars(s: string)
    ensures forall c :: c in Strip(s) ==> c in s
  {
    var l := LStrip(s);
    assert forall c :: c in l ==> c in s by {
      forall c | c in l ensures c in s {
        var k :| 0 <= k < |l| && l[k] == c;
        assert s[|s| - |l| + k] == c;
      }
    }
  }
  /** A word of `str.split()`: non-empty and without whitespace. */
  predicate IsWord(w: string) {
    w != [] && forall j :: 0 <= j < |w| ==> !IsSpace(w[j])
  }

  /** Every piece `str.split()` gives is a word. */
  lemma {:induction false} SplitWsWords(s: string)
    ensures forall w :: w in SplitWs(s) ==> IsWord(w)
    decreases |s|
  {
    if s != [] {
      if IsSpace(s[0]) {
        SplitWsWords(s[1..]);
      } else {
        var n := RunLen(s, 0, NonSpace, |s|);
        assert InClass(NonSpace, s[0]);
        SplitWsWords(s[n..]);
        assert SplitWs(s) == [s[..n]] + SplitWs(s[n..]);
        assert IsWord(s[..n]);
      }
    }
  }

  /** The length of a run is fixed by where the run stops. */
  lemma RunLenIs(s: string, i: nat, k: CharClass, cap: nat, n: nat)
    requires i + n <= |s| && cap >= |s| - i
    requires forall j :: i <= j < i + n ==> InClass(k, s[j])
    requires i + n == |s| || !InClass(k, s[i + n])
    ensures RunLen(s, i, k, cap) == n
  {
    var m := RunLen(s, i, k, cap);
    assert i + m < |s| ==> !InClass(k, s[i + m]);
  }

  /** `str.split()` does not see whitespace before the first word. */
  lemma {:induction false} SplitWsSkip(t: string, i: nat, j: nat)
    requires i <= j <= |t|
    requires forall k :: i <= k < j ==> IsSpace(t[k])
    ensures SplitWs(t[i..]) == SplitWs(t[j..])
    decreases j - i
  {
    if i < j {
      assert t[i..][1..] == t[i + 1..];
      SplitWsSkip(t, i + 1, j);
    }
  }

  /** `str.split()` does not see the run of whitespace at `i`. */
  lemma SplitWsRun(t: string, i: nat)
    requires i <= |t|
    ensures SplitWs(t[i..]) == SplitWs(t[i + RunLen(t, i, Space, |t|)..])
  {
    var n := RunLen(t, i, Space, |t|);
    forall k | i <= k < i + n ensures IsSpace(t[k]) {
      assert InClass(Space, t[k]);
    }
    SplitWsSkip(t, i, i + n);
  }

  /** The words of a text that starts with a non-whitespace character: the first
      one is the run of non-whitespace there. */
  lemma SplitWsHead(s: string)
    requires s != [] && !IsSpace(s[0])
    ensures var w := RunLen(s, 0, NonSpace, |s|);
            1 <= w && SplitWs(s) == [s[..w]] + SplitWs(s[w..])
  {
    assert InClass(NonSpace, s[0]);
  }

  /** A word that stops before whitespace is one character long. */
  lemma SplitWsSingle(s: string)
    requires s != [] && !IsSpace(s[0])
    requires |s| == 1 || IsSpace(s[1])
    ensures SplitWs(s) == [[s[0]]] + SplitWs(s[1..])
  {
    RunLenIs(s, 0, NonSpace, |s|, 1);
    SplitWsHead(s);
    assert s[..1] == [s[0]];
  }

  /** `SplitWsSingle` at position `i` of `t`. */
  lemma SplitWsSingleAt(t: string, i: nat)
    requires i < |t| && !IsSpace(t[i]) && (i + 1 == |t| || IsSpace(t[i + 1]))
    ensures SplitWs(t[i..]) == [[t[i]]] + SplitWs(t[i + 1..])
  {
    assert t[i..][1..] == t[i + 1..];
    SplitWsSingle(t[i..]);
  }

  /** `SplitWsLonger` at position `i` of `t`. */
  lemma SplitWsLongerAt(t: string, i: nat)
    requires i + 1 < |t| && !IsSpace(t[i]) && !IsSpace(t[i + 1])
    ensures SplitWs(t[i + 1..]) != []
    ensures SplitWs(t[i..]) == [[t[i]] + SplitWs(t[i + 1..])[0]] + SplitWs(t[i + 1..])[1..]
  {
    assert t[i..][1..] == t[i + 1..];
    SplitWsLonger(t[i..]);
  }

  /** A word that goes on past its first character: dropping that character
      leaves the rest of the word first. */
  lemma SplitWsLonger(s: string)
    requires |s| >= 2 && !IsSpace(s[0]) && !IsSpace(s[1])
    ensures SplitWs(s[1..]) != []
    ensures SplitWs(s) == [[s[0]] + SplitWs(s[1..])[0]] + SplitWs(s[1..])[1..]
  {
    var u := s[1..];
    var w := RunLen(u, 0, NonSpace, |u|);
    var ws := SplitWs(u);
    var rest := SplitWs(u[w..]);
    assert ws == [u[..w]] + rest by {
      SplitWsHead(u);
    }
    assert SplitWs(s) == [s[..1 + w]] + rest by {
      SplitWsOneLonger(s, w);
    }
    assert s[..1 + w] == [s[0]] + u[..w];
    assert ws[0] == u[..w] && ws[1..] == rest;
  }

  /** The first word of `s` is one longer than the first word of `s[1..]`. */
  lemma SplitWsOneLonger(s: string, w: nat)
    requires |s| >= 1 && !IsSpace(s[0]) && w == RunLen(s[1..], 0, NonSpace, |s| - 1)
    ensures SplitWs(s) == [s[..1 + w]] + SplitWs(s[1..][w..])
  {
    RunLenCons(s, w);
    SplitWsHead(s);
    assert s[1 + w..] == s[1..][w..];
  }

  /** The run of non-whitespace at the start of `s` is one longer than the one
      after its first character. */
  lemma RunLenCons(s: string, w: nat)
    requires |s| >= 1 && !IsSpace(s[0]) && w == RunLen(s[1..], 0, NonSpace, |s| - 1)
    ensures RunLen(s, 0, NonSpace, |s|) == 1 + w
  {
    assert InClass(NonSpace, s[0]);
    RunLenShift(s, 1, NonSpace, |s| - 1);
  }

  /** A run measured in `s` from `i >= 1` is the same run measured in `s[1..]`. */
  lemma {:induction false} RunLenShift(s: string, i: nat, k: CharClass, cap: nat)
    requires 1 <= i <= |s|
    ensures RunLen(s, i, k, cap) == RunLen(s[1..], i - 1, k, cap)
    decreases |s| - i
  {
    if i < |s| && cap > 0 {
      assert s[1..][i - 1] == s[i];
      RunLenShift(s, i + 1, k, cap - 1);
    }
  }

  /** A character put before the first word of a join is put before the join. */
  lemma JoinHeadCons(sep: string, c: char, xs: seq<string>)
    requires xs != []
    ensures Join(sep, [[c] + xs[0]] + xs[1..]) == [c] + Join(sep, xs)
  {
    var ys := [[c] + xs[0]] + xs[1..];
    assert ys[1..] == xs[1..];
  }

  /** Words joined by spaces start and end with a word's character. */
  lemma {:induction false} JoinWordsEnds(xs: seq<string>)
    requires forall w :: w in xs ==> IsWord(w)
    ensures var j := Join(" ", xs);
            xs != [] ==> j != [] && !IsSpace(j[0]) && !IsSpace(j[|j| - 1])
    decreases |xs|
  {
    if |xs| > 1 {
      JoinWordsEnds(xs[1..]);
      assert xs[0] in xs;
    } else if |xs| == 1 {
      assert xs[0] in xs;
    }
  }

  /** `str.lstrip()` drops whitespace in front of a text that starts with
      something else. */
  lemma {:induction false} LStripPadded(a: string, x: string)
    requires forall k :: 0 <= k < |a| ==> IsSpace(a[k])
    requires x != [] && !IsSpace(x[0])
    ensures LStrip(a + x) == x
    decreases |a|
  {
    if a == [] {
      assert a + x == x;
    } else {
      assert (a + x)[0] == a[0];
      assert (a + x)[1..] == a[1..] + x;
      LStripPadded(a[1..], x);
    }
  }

  /** `str.rstrip()` drops whitespace after a text that ends with something else. */
  lemma {:induction false} RStripPadded(x: string, b: string)
    requires forall k :: 0 <= k < |b| ==> IsSpace(b[k])
    requires x != [] && !IsSpace(x[|x| - 1])
    ensures RStrip(x + b) == x
    decreases |b|
  {
    if b == [] {
      assert x + b == x;
    } else {
      assert (x + b)[|x + b| - 1] == b[|b| - 1];
      assert (x + b)[..|x + b| - 1] == x + b[..|b| - 1];
      RStripPadded(x, b[..|b| - 1]);
    }
  }

  /** `str.strip()` of whitespace, a text with no whitespace at either end, and
      whitespace, gives back that text. */
  lemma StripPadded(a: string, j: string, b: string)
    requires forall k :: 0 <= k < |a| ==> IsSpace(a[k])
    requires forall k :: 0 <= k < |b| ==> IsSpace(b[k])
    requires j == [] || (!IsSpace(j[0]) && !IsSpace(j[|j| - 1]))
    ensures Strip(a + j + b) == j
  {
    var s := a + j + b;
    if j == [] {
      assert forall k :: 0 <= k < |s| ==> IsSpace(s[k]) by {
        forall k | 0 <= k < |s| ensures IsSpace(s[k]) {
          if k < |a| { assert s[k] == a[k]; } else { assert s[k] == b[k - |a|]; }
        }
      }
    } else {
      assert s == a + (j + b);
      LStripPadded(a, j + b);
      RStripPadded(j, b);
    }
  }
}
