/** The regular expressions of app.py as matchers: `MatchLen(p, t, i)` is the
    length of the match of `p` that Python's `re` engine finds when it tries
    position `i` of `t`, or 0 when it finds none there. None of these patterns
    matches the empty string, so 0 is unambiguous. `re.sub`, `re.search` and
    `re.findall` are then the left-to-right scans below. `\w`, `\d` and
    case-insensitivity are restricted to ASCII. */
module Patterns {
  import opened Text

  /** `\b` at position `q` of `t` (a position lies between two characters). */
  predicate AtBoundary(t: string, q: nat)
    requires q <= |t|
  {
    (0 < q && IsWordChar(t[q - 1])) != (q < |t| && IsWordChar(t[q]))
  }

  /** The largest `m` in `lo..k` with `\b` at `i + m`, or 0 when there is none. */
  function LastBoundary(t: string, i: nat, lo: nat, k: nat): (m: nat)
    requires i + k <= |t| && 1 <= lo
    ensures m == 0 || (lo <= m <= k && AtBoundary(t, i + m))
    ensures forall q :: i + lo <= q <= i + k && q > i + m ==> !AtBoundary(t, q)
    decreases k
  {
    if k < lo then 0
    else if AtBoundary(t, i + k) then k
    else LastBoundary(t, i, lo, k - 1)
  }

  /** `\b[C]{lo,hi}\b` tried at `i`: the greedy run of class characters, given back
      one at a time until a word boundary follows it. */
  function ClassTokenAt(t: string, i: nat, k: CharClass, lo: nat, hi: nat): (n: nat)
    requires i <= |t| && 1 <= lo
    ensures n == 0 || (lo <= n <= hi && i + n <= |t|)
    ensures forall j :: i <= j < i + n ==> InClass(k, t[j])
  {
    if AtBoundary(t, i) then LastBoundary(t, i, lo, RunLen(t, i, k, hi)) else 0
  }

  /** `re.findall(r"\b[C]{lo,hi}\b", t[i:])` with the context of `t` before `i`. */
  function TokensFrom(t: string, i: nat, k: CharClass, lo: nat, hi: nat): seq<string>
    requires i <= |t| && 1 <= lo
    decreases |t| - i
  {
    if i == |t| then []
    else
      var n := ClassTokenAt(t, i, k, lo, hi);
      if n > 0 then [t[i..i + n]] + TokensFrom(t, i + n, k, lo, hi)
      else TokensFrom(t, i + 1, k, lo, hi)
  }

  /** `re.findall(r"\b[C]{lo,hi}\b", t)`; `hi == |t|` stands for an open bound. */
  function FindAll(t: string, k: CharClass, lo: nat, hi: nat): seq<string>
    requires 1 <= lo
  {
    TokensFrom(t, 0, k, lo, hi)
  }

  /** Every token has between `lo` and `hi` characters, all of class `k`. */
  predicate Shaped(ts: seq<string>, k: CharClass, lo: nat, hi: nat) {
    forall m :: 0 <= m < |ts| ==> lo <= |ts[m]| <= hi && forall j :: 0 <= j < |ts[m]| ==> InClass(k, ts[m][j])
  }

  lemma {:induction false} TokensFromShape(t: string, i: nat, k: CharClass, lo: nat, hi: nat)
    requires i <= |t| && 1 <= lo
    ensures Shaped(TokensFrom(t, i, k, lo, hi), k, lo, hi)
    decreases |t| - i
  {
    if i < |t| {
      var n := ClassTokenAt(t, i, k, lo, hi);
      TokensFromShape(t, if n > 0 then i + n else i + 1, k, lo, hi);
      ShapeStep(t, i, k, lo, hi);
    }
  }

  /** One step of `TokensFromShape`: the token found at `i`, if any, has the shape. */
  lemma ShapeStep(t: string, i: nat, k: CharClass, lo: nat, hi: nat)
    requires i < |t| && 1 <= lo
    requires var n := ClassTokenAt(t, i, k, lo, hi);
             Shaped(TokensFrom(t, if n > 0 then i + n else i + 1, k, lo, hi), k, lo, hi)
    ensures Shaped(TokensFrom(t, i, k, lo, hi), k, lo, hi)
  {
    var n := ClassTokenAt(t, i, k, lo, hi);
    if n > 0 {
      TokenShaped(t, i, k, lo, hi);
      ShapedCons(t[i..i + n], TokensFrom(t, i + n, k, lo, hi), k, lo, hi);
    }
  }

  /** The token matched at `i` has the shape. */
  lemma TokenShaped(t: string, i: nat, k: CharClass, lo: nat, hi: nat)
    requires i <= |t| && 1 <= lo && ClassTokenAt(t, i, k, lo, hi) > 0
    ensures var x := t[i..i + ClassTokenAt(t, i, k, lo, hi)];
            lo <= |x| <= hi && forall j :: 0 <= j < |x| ==> InClass(k, x[j])
  {
    var n := ClassTokenAt(t, i, k, lo, hi);
    var x := t[i..i + n];
    forall j | 0 <= j < n ensures InClass(k, x[j]) {
      assert x[j] == t[i + j];
    }
  }

  lemma ShapedCons(x: string, ts: seq<string>, k: CharClass, lo: nat, hi: nat)
    requires lo <= |x| <= hi && forall j :: 0 <= j < |x| ==> InClass(k, x[j])
    requires Shaped(ts, k, lo, hi)
    ensures Shaped([x] + ts, k, lo, hi)
  {
    forall m | 0 <= m < |ts| ensures ([x] + ts)[m + 1] == ts[m] {
    }
  }

  lemma FindAllShape(t: string, k: CharClass, lo: nat, hi: nat)
    requires 1 <= lo
    ensures forall m :: 0 <= m < |FindAll(t, k, lo, hi)| ==> lo <= |FindAll(t, k, lo, hi)[m]| <= hi
    ensures forall m, j :: 0 <= m < |FindAll(t, k, lo, hi)| && 0 <= j < |FindAll(t, k, lo, hi)[m]|
              ==> InClass(k, FindAll(t, k, lo, hi)[m][j])
  {
    TokensFromShape(t, 0, k, lo, hi);
    var ts := FindAll(t, k, lo, hi);
    assert forall m :: 0 <= m < |ts| ==> lo <= |ts[m]| <= hi;
  }

  datatype Pattern =
    | EmailAddress            // EMAIL_RE, simplified
    | WebUrl                  // URL_RE
    | LongNumber              // LONG_NUM_RE
    | PhoneNumber             // PHONE_RE, simplified
    | DashRun                 // [•\-\—\–]+
    | SpaceRun                // \s+
    | WordIn(words: set<string>, ignoreCase: bool)  // \b(w1|w2|...)\b
    | Year                    // \b(19|20)\d{2}\b
    | Disallowed              // [^\w\s\+\#%.,()-]
    | Percent(trailingBoundary: bool)  // \b\d{1,3}(?:\.\d+)?\s*%  followed by \b when the flag is set
    | GroupedInt              // \b\d{1,3}(?:,\d{3})*\b
    | NumberMention           // \d{1,3}%|\b\d+k?\b

  /** Simplified EMAIL_RE: at a word boundary, local characters, `@`, and a run of
      domain characters containing a dot; the match takes the whole domain run. */
  function EmailAt(t: string, i: nat): (n: nat)
    requires i <= |t|
    ensures i + n <= |t|
  {
    var l := RunLen(t, i, EmailLocal, |t|);
    if l == 0 || !AtBoundary(t, i) || i + l == |t| || t[i + l] != '@' then 0
    else
      var d := RunLen(t, i + l + 1, EmailDomain, |t|);
      if '.' in t[i + l + 1..i + l + 1 + d] then l + 1 + d else 0
  }

  /** URL_RE = `https?://\S+|\bwww\.\S+\b` */
  function UrlAt(t: string, i: nat): (n: nat)
    requires i <= |t|
    ensures i + n <= |t|
  {
    if OccursAt(t, "https://", i) && RunLen(t, i + 8, NonSpace, |t|) > 0 then
      8 + RunLen(t, i + 8, NonSpace, |t|)
    else if OccursAt(t, "http://", i) && RunLen(t, i + 7, NonSpace, |t|) > 0 then
      7 + RunLen(t, i + 7, NonSpace, |t|)
    else if AtBoundary(t, i) && OccursAt(t, "www.", i) then
      var m := LastBoundary(t, i + 4, 1, RunLen(t, i + 4, NonSpace, |t|));
      if m > 0 then 4 + m else 0
    else 0
  }

  /** LONG_NUM_RE = `\b\d{7,}\b` */
  function LongNumberAt(t: string, i: nat): (n: nat)
    requires i <= |t|
    ensures i + n <= |t|
  {
    var d := RunLen(t, i, Digit, |t|);
    if d >= 7 && AtBoundary(t, i) && AtBoundary(t, i + d) then d else 0
  }

  /** Simplified PHONE_RE: a run of at least four digits. */
  function PhoneAt(t: string, i: nat): (n: nat)
    requires i <= |t|
    ensures i + n <= |t|
  {
    var d := RunLen(t, i, Digit, |t|);
    if d >= 4 then d else 0
  }

  /** `\b(w1|w2|...)\b` over alternatives made of letters: the word starting at `i`
      is one of them. */
  function WordInAt(t: string, i: nat, words: set<string>, ignoreCase: bool): (n: nat)
    requires i <= |t|
    ensures i + n <= |t|
  {
    var w := RunLen(t, i, Word, |t|);
    var word := if ignoreCase then Lower(t[i..i + w]) else t[i..i + w];
    if w > 0 && AtBoundary(t, i) && word in words then w else 0
  }

  /** `\b(19|20)\d{2}\b` */
  function YearAt(t: string, i: nat): (n: nat)
    requires i <= |t|
    ensures i + n <= |t|
  {
    if AtBoundary(t, i) && RunLen(t, i, Word, |t|) == 4
       && (t[i..i + 2] == "19" || t[i..i + 2] == "20") && IsDigit(t[i + 2]) && IsDigit(t[i + 3])
    then 4 else 0
  }

  /** The characters that `[^\w\s\+\#%.,()-]` does not match. */
  predicate IsParaphraseChar(c: char) {
    IsWordChar(c) || IsSpace(c) || c == '+' || c == '#' || c == '%' || c == '.' || c == ','
    || c == '(' || c == ')' || c == '-'
  }

  /** `\b\d{1,3}(?:\.\d+)?\s*%`, followed by `\b` when `trailing` is set. */
  function PercentAt(t: string, i: nat, trailing: bool): (n: nat)
    requires i <= |t|
    ensures i + n <= |t|
  {
    var d := RunLen(t, i, Digit, |t|);
    if d == 0 || d > 3 || !AtBoundary(t, i) then 0
    else
      var j := i + d;
      var f := if j < |t| && t[j] == '.' then RunLen(t, j + 1, Digit, |t|) else 0;
      var j' := if f > 0 then j + 1 + f else j;
      var e := j' + RunLen(t, j', Space, |t|);
      if e < |t| && t[e] == '%' && (!trailing || AtBoundary(t, e + 1)) then e + 1 - i else 0
  }

  /** The number of `,ddd` groups that follow one another from `j`. */
  function Groups(t: string, j: nat): (g: nat)
    requires j <= |t|
    ensures j + 4 * g <= |t|
    decreases |t| - j
  {
    if j + 4 <= |t| && t[j] == ',' && IsDigit(t[j + 1]) && IsDigit(t[j + 2]) && IsDigit(t[j + 3])
    then 1 + Groups(t, j + 4) else 0
  }

  /** `\b\d{1,3}(?:,\d{3})*\b`: when the last group runs into a word character,
      the engine gives that group back and the match ends before its comma. */
  function GroupedIntAt(t: string, i: nat): (n: nat)
    requires i <= |t|
    ensures i + n <= |t|
  {
    var d := RunLen(t, i, Digit, |t|);
    if d == 0 || d > 3 || !AtBoundary(t, i) then 0
    else
      var g := Groups(t, i + d);
      if AtBoundary(t, i + d + 4 * g) then d + 4 * g
      else if g > 0 then d + 4 * (g - 1)
      else 0
  }

  /** `\d{1,3}%|\b\d+k?\b` */
  function NumberMentionAt(t: string, i: nat): (n: nat)
    requires i <= |t|
    ensures i + n <= |t|
  {
    var d := RunLen(t, i, Digit, |t|);
    var k := Min(d, 3);
    if d == 0 then 0
    else if i + k < |t| && t[i + k] == '%' then k + 1
    else if !AtBoundary(t, i) then 0
    else if i + d < |t| && t[i + d] == 'k' then (if AtBoundary(t, i + d + 1) then d + 1 else 0)
    else if AtBoundary(t, i + d) then d
    else 0
  }

  function MatchLen(p: Pattern, t: string, i: nat): (n: nat)
    requires i <= |t|
    ensures i + n <= |t|
  {
    match p
    case EmailAddress => EmailAt(t, i)
    case WebUrl => UrlAt(t, i)
    case LongNumber => LongNumberAt(t, i)
    case PhoneNumber => PhoneAt(t, i)
    case DashRun => RunLen(t, i, Dash, |t|)
    case SpaceRun => RunLen(t, i, Space, |t|)
    case WordIn(words, ignoreCase) => WordInAt(t, i, words, ignoreCase)
    case Year => YearAt(t, i)
    case Disallowed => if i < |t| && !IsParaphraseChar(t[i]) then 1 else 0
    case Percent(trailing) => PercentAt(t, i, trailing)
    case GroupedInt => GroupedIntAt(t, i)
    case NumberMention => NumberMentionAt(t, i)
  }

  /** A pattern as a value: what `re.sub`, `re.search` and `re.findall` are given. */
  type Matcher = (string, nat) -> nat

  function MatcherOf(p: Pattern): Matcher {
    (t: string, i: nat) => if i <= |t| then MatchLen(p, t, i) else 0
  }

  /** The length of the match `m` finds at `i`, kept inside `t`. */
  function Tried(m: Matcher, t: string, i: nat): (n: nat)
    requires i <= |t|
    ensures i + n <= |t|
  {
    Min(m(t, i), |t| - i)
  }

  lemma TriedPattern(p: Pattern, t: string, i: nat)
    requires i <= |t|
    ensures Tried(MatcherOf(p), t, i) == MatchLen(p, t, i)
  {
  }

  /** `re.sub(m, repl, t)` from position `i`: each match, leftmost first, becomes `repl`. */
  function SubFrom(t: string, m: Matcher, repl: string, i: nat): (r: string)
    requires i <= |t|
    decreases |t| - i
  {
    if i == |t| then []
    else
      var n := Tried(m, t, i);
      if n > 0 then repl + SubFrom(t, m, repl, i + n)
      else [t[i]] + SubFrom(t, m, repl, i + 1)
  }

  /** A match at `i` that ends at `j` becomes `repl`. */
  lemma SubFromMatch(t: string, m: Matcher, repl: string, i: nat, j: nat)
    requires i < |t| && Tried(m, t, i) > 0 && j == i + Tried(m, t, i)
    ensures j <= |t| && SubFrom(t, m, repl, i) == repl + SubFrom(t, m, repl, j)
  {
  }

  /** A character where nothing matches is kept. */
  lemma SubFromKept(t: string, m: Matcher, repl: string, i: nat)
    requires i < |t| && Tried(m, t, i) == 0
    ensures SubFrom(t, m, repl, i) == [t[i]] + SubFrom(t, m, repl, i + 1)
  {
  }

  function Substitute(t: string, p: Pattern, repl: string): string {
    SubFrom(t, MatcherOf(p), repl, 0)
  }

  /** A property of characters that the replacement has and that every character
      left in place has, holds of every character of the result. */
  lemma {:induction false} SubFromKeeps(t: string, m: Matcher, repl: string, i: nat, ok: char -> bool)
    requires i <= |t|
    requires forall c :: c in repl ==> ok(c)
    requires forall j :: i <= j < |t| && Tried(m, t, j) == 0 ==> ok(t[j])
    ensures forall c :: c in SubFrom(t, m, repl, i) ==> ok(c)
    decreases |t| - i
  {
    if i < |t| {
      var n := Tried(m, t, i);
      if n > 0 {
        SubFromKeeps(t, m, repl, i + n, ok);
      } else {
        SubFromKeeps(t, m, repl, i + 1, ok);
      }
    }
  }

  /** Where the matcher matches nowhere, the substitution changes nothing. */
  lemma {:induction false} SubFromNone(t: string, m: Matcher, repl: string, i: nat)
    requires i <= |t|
    requires forall j :: i <= j < |t| ==> Tried(m, t, j) == 0
    ensures SubFrom(t, m, repl, i) == t[i..]
    decreases |t| - i
  {
    if i < |t| {
      SubFromNone(t, m, repl, i + 1);
      SubFromKept(t, m, repl, i);
      assert t[i..] == [t[i]] + t[i + 1..];
    }
  }

  /** `re.sub` with a pattern that matches nowhere returns the text unchanged. */
  lemma SubstituteNone(t: string, p: Pattern, repl: string)
    requires forall j :: 0 <= j < |t| ==> MatchLen(p, t, j) == 0
    ensures Substitute(t, p, repl) == t
  {
    forall j | 0 <= j < |t| ensures Tried(MatcherOf(p), t, j) == 0 {
      TriedPattern(p, t, j);
    }
    SubFromNone(t, MatcherOf(p), repl, 0);
    assert t[0..] == t;
  }

  /** A pattern that matches at most one character at a time, replaced by one
      character: the result has the input's length, with `repl` exactly where the
      pattern matches. */
  lemma {:induction false} SubFromOneChar(t: string, m: Matcher, repl: char, i: nat)
    requires i <= |t|
    requires forall j :: i <= j < |t| ==> Tried(m, t, j) <= 1
    ensures |SubFrom(t, m, [repl], i)| == |t| - i
    ensures forall k :: i <= k < |t| ==>
              SubFrom(t, m, [repl], i)[k - i] == if Tried(m, t, k) == 1 then repl else t[k]
    decreases |t| - i
  {
    if i < |t| {
      SubFromOneChar(t, m, repl, i + 1);
      OneCharStep(t, m, repl, i);
    }
  }

  lemma OneCharStep(t: string, m: Matcher, repl: char, i: nat)
    requires i < |t| && Tried(m, t, i) <= 1
    requires |SubFrom(t, m, [repl], i + 1)| == |t| - i - 1
    requires forall k :: i + 1 <= k < |t| ==>
               SubFrom(t, m, [repl], i + 1)[k - i - 1] == if Tried(m, t, k) == 1 then repl else t[k]
    ensures |SubFrom(t, m, [repl], i)| == |t| - i
    ensures forall k :: i <= k < |t| ==>
              SubFrom(t, m, [repl], i)[k - i] == if Tried(m, t, k) == 1 then repl else t[k]
  {
    var rest := SubFrom(t, m, [repl], i + 1);
    var r := SubFrom(t, m, [repl], i);
    var head := if Tried(m, t, i) == 1 then repl else t[i];
    if Tried(m, t, i) == 1 {
      SubFromMatch(t, m, [repl], i, i + 1);
    } else {
      SubFromKept(t, m, [repl], i);
    }
    ConsIndex(r, head, rest);
    forall k | i <= k < |t|
      ensures r[k - i] == if Tried(m, t, k) == 1 then repl else t[k]
    {
      if k > i {
        assert r[k - i] == rest[k - i - 1];
      }
    }
  }

  /** The characters of `[head] + rest`, position by position. */
  lemma ConsIndex(r: string, head: char, rest: string)
    requires r == [head] + rest
    ensures |r| == |rest| + 1 && r[0] == head
    ensures forall q :: 0 <= q < |rest| ==> r[q + 1] == rest[q]
  {
  }

  /** Substitution with a digit-free replacement adds no digit. */
  lemma SubstituteDigitFree(t: string, p: Pattern, repl: string)
    requires DigitFree(t) && DigitFree(repl)
    ensures DigitFree(Substitute(t, p, repl))
  {
    SubFromKeeps(t, MatcherOf(p), repl, 0, c => !IsDigit(c));
    var r := Substitute(t, p, repl);
    assert forall k :: 0 <= k < |r| ==> r[k] in r;
  }

  /** `re.search(m, t[i:])`: the leftmost position where `m` matches. */
  function SearchFrom(t: string, m: Matcher, i: nat): (r: Option<nat>)
    requires i <= |t|
    ensures r.Some? ==> i <= r.value < |t| && Tried(m, t, r.value) > 0
    ensures r.Some? ==> forall j :: i <= j < r.value ==> Tried(m, t, j) == 0
    ensures r.None? ==> forall j :: i <= j < |t| ==> Tried(m, t, j) == 0
    decreases |t| - i
  {
    if i == |t| then None
    else if Tried(m, t, i) > 0 then Some(i)
    else SearchFrom(t, m, i + 1)
  }

  /** `re.search(p, t)` */
  function Search(t: string, p: Pattern): (r: Option<nat>)
    ensures r.Some? ==> r.value < |t| && MatchLen(p, t, r.value) > 0
    ensures r.Some? ==> forall j :: 0 <= j < r.value ==> MatchLen(p, t, j) == 0
    ensures r.None? ==> forall j :: 0 <= j < |t| ==> MatchLen(p, t, j) == 0
  {
    var r := SearchFrom(t, MatcherOf(p), 0);
    assert forall j :: 0 <= j < |t| ==> Tried(MatcherOf(p), t, j) == MatchLen(p, t, j) by {
      forall j | 0 <= j < |t| { TriedPattern(p, t, j); }
    }
    r
  }

  /** The text of the leftmost match of `p` in `t`, if there is one. */
  function FirstMatch(t: string, p: Pattern): Option<string> {
    match Search(t, p)
    case None => None
    case Some(k) => Some(t[k..k + MatchLen(p, t, k)])
  }
}
