/** What the masking in `sanitize_text` and `sanitize_for_output`
    (app.py:259-276) guarantees: no run of four or more digits survives. The
    phone step replaces every such run, and the later dash and whitespace steps
    only put spaces in or take whitespace out, so they never join digits. */
module Masking {
  import opened Text
  import opened Patterns
  import opened Sanitize

  /** The number of digits `s` starts with. */
  function LeadDigits(s: string): (n: nat)
    ensures n <= |s|
    decreases |s|
  {
    if s != [] && IsDigit(s[0]) then 1 + LeadDigits(s[1..]) else 0
  }

  /** No run of four or more digits anywhere in `s`. */
  predicate ShortRuns(s: string) {
    forall k :: 0 <= k <= |s| ==> LeadDigits(s[k..]) < 4
  }

  /** The digits at `i` are the digit run `RunLen` measures there. */
  lemma {:induction false} LeadIsRun(t: string, i: nat, cap: nat)
    requires i <= |t| && |t| - i <= cap
    ensures LeadDigits(t[i..]) == RunLen(t, i, Digit, cap)
    decreases |t| - i
  {
    if i < |t| {
      LeadIsRun(t, i + 1, cap - 1);
      assert t[i..][1..] == t[i + 1..];
    }
  }

  /** The leading digits after one character. */
  lemma LeadStep(t: string, i: nat)
    requires i < |t|
    ensures LeadDigits(t[i..]) == if IsDigit(t[i]) then 1 + LeadDigits(t[i + 1..]) else 0
  {
    assert t[i..][1..] == t[i + 1..];
  }

  /** A character put in front: a digit lengthens the leading run by one. */
  lemma ShortCons(c: char, rest: string)
    requires ShortRuns(rest) && (IsDigit(c) ==> LeadDigits(rest) < 3)
    ensures ShortRuns([c] + rest)
    ensures LeadDigits([c] + rest) == if IsDigit(c) then 1 + LeadDigits(rest) else 0
  {
    var s := [c] + rest;
    assert s[1..] == rest;
    forall k | 1 <= k <= |s| ensures LeadDigits(s[k..]) < 4 {
      assert s[k..] == rest[k - 1..];
    }
    assert s[0..] == s;
  }

  /** A digit-free piece put in front starts no run and joins none. */
  lemma ShortAppend(a: string, rest: string)
    requires a != [] && DigitFree(a) && ShortRuns(rest)
    ensures ShortRuns(a + rest) && LeadDigits(a + rest) == 0
  {
    var s := a + rest;
    forall k | 0 <= k <= |s| ensures LeadDigits(s[k..]) < 4 {
      if k < |a| {
        assert s[k..][0] == a[k];
      } else {
        assert s[k..] == rest[k - |a|..];
      }
    }
    assert s[0..] == s;
    assert s[0] == a[0];
  }

  /** A phone match at `i` that ends at `j` leaves the placeholder. */
  lemma PhoneMatchStep(t: string, m: Matcher, repl: string, i: nat, j: nat)
    requires i < |t| && Tried(m, t, i) > 0 && j == i + Tried(m, t, i)
    requires repl != [] && DigitFree(repl)
    requires j <= |t| && ShortRuns(SubFrom(t, m, repl, j))
    ensures ShortRuns(SubFrom(t, m, repl, i)) && LeadDigits(SubFrom(t, m, repl, i)) == 0
  {
    SubFromMatch(t, m, repl, i, j);
    ShortAppend(repl, SubFrom(t, m, repl, j));
  }

  /** A character the phone pattern does not match at is kept; a kept digit
      belongs to a run of fewer than four. */
  lemma PhoneKeptStep(t: string, m: Matcher, repl: string, i: nat)
    requires i < |t| && Tried(m, t, i) == 0 && LeadDigits(t[i..]) < 4
    requires ShortRuns(SubFrom(t, m, repl, i + 1))
    requires LeadDigits(SubFrom(t, m, repl, i + 1)) <= LeadDigits(t[i + 1..])
    ensures ShortRuns(SubFrom(t, m, repl, i))
    ensures LeadDigits(SubFrom(t, m, repl, i)) <= LeadDigits(t[i..])
  {
    SubFromKept(t, m, repl, i);
    LeadStep(t, i);
    ShortCons(t[i], SubFrom(t, m, repl, i + 1));
  }

  /** `PHONE_RE.sub(repl, t[i:])` leaves no run of four or more digits, and
      starts with no more digits than `t[i:]` does. */
  lemma {:induction false} PhoneSubShort(t: string, repl: string, i: nat)
    requires i <= |t| && repl != [] && DigitFree(repl)
    ensures ShortRuns(SubFrom(t, MatcherOf(PhoneNumber), repl, i))
    ensures LeadDigits(SubFrom(t, MatcherOf(PhoneNumber), repl, i)) <= LeadDigits(t[i..])
    decreases |t| - i
  {
    if i < |t| {
      var n := Tried(MatcherOf(PhoneNumber), t, i);
      var j := if n > 0 then i + n else i + 1;
      PhoneSubShort(t, repl, j);
      TriedPattern(PhoneNumber, t, i);
      PhoneShortAt(t, MatcherOf(PhoneNumber), repl, i, j);
    }
  }

  /** One step of `PhoneSubShort`, for a matcher that finds what the phone
      pattern finds at `i`. */
  lemma PhoneShortAt(t: string, m: Matcher, repl: string, i: nat, j: nat)
    requires i < |t| && repl != [] && DigitFree(repl)
    requires Tried(m, t, i) == PhoneAt(t, i)
    requires j == (var n := Tried(m, t, i); if n > 0 then i + n else i + 1)
    requires j <= |t| && ShortRuns(SubFrom(t, m, repl, j))
    requires LeadDigits(SubFrom(t, m, repl, j)) <= LeadDigits(t[j..])
    ensures ShortRuns(SubFrom(t, m, repl, i))
    ensures LeadDigits(SubFrom(t, m, repl, i)) <= LeadDigits(t[i..])
  {
    if Tried(m, t, i) > 0 {
      PhoneMatchStep(t, m, repl, i, j);
    } else {
      LeadIsRun(t, i, |t|);
      PhoneKeptStep(t, m, repl, i);
    }
  }

  /** Replacing runs of one class by a space joins no digits. */
  lemma {:induction false} RunSubShort(t: string, k: CharClass, i: nat)
    requires i <= |t| && ShortRuns(t)
    ensures ShortRuns(RunSub(t, k, i))
    ensures LeadDigits(RunSub(t, k, i)) <= LeadDigits(t[i..])
    decreases |t| - i
  {
    if i < |t| {
      var n := RunLen(t, i, k, |t|);
      var j := if n > 0 then i + n else i + 1;
      RunSubShort(t, k, j);
      RunShortAt(t, k, i, j);
    }
  }

  /** One step of `RunSubShort`: from the position after what `i` consumes. */
  lemma RunShortAt(t: string, k: CharClass, i: nat, j: nat)
    requires i < |t| && ShortRuns(t)
    requires j == (var n := RunLen(t, i, k, |t|); if n > 0 then i + n else i + 1)
    requires j <= |t| && ShortRuns(RunSub(t, k, j)) && LeadDigits(RunSub(t, k, j)) <= LeadDigits(t[j..])
    ensures ShortRuns(RunSub(t, k, i))
    ensures LeadDigits(RunSub(t, k, i)) <= LeadDigits(t[i..])
  {
    if RunLen(t, i, k, |t|) > 0 {
      RunShortStep(t, k, i, j);
    } else {
      assert LeadDigits(t[i..]) < 4;
      RunShortKept(t, k, i);
    }
  }

  /** A run replaced by a space at `i`, ending at `j`. */
  lemma RunShortStep(t: string, k: CharClass, i: nat, j: nat)
    requires i < |t| && RunLen(t, i, k, |t|) > 0 && j == i + RunLen(t, i, k, |t|)
    requires j <= |t| && ShortRuns(RunSub(t, k, j))
    ensures ShortRuns(RunSub(t, k, i)) && LeadDigits(RunSub(t, k, i)) == 0
  {
    RunSubRun(t, k, i, j);
    ShortAppend(" ", RunSub(t, k, j));
  }

  /** A character kept at `i`. */
  lemma RunShortKept(t: string, k: CharClass, i: nat)
    requires i < |t| && RunLen(t, i, k, |t|) == 0 && LeadDigits(t[i..]) < 4
    requires ShortRuns(RunSub(t, k, i + 1))
    requires LeadDigits(RunSub(t, k, i + 1)) <= LeadDigits(t[i + 1..])
    ensures ShortRuns(RunSub(t, k, i))
    ensures LeadDigits(RunSub(t, k, i)) <= LeadDigits(t[i..])
  {
    RunSubKept(t, k, i);
    LeadStep(t, i);
    ShortCons(t[i], RunSub(t, k, i + 1));
  }

  /** A stretch of text with no long digit run has none either. */
  lemma ShortWindow(u: string, r: string, a: nat)
    requires ShortRuns(u) && a + |r| <= |u|
    requires forall k :: 0 <= k < |r| ==> r[k] == u[a + k]
    ensures ShortRuns(r)
  {
    forall k | 0 <= k <= |r| ensures LeadDigits(r[k..]) < 4 {
      assert LeadDigits(u[a + k..]) < 4;
      LeadPrefix(r[k..], u[a + k..]);
    }
  }

  /** A text whose characters begin `y` starts with no more digits than `y`. */
  lemma {:induction false} LeadPrefix(x: string, y: string)
    requires |x| <= |y| && forall k :: 0 <= k < |x| ==> x[k] == y[k]
    ensures LeadDigits(x) <= LeadDigits(y)
    decreases |x|
  {
    if x != [] && IsDigit(x[0]) {
      LeadPrefix(x[1..], y[1..]);
    }
  }

  /** Collapsing whitespace joins no digits. */
  lemma CollapseShort(t: string)
    requires ShortRuns(t)
    ensures ShortRuns(Collapse(t))
  {
    var u := RunSub(t, Space, 0);
    RunSubShort(t, Space, 0);
    var a := StripWindow(u);
    ShortWindow(u, Strip(u), a);
  }

  /** `Strip(u)` is the stretch of `u` that starts at `a`. */
  lemma StripWindow(u: string) returns (a: nat)
    ensures a + |Strip(u)| <= |u|
    ensures forall k :: 0 <= k < |Strip(u)| ==> Strip(u)[k] == u[a + k]
  {
    var l := LStrip(u);
    var r := RStrip(l);
    a := |u| - |l|;
    PrefixOfSuffix(u, l, r, a);
  }

  /** The masking steps of `sanitize_text` leave no run of four or more digits. */
  lemma MaskedShort(text: string)
    ensures ShortRuns(Masked(text))
  {
    var t1 := Substitute(text, EmailAddress, " ");
    var t2 := Substitute(t1, WebUrl, " ");
    var t3 := Substitute(t2, LongNumber, " [NUMBER] ");
    PhoneSubShort(t3, " [PHONE] ", 0);
    RunSubShort(Substitute(t3, PhoneNumber, " [PHONE] "), Dash, 0);
  }

  /** `sanitize_text` leaves no run of four or more digits: the phone step
      replaces each, and the dash and whitespace steps join none. */
  lemma SanitizeMasksLongNumbers(text: string)
    ensures ShortRuns(SanitizeText(text))
  {
    if text != [] {
      MaskedShort(text);
      CollapseShort(Masked(text));
    } else {
      assert LeadDigits(SanitizeText(text)[0..]) == 0;
    }
  }

  /** The masking steps of `sanitize_for_output` leave no run of four or more
      digits. */
  lemma LabelMaskedShort(text: string)
    ensures ShortRuns(LabelMasked(text))
  {
    var t1 := Substitute(text, EmailAddress, "[EMAIL]");
    var t2 := Substitute(t1, WebUrl, "[URL]");
    var t3 := Substitute(t2, LongNumber, "[NUMBER]");
    PhoneSubShort(t3, "[PHONE]", 0);
  }

  /** `sanitize_for_output` leaves no run of four or more digits either. */
  lemma OutputMasksLongNumbers(text: string)
    ensures ShortRuns(SanitizeForOutput(text))
  {
    if text != [] {
      LabelMaskedShort(text);
      CollapseShort(LabelMasked(text));
    } else {
      assert LeadDigits(SanitizeForOutput(text)[0..]) == 0;
    }
  }

  /** Text without digits has no long digit run. */
  lemma DigitFreeShort(s: string)
    requires DigitFree(s)
    ensures ShortRuns(s)
  {
    forall k | 0 <= k <= |s| ensures LeadDigits(s[k..]) < 4 {
      if k < |s| {
        assert s[k..][0] == s[k];
      }
    }
  }

  /** A piece found in text without long digit runs has none either. */
  lemma ContainedShort(u: string, r: string)
    requires ShortRuns(u) && Contains(u, r)
    ensures ShortRuns(r)
  {
    var a: nat :| a <= |u| && OccursAt(u, r, a);
    assert forall k :: 0 <= k < |r| ==> r[k] == u[a..a + |r|][k];
    ShortWindow(u, r, a);
  }
}
