/** `sanitize_text` and `sanitize_for_output` (app.py:259-276): personal data is
    masked, bullets and dashes become spaces, and whitespace is collapsed. */
module Sanitize {
  import opened Text
  import opened Patterns

  /** The shape `re.sub(r"\s+", " ", t).strip()` leaves: every whitespace
      character is a plain space between two non-whitespace characters. */
  predicate Tidy(s: string) {
    forall i :: 0 <= i < |s| && IsSpace(s[i]) ==> s[i] == ' ' && 0 < i < |s| - 1 && !IsSpace(s[i + 1])
  }

  /** Every whitespace character is a plain space that no whitespace follows. */
  predicate SingleSpaced(s: string) {
    forall i :: 0 <= i < |s| && IsSpace(s[i]) ==> s[i] == ' ' && (i + 1 == |s| || !IsSpace(s[i + 1]))
  }

  /** `re.sub(r"<k>+", " ", t[i:])`: each maximal run of characters of class `k`
      becomes one space, and every other character is kept. */
  function RunSub(t: string, k: CharClass, i: nat): string
    requires i <= |t|
    decreases |t| - i
  {
    if i == |t| then []
    else
      var n := RunLen(t, i, k, |t|);
      if n > 0 then " " + RunSub(t, k, i + n) else [t[i]] + RunSub(t, k, i + 1)
  }

  /** The patterns that match a run of one class: `\s+` and the dash class. */
  predicate RunPattern(p: Pattern, k: CharClass) {
    (p == SpaceRun && k == Space) || (p == DashRun && k == Dash)
  }

  /** The direct run replacement is the general substitution scan with the run's
      pattern. */
  lemma {:induction false} RunSubIsSubstitution(t: string, p: Pattern, k: CharClass, i: nat)
    requires i <= |t| && RunPattern(p, k)
    ensures RunSub(t, k, i) == SubFrom(t, MatcherOf(p), " ", i)
    decreases |t| - i
  {
    if i < |t| {
      var n := RunLen(t, i, k, |t|);
      var j := if n > 0 then i + n else i + 1;
      RunSubIsSubstitution(t, p, k, j);
      RunTried(t, p, k, i);
      SubstitutionStep(t, MatcherOf(p), k, i, j);
    }
  }

  /** One step of `RunSubIsSubstitution`: both sides consume the same characters. */
  lemma SubstitutionStep(t: string, m: Matcher, k: CharClass, i: nat, j: nat)
    requires i < |t| && Tried(m, t, i) == RunLen(t, i, k, |t|)
    requires j == (var n := RunLen(t, i, k, |t|); if n > 0 then i + n else i + 1)
    requires j <= |t| && RunSub(t, k, j) == SubFrom(t, m, " ", j)
    ensures RunSub(t, k, i) == SubFrom(t, m, " ", i)
  {
    if RunLen(t, i, k, |t|) > 0 {
      RunSubRun(t, k, i, j);
      SubFromMatch(t, m, " ", i, j);
      SameHead(RunSub(t, k, i), SubFrom(t, m, " ", i), " ", RunSub(t, k, j), SubFrom(t, m, " ", j));
    } else {
      RunSubKept(t, k, i);
      SubFromKept(t, m, " ", i);
      SameHead(RunSub(t, k, i), SubFrom(t, m, " ", i), [t[i]], RunSub(t, k, j), SubFrom(t, m, " ", j));
    }
  }

  /** A run of class `k` at `i`, ending at `j`, becomes one space. */
  lemma RunSubRun(t: string, k: CharClass, i: nat, j: nat)
    requires i < |t| && RunLen(t, i, k, |t|) > 0 && j == i + RunLen(t, i, k, |t|)
    ensures j <= |t| && RunSub(t, k, i) == " " + RunSub(t, k, j)
  {
  }

  /** A character outside class `k` is kept. */
  lemma RunSubKept(t: string, k: CharClass, i: nat)
    requires i < |t| && RunLen(t, i, k, |t|) == 0
    ensures RunSub(t, k, i) == [t[i]] + RunSub(t, k, i + 1)
  {
  }

  /** Two texts that start alike and go on alike are equal. */
  lemma SameHead(a: string, b: string, h: string, x: string, y: string)
    requires a == h + x && b == h + y && x == y
    ensures a == b
  {
  }




  /** A run matcher tried at `i` takes the run of its class there. */
  lemma RunTried(t: string, p: Pattern, k: CharClass, i: nat)
    requires i <= |t| && RunPattern(p, k)
    ensures Tried(MatcherOf(p), t, i) == RunLen(t, i, k, |t|)
  {
    TriedPattern(p, t, i);
  }

  /** `re.sub(r"\s+", " ", t)` leaves single spaces, and its first character is
      whitespace exactly when the input's is. */
  lemma {:induction false} SpaceSubSingle(t: string, i: nat)
    requires i <= |t|
    ensures SingleSpaced(RunSub(t, Space, i))
    ensures i < |t| ==> RunSub(t, Space, i) != [] && (IsSpace(RunSub(t, Space, i)[0]) <==> IsSpace(t[i]))
    decreases |t| - i
  {
    if i < |t| {
      var n := RunLen(t, i, Space, |t|);
      var k := if n > 0 then i + n else i + 1;
      SpaceSubSingle(t, k);
      if n > 0 {
        assert k < |t| ==> !IsSpace(t[k]);
        SingleCons(' ', RunSub(t, Space, k));
        assert RunSub(t, Space, i) == [' '] + RunSub(t, Space, k);
      } else {
        assert !IsSpace(t[i]);
        SingleCons(t[i], RunSub(t, Space, k));
        assert RunSub(t, Space, i) == [t[i]] + RunSub(t, Space, k);
      }
    }
  }

  /** A character put before a single-spaced string keeps it single-spaced, unless
      it is whitespace and the string starts with whitespace. */
  lemma SingleCons(c: char, rest: string)
    requires SingleSpaced(rest)
    requires IsSpace(c) ==> c == ' ' && (rest == [] || !IsSpace(rest[0]))
    ensures SingleSpaced([c] + rest)
  {
    var r := [c] + rest;
    forall i | 0 < i < |r| ensures r[i] == rest[i - 1] {
    }
  }

  /** `re.sub(r"\s+", " ", t)` keeps every non-whitespace character, in order. */
  lemma {:induction false} SpaceSubKeepsNonSpace(t: string, i: nat)
    requires i <= |t|
    ensures NonSpaceChars(RunSub(t, Space, i)) == NonSpaceChars(t[i..])
    decreases |t| - i
  {
    if i < |t| {
      var n := RunLen(t, i, Space, |t|);
      SpaceSubKeepsNonSpace(t, if n > 0 then i + n else i + 1);
      KeepsNonSpaceStep(t, i);
    }
  }

  /** One step of `SpaceSubKeepsNonSpace`. */
  lemma KeepsNonSpaceStep(t: string, i: nat)
    requires i < |t|
    requires var n := RunLen(t, i, Space, |t|);
             var k := if n > 0 then i + n else i + 1;
             NonSpaceChars(RunSub(t, Space, k)) == NonSpaceChars(t[k..])
    ensures NonSpaceChars(RunSub(t, Space, i)) == NonSpaceChars(t[i..])
  {
    if RunLen(t, i, Space, |t|) > 0 {
      KeepsNonSpaceRun(t, i);
    } else {
      KeepsNonSpaceOther(t, i);
    }
  }

  /** The step of `SpaceSubKeepsNonSpace` at a run of whitespace. */
  lemma KeepsNonSpaceRun(t: string, i: nat)
    requires i < |t| && RunLen(t, i, Space, |t|) > 0
    requires var n := RunLen(t, i, Space, |t|);
             NonSpaceChars(RunSub(t, Space, i + n)) == NonSpaceChars(t[i + n..])
    ensures NonSpaceChars(RunSub(t, Space, i)) == NonSpaceChars(t[i..])
  {
    var n := RunLen(t, i, Space, |t|);
    var rest := RunSub(t, Space, i + n);
    assert RunSub(t, Space, i) == [' '] + rest;
    assert IsSpace(' ');
    NonSpaceCharsCons(' ', rest);
    forall k | i <= k < i + n ensures IsSpace(t[k]) {
      assert InClass(Space, t[k]);
    }
    SkipSpaces(t, i, i + n);
  }

  /** The step of `SpaceSubKeepsNonSpace` at any other character. */
  lemma KeepsNonSpaceOther(t: string, i: nat)
    requires i < |t| && RunLen(t, i, Space, |t|) == 0
    requires NonSpaceChars(RunSub(t, Space, i + 1)) == NonSpaceChars(t[i + 1..])
    ensures NonSpaceChars(RunSub(t, Space, i)) == NonSpaceChars(t[i..])
  {
    var rest := RunSub(t, Space, i + 1);
    assert RunSub(t, Space, i) == [t[i]] + rest;
    NonSpaceCharsCons(t[i], rest);
    assert t[i..] == [t[i]] + t[i + 1..];
    NonSpaceCharsCons(t[i], t[i + 1..]);
  }

  /** On a string already in that shape, `re.sub(r"\s+", " ", t)` changes nothing. */
  lemma {:induction false} SpaceSubOfSingle(t: string, i: nat)
    requires i <= |t| && SingleSpaced(t)
    ensures RunSub(t, Space, i) == t[i..]
    decreases |t| - i
  {
    if i < |t| {
      var n := RunLen(t, i, Space, |t|);
      if n > 0 {
        assert IsSpace(t[i]);
        assert i + 1 < |t| ==> !IsSpace(t[i + 1]);
        SpaceSubOfSingle(t, i + 1);
        assert t[i..] == [t[i]] + t[i + 1..];
      } else {
        SpaceSubOfSingle(t, i + 1);
        assert t[i..] == [t[i]] + t[i + 1..];
      }
    }
  }

  /** Stripping a single-spaced string leaves a tidy one. */
  lemma StripTidy(u: string)
    requires SingleSpaced(u)
    ensures Tidy(Strip(u))
  {
    var l := LStrip(u);
    var r := RStrip(l);
    var a := |u| - |l|;
    PrefixOfSuffix(u, l, r, a);
    TidyWindow(u, r, a);
  }

  /** A prefix of a suffix, indexed in the whole text. */
  lemma PrefixOfSuffix(u: string, l: string, r: string, a: nat)
    requires a <= |u| && l == u[a..] && |r| <= |l| && r == l[..|r|]
    ensures a + |r| <= |u| && forall k :: 0 <= k < |r| ==> r[k] == u[a + k]
  {
  }

  /** A stretch of single-spaced text with no whitespace at either end is tidy. */
  lemma TidyWindow(u: string, r: string, a: nat)
    requires SingleSpaced(u) && a + |r| <= |u|
    requires forall k :: 0 <= k < |r| ==> r[k] == u[a + k]
    requires r == [] || (!IsSpace(r[0]) && !IsSpace(r[|r| - 1]))
    ensures Tidy(r)
  {
    forall i | 0 <= i < |r| && IsSpace(r[i])
      ensures r[i] == ' ' && 0 < i < |r| - 1 && !IsSpace(r[i + 1])
    {
      assert r[i] == u[a + i];
      assert i != 0 && i != |r| - 1;
      assert r[i + 1] == u[a + i + 1];
    }
  }

  /** `s` ends with whitespace. */
  predicate EndsSpace(s: string) {
    s != [] && IsSpace(s[|s| - 1])
  }

  /** From a position that does not hold whitespace, the whitespace replacement
      gives the words joined by single spaces, and one more space when the text
      ends with whitespace. */
  lemma {:induction false} RunSubWords(t: string, i: nat)
    requires i <= |t| && (i == |t| || !IsSpace(t[i]))
    ensures RunSub(t, Space, i) == Spaced(t, i)
    decreases |t| - i
  {
    if i < |t| {
      var j := i + 1 + RunLen(t, i + 1, Space, |t|);
      RunSubWords(t, j);
      WordsStep(t, i, j);
    }
  }

  /** One step of `RunSubWords`: from the position after the next run of
      whitespace back to `i`. */
  lemma WordsStep(t: string, i: nat, j: nat)
    requires i < |t| && !IsSpace(t[i]) && j == i + 1 + RunLen(t, i + 1, Space, |t|)
    requires j <= |t| && RunSub(t, Space, j) == Spaced(t, j)
    ensures RunSub(t, Space, i) == Spaced(t, i)
  {
    if i + 1 < |t| && !IsSpace(t[i + 1]) {
      NoRun(t, i + 1);
      WordsLonger(t, i);
    } else {
      WordsBreak(t, i, j);
    }
  }

  /** The words of `t[i..]` joined by single spaces, with one more space when
      `t[i..]` ends with whitespace. */
  function Spaced(t: string, i: nat): string
    requires i <= |t|
  {
    Join(" ", SplitWs(t[i..])) + (if EndsSpace(t[i..]) then " " else [])
  }

  /** No run of whitespace starts at a character that is not whitespace. */
  lemma NoRun(t: string, i: nat)
    requires i < |t| && !IsSpace(t[i])
    ensures RunLen(t, i, Space, |t|) == 0
  {
    assert !InClass(Space, t[i]);
  }

  /** The replacement keeps a character that is not whitespace. */
  lemma RunSubKeep(t: string, i: nat)
    requires i < |t| && !IsSpace(t[i])
    ensures RunSub(t, Space, i) == [t[i]] + RunSub(t, Space, i + 1)
  {
    NoRun(t, i);
  }

  /** The replacement puts one space for a run of whitespace. */
  lemma RunSubSpace(t: string, i: nat)
    requires i < |t| && IsSpace(t[i])
    ensures RunSub(t, Space, i) == " " + RunSub(t, Space, i + RunLen(t, i, Space, |t|))
  {
    assert InClass(Space, t[i]);
  }

  /** The step of `RunSubWords` inside a word. */
  lemma WordsLonger(t: string, i: nat)
    requires i + 1 < |t| && !IsSpace(t[i]) && !IsSpace(t[i + 1])
    requires RunSub(t, Space, i + 1) == Spaced(t, i + 1)
    ensures RunSub(t, Space, i) == Spaced(t, i)
  {
    var ws := SplitWs(t[i + 1..]);
    assert SplitWs(t[i..]) == [[t[i]] + ws[0]] + ws[1..] by {
      SplitWsLongerAt(t, i);
    }
    assert Join(" ", SplitWs(t[i..])) == [t[i]] + Join(" ", ws) by {
      JoinHeadCons(" ", t[i], ws);
    }
    assert EndsSpace(t[i..]) == EndsSpace(t[i + 1..]);
    RunSubKeep(t, i);
  }

  /** The step of `RunSubWords` at the last character of a word. */
  lemma WordsBreak(t: string, i: nat, j: nat)
    requires i < |t| && !IsSpace(t[i]) && (i + 1 == |t| || IsSpace(t[i + 1]))
    requires j == i + 1 + RunLen(t, i + 1, Space, |t|)
    requires j <= |t| && RunSub(t, Space, j) == Spaced(t, j)
    ensures RunSub(t, Space, i) == Spaced(t, i)
  {
    RunSubKeep(t, i);
    if i + 1 == |t| {
      WordsEnd(t, i);
    } else {
      WordsGap(t, i, j);
    }
  }

  /** `WordsBreak` at the end of the text. */
  lemma WordsEnd(t: string, i: nat)
    requires i + 1 == |t| && !IsSpace(t[i])
    ensures [t[i]] + RunSub(t, Space, i + 1) == Spaced(t, i)
  {
    assert t[i..] == [t[i]];
    SplitWsSingle(t[i..]);
    assert t[i..][1..] == [];
    assert SplitWs(t[i..]) == [[t[i]]];
  }

  /** `WordsBreak` before a run of whitespace. */
  lemma WordsGap(t: string, i: nat, j: nat)
    requires i + 1 < |t| && !IsSpace(t[i]) && IsSpace(t[i + 1])
    requires j == i + 1 + RunLen(t, i + 1, Space, |t|)
    requires j <= |t| && RunSub(t, Space, j) == Spaced(t, j)
    ensures [t[i]] + RunSub(t, Space, i + 1) == Spaced(t, i)
  {
    RunSubSpaceTo(t, i + 1, j);
    SpacedAfterWord(t, i, j);
    GapChain(t[i], RunSub(t, Space, i + 1), RunSub(t, Space, j), Spaced(t, j), Spaced(t, i));
  }

  /** `RunSubSpace` with the end `j` of the run given. */
  lemma RunSubSpaceTo(t: string, i: nat, j: nat)
    requires i < |t| && IsSpace(t[i]) && j == i + RunLen(t, i, Space, |t|)
    ensures j <= |t| && RunSub(t, Space, i) == " " + RunSub(t, Space, j)
  {
    RunSubSpace(t, i);
  }

  /** `SpacedGap` at the end `j` of the run of whitespace after `t[i]`. */
  lemma SpacedAfterWord(t: string, i: nat, j: nat)
    requires i + 1 < |t| && !IsSpace(t[i]) && IsSpace(t[i + 1])
    requires j == i + 1 + RunLen(t, i + 1, Space, |t|)
    ensures j <= |t| && Spaced(t, i) == [t[i]] + " " + Spaced(t, j)
  {
    assert forall k :: i + 1 <= k < j ==> InClass(Space, t[k]);
    assert j < |t| ==> !InClass(Space, t[j]);
    SpacedGap(t, i, j);
  }

  /** The equations of `WordsGap` put together. */
  lemma GapChain(c: char, x: string, y: string, z: string, w: string)
    requires x == " " + y && y == z && w == [c] + " " + z
    ensures [c] + x == w
  {
  }

  /** A one-character word, a run of whitespace up to `j`, and what follows. */
  lemma SpacedGap(t: string, i: nat, j: nat)
    requires i + 1 < j <= |t| && !IsSpace(t[i]) && (j == |t| || !IsSpace(t[j]))
    requires forall k :: i + 1 <= k < j ==> IsSpace(t[k])
    ensures Spaced(t, i) == [t[i]] + " " + Spaced(t, j)
  {
    var ws := SplitWs(t[j..]);
    assert SplitWs(t[i..]) == [[t[i]]] + ws by {
      SplitWsSingleAt(t, i);
      SplitWsSkip(t, i + 1, j);
    }
    WordsAfterRun(t, j);
    if ws == [] {
      assert t[i..][|t[i..]| - 1] == t[j - 1];
      assert SplitWs(t[i..]) == [[t[i]]];
    } else {
      assert t[i..][|t[i..]| - 1] == t[j..][|t[j..]| - 1];
      assert ([[t[i]]] + ws)[1..] == ws;
      assert Join(" ", [[t[i]]] + ws) == [t[i]] + " " + Join(" ", ws);
    }
  }

  /** Concatenation regrouped: `a + (b + c)` is `a + b + c`. */
  lemma Regroup(a: string, b: string, c: string)
    ensures a + (b + c) == a + b + c
  {
  }

  /** Where a run of whitespace stops, either the text ends or a word starts. */
  lemma WordsAfterRun(t: string, j: nat)
    requires j <= |t| && (j == |t| || !IsSpace(t[j]))
    ensures SplitWs(t[j..]) == [] <==> j == |t|
  {
    if j < |t| {
      SplitWsHead(t[j..]);
    }
  }

  /** `re.sub(r"\s+", " ", t).strip()` */
  function Collapse(t: string): (r: string)
    ensures r == Join(" ", SplitWs(t))
    ensures Tidy(r)
    ensures NonSpaceChars(r) == NonSpaceChars(t)
  {
    var u := RunSub(t, Space, 0);
    CollapseWords(t);
    SpaceSubSingle(t, 0);
    StripTidy(u);
    SpaceSubKeepsNonSpace(t, 0);
    StripKeepsNonSpace(u);
    assert t[0..] == t;
    Strip(u)
  }

  /** `re.sub(r"\s+", " ", t).strip()` is `" ".join(t.split())`. */
  lemma CollapseWords(t: string)
    ensures Strip(RunSub(t, Space, 0)) == Join(" ", SplitWs(t))
  {
    var n := RunLen(t, 0, Space, |t|);
    var ws := SplitWs(t[n..]);
    var lead: string := if n > 0 then " " else [];
    var trail: string := if EndsSpace(t[n..]) then " " else [];
    LeadingRun(t);
    AfterLeadingRun(t);
    Regroup(lead, Join(" ", ws), trail);
    SplitWsWords(t[n..]);
    assert SplitWs(t) == ws by {
      SplitWsRun(t, 0);
      assert t[0..] == t;
    }
    StripSpacedWords(lead, ws, trail);
  }

  /** Words joined by single spaces lose only the padding around them to `strip`. */
  lemma StripSpacedWords(lead: string, ws: seq<string>, trail: string)
    requires forall k :: 0 <= k < |lead| ==> IsSpace(lead[k])
    requires forall k :: 0 <= k < |trail| ==> IsSpace(trail[k])
    requires forall w :: w in ws ==> IsWord(w)
    ensures Strip(lead + Join(" ", ws) + trail) == Join(" ", ws)
  {
    JoinWordsEnds(ws);
    StripPadded(lead, Join(" ", ws), trail);
  }

  /** Leading whitespace becomes one space. */
  lemma LeadingRun(t: string)
    ensures var n := RunLen(t, 0, Space, |t|);
            RunSub(t, Space, 0) == (if n > 0 then " " else []) + RunSub(t, Space, n)
  {
    var n := RunLen(t, 0, Space, |t|);
    if n > 0 {
      assert IsSpace(t[0]) by { assert InClass(Space, t[0]); }
      RunSubSpace(t, 0);
    } else {
      assert RunSub(t, Space, 0) == [] + RunSub(t, Space, n);
    }
  }

  /** After the leading whitespace, the replacement gives the spaced words. */
  lemma AfterLeadingRun(t: string)
    ensures var n := RunLen(t, 0, Space, |t|);
            RunSub(t, Space, n) == Join(" ", SplitWs(t[n..])) + (if EndsSpace(t[n..]) then " " else [])
  {
    var n := RunLen(t, 0, Space, |t|);
    assert n < |t| ==> !InClass(Space, t[n]);
    RunSubWords(t, n);
  }


  /** Collapsing keeps only characters of its input, and spaces. */
  lemma CollapseChars(t: string)
    ensures forall c :: c in Collapse(t) ==> c in t || c == ' '
  {
    var u := RunSub(t, Space, 0);
    RunSubIsSubstitution(t, SpaceRun, Space, 0);
    SubFromKeeps(t, MatcherOf(SpaceRun), " ", 0, c => c in t || c == ' ');
    StripChars(u);
  }

  lemma CollapseKeepsDashFree(m: string)
    requires forall c :: c in m ==> !InClass(Dash, c)
    ensures forall c :: c in Collapse(m) ==> !InClass(Dash, c)
  {
    CollapseChars(m);
    SpaceOrKept(m, Collapse(m), Dash);
  }

  /** Characters taken from `m` or spaces avoid a class that `m` and the space avoid. */
  lemma SpaceOrKept(m: string, r: string, k: CharClass)
    requires forall c :: c in r ==> c in m || c == ' '
    requires !InClass(k, ' ') && forall c :: c in m ==> !InClass(k, c)
    ensures forall c :: c in r ==> !InClass(k, c)
  {
  }

  lemma CollapseKeepsDigitFree(m: string)
    requires DigitFree(m)
    ensures DigitFree(Collapse(m))
  {
    CollapseChars(m);
    var r := Collapse(m);
    assert forall k :: 0 <= k < |r| ==> r[k] in r;
    assert forall k :: 0 <= k < |m| ==> m[k] in m;
  }

  /** A tidy string has no leading or trailing whitespace. */
  lemma TidyStripped(s: string)
    requires Tidy(s)
    ensures Strip(s) == s
  {
    if s != [] {
      assert !IsSpace(s[0]) && !IsSpace(s[|s| - 1]);
    }
  }

  /** A tidy string has no line break, so `splitlines` gives it back whole. */
  lemma TidyNoLineBreak(s: string)
    requires Tidy(s)
    ensures forall i :: 0 <= i < |s| ==> !IsLineBreak(s[i])
  {
  }

  /** Collapsing is idempotent: a tidy string is its own collapse. */
  lemma CollapseTidy(s: string)
    requires Tidy(s)
    ensures Collapse(s) == s
  {
    assert SingleSpaced(s);
    SpaceSubOfSingle(s, 0);
    assert s[0..] == s;
    TidyStripped(s);
  }

  /** `re.sub(r"[•\-\—\–]+", " ", t)` */
  function Undash(t: string): (r: string)
    ensures r == RunSub(t, Dash, 0)
    ensures forall c :: c in r ==> !InClass(Dash, c)
  {
    RunSubIsSubstitution(t, DashRun, Dash, 0);
    assert forall j :: 0 <= j < |t| && Tried(MatcherOf(DashRun), t, j) == 0 ==> !InClass(Dash, t[j]) by {
      forall j | 0 <= j < |t| && Tried(MatcherOf(DashRun), t, j) == 0 {
        TriedPattern(DashRun, t, j);
      }
    }
    SubFromKeeps(t, MatcherOf(DashRun), " ", 0, c => !InClass(Dash, c));
    Substitute(t, DashRun, " ")
  }

  lemma UndashDigitFree(t: string)
    requires DigitFree(t)
    ensures DigitFree(Undash(t))
  {
    SubstituteDigitFree(t, DashRun, " ");
  }

  /** The substitutions `sanitize_text` makes before collapsing whitespace. */
  function Masked(text: string): (r: string)
    ensures forall c :: c in r ==> !InClass(Dash, c)
  {
    var t := Substitute(text, EmailAddress, " ");
    var t := Substitute(t, WebUrl, " ");
    var t := Substitute(t, LongNumber, " [NUMBER] ");
    var t := Substitute(t, PhoneNumber, " [PHONE] ");
    Undash(t)
  }

  /** `sanitize_text`: empty in, empty out; otherwise tidy, and with no bullet or dash left. */
  function SanitizeText(text: string): (r: string)
    ensures text == [] ==> r == []
    ensures Tidy(r)
    ensures forall c :: c in r ==> !InClass(Dash, c)
  {
    if text == [] then []
    else
      var m := Masked(text);
      CollapseKeepsDashFree(m);
      Collapse(m)
  }

  /** `sanitize_for_output`: the same masking with labelled placeholders and no dash step. */
  function SanitizeForOutput(text: string): (r: string)
    ensures text == [] ==> r == []
    ensures Tidy(r)
  {
    if text == [] then [] else Collapse(LabelMasked(text))
  }

  /** The substitutions `sanitize_for_output` makes before collapsing whitespace. */
  function LabelMasked(text: string): string {
    var t := Substitute(text, EmailAddress, "[EMAIL]");
    var t := Substitute(t, WebUrl, "[URL]");
    var t := Substitute(t, LongNumber, "[NUMBER]");
    Substitute(t, PhoneNumber, "[PHONE]")
  }

  /** The placeholders `sanitize_text` puts in hold no digit. */
  lemma PlaceholdersDigitFree()
    ensures DigitFree(" ") && DigitFree(" [NUMBER] ") && DigitFree(" [PHONE] ")
  {
  }

  lemma MaskedDigitFree(text: string)
    requires DigitFree(text)
    ensures DigitFree(Masked(text))
  {
    PlaceholdersDigitFree();
    var t1 := Substitute(text, EmailAddress, " ");
    SubstituteDigitFree(text, EmailAddress, " ");
    var t2 := Substitute(t1, WebUrl, " ");
    SubstituteDigitFree(t1, WebUrl, " ");
    var t3 := Substitute(t2, LongNumber, " [NUMBER] ");
    SubstituteDigitFree(t2, LongNumber, " [NUMBER] ");
    var t4 := Substitute(t3, PhoneNumber, " [PHONE] ");
    SubstituteDigitFree(t3, PhoneNumber, " [PHONE] ");
    UndashDigitFree(t4);
  }

  /** Sanitizing digit-free text adds no digit: the placeholders hold none. */
  lemma SanitizeDigitFree(text: string)
    requires DigitFree(text)
    ensures DigitFree(SanitizeText(text))
  {
    if text != [] {
      MaskedDigitFree(text);
      CollapseKeepsDigitFree(Masked(text));
    }
  }

  /** Sanitized text is a fixed point of the final whitespace step. */
  lemma SanitizeCollapsed(text: string)
    ensures Collapse(SanitizeText(text)) == SanitizeText(text)
    ensures Strip(SanitizeText(text)) == SanitizeText(text)
  {
    CollapseTidy(SanitizeText(text));
    TidyStripped(SanitizeText(text));
  }
}
