/** `top_lines` and `find_best_project_line` (app.py:302-305, 413-428): the
    non-blank lines of a resume, longest first, and the one that best matches a role. */
module Lines {
  import opened Text
  import opened Patterns

  /** The first line break at or after `i`, or `|s|`. */
  function LineEnd(s: string, i: nat): (j: nat)
    requires i <= |s|
    ensures i <= j <= |s|
    ensures forall k :: i <= k < j ==> !IsLineBreak(s[k])
    ensures j < |s| ==> IsLineBreak(s[j])
    decreases |s| - i
  {
    if i == |s| || IsLineBreak(s[i]) then i else LineEnd(s, i + 1)
  }

  /** The pieces of `s` between line breaks. `str.splitlines` differs only in
      dropping one empty last piece and in treating "\r\n" as one break; both
      differences are empty pieces, which every caller here throws away. */
  function Pieces(s: string): (r: seq<string>)
    ensures forall m, k :: 0 <= m < |r| && 0 <= k < |r[m]| ==> !IsLineBreak(r[m][k])
    decreases |s|
  {
    var j := LineEnd(s, 0);
    if j == |s| then [s] else [s[..j]] + Pieces(s[j + 1..])
  }

  /** The line breaks of `s`, in order. */
  function Breaks(s: string): (r: seq<char>)
    ensures forall k :: 0 <= k < |r| ==> IsLineBreak(r[k])
    decreases |s|
  {
    if s == [] then [] else (if IsLineBreak(s[0]) then [s[0]] else []) + Breaks(s[1..])
  }

  /** The pieces put back together with the breaks between neighbours. */
  function Rejoin(ps: seq<string>, bs: seq<char>): string
    requires |ps| == |bs| + 1
    decreases |bs|
  {
    if bs == [] then ps[0] else ps[0] + [bs[0]] + Rejoin(ps[1..], bs[1..])
  }

  /** `Breaks` does not see a prefix without line breaks. */
  lemma {:induction false} BreaksSkip(s: string, i: nat)
    requires i <= |s| && forall k :: 0 <= k < i ==> !IsLineBreak(s[k])
    ensures Breaks(s) == Breaks(s[i..])
    decreases i
  {
    if i > 0 {
      assert s[1..][i - 1..] == s[i..];
      BreaksSkip(s[1..], i - 1);
      assert Breaks(s) == [] + Breaks(s[1..]);
    }
  }

  /** The pieces are what lies between the line breaks: one more piece than
      breaks, and putting the breaks back between them gives `s` again. */
  lemma {:induction false} PiecesRejoin(s: string)
    ensures |Pieces(s)| == |Breaks(s)| + 1
    ensures Rejoin(Pieces(s), Breaks(s)) == s
    decreases |s|
  {
    var j := LineEnd(s, 0);
    if j == |s| {
      BreaksSkip(s, j);
      assert s[j..] == [];
    } else {
      var rest := s[j + 1..];
      PiecesRejoin(rest);
      PiecesStep(s, j);
      RejoinCons(s[..j], s[j], Pieces(rest), Breaks(rest));
      SplitAround(s, j);
    }
  }

  lemma SplitAround(s: string, j: nat)
    requires j < |s|
    ensures s == s[..j] + [s[j]] + s[j + 1..]
  {
  }

  /** Up to the first line break at `j`: one piece and one break. */
  lemma PiecesStep(s: string, j: nat)
    requires j == LineEnd(s, 0) && j < |s|
    ensures Pieces(s) == [s[..j]] + Pieces(s[j + 1..])
    ensures Breaks(s) == [s[j]] + Breaks(s[j + 1..])
  {
    BreaksSkip(s, j);
    BreaksAt(s[j..], s[j + 1..]);
  }

  /** A text that starts with a line break. */
  lemma BreaksAt(u: string, rest: string)
    requires u != [] && IsLineBreak(u[0]) && rest == u[1..]
    ensures Breaks(u) == [u[0]] + Breaks(rest)
  {
  }

  lemma RejoinCons(p: string, b: char, ps: seq<string>, bs: seq<char>)
    requires |ps| == |bs| + 1
    ensures Rejoin([p] + ps, [b] + bs) == p + [b] + Rejoin(ps, bs)
  {
    assert ([p] + ps)[1..] == ps;
    assert ([b] + bs)[1..] == bs;
  }

  /** A line as the list comprehension keeps it: stripped and not blank. */
  predicate IsStrippedLine(l: string) {
    l != [] && !IsSpace(l[0]) && !IsSpace(l[|l| - 1]) && forall k :: 0 <= k < |l| ==> !IsLineBreak(l[k])
  }

  /** No piece holds a line break. */
  predicate NoBreaks(ps: seq<string>) {
    forall m, k :: 0 <= m < |ps| && 0 <= k < |ps[m]| ==> !IsLineBreak(ps[m][k])
  }

  function StripAll(ps: seq<string>): (r: seq<string>)
    requires NoBreaks(ps)
    ensures forall m :: 0 <= m < |r| ==> IsStrippedLine(r[m])
  {
    if ps == [] then []
    else
      var l := Strip(ps[0]);
      NoBreaksSplit(ps);
      StrippedPiece(ps[0]);
      var rest := StripAll(ps[1..]);
      if l == [] then rest
      else
        StrippedCons(l, rest);
        [l] + rest
  }

  lemma StrippedCons(l: string, rest: seq<string>)
    requires IsStrippedLine(l)
    requires forall m :: 0 <= m < |rest| ==> IsStrippedLine(rest[m])
    ensures forall m :: 0 <= m < |rest| + 1 ==> IsStrippedLine(([l] + rest)[m])
  {
    forall m | 0 <= m < |rest| ensures ([l] + rest)[m + 1] == rest[m] {
    }
  }

  lemma NoBreaksSplit(ps: seq<string>)
    requires ps != [] && NoBreaks(ps)
    ensures NoBreaks(ps[1..])
    ensures forall k :: 0 <= k < |ps[0]| ==> !IsLineBreak(ps[0][k])
  {
    forall m, k | 0 <= m < |ps| - 1 && 0 <= k < |ps[1..][m]| ensures !IsLineBreak(ps[1..][m][k]) {
      assert ps[1..][m] == ps[m + 1];
    }
  }

  /** A piece without line breaks, stripped, is empty or a stripped line. */
  lemma StrippedPiece(p: string)
    requires forall k :: 0 <= k < |p| ==> !IsLineBreak(p[k])
    ensures Strip(p) == [] || IsStrippedLine(Strip(p))
  {
    var l := Strip(p);
    StripChars(p);
    assert forall k :: 0 <= k < |l| ==> l[k] in p;
  }

  /** `[l.strip() for l in text.splitlines() if l.strip()]` */
  function NonBlankLines(text: string): (r: seq<string>)
    ensures forall m :: 0 <= m < |r| ==> IsStrippedLine(r[m])
  {
    StripAll(Pieces(text))
  }

  /** The text has no non-blank line exactly when it is all whitespace. */
  lemma NonBlankLinesEmpty(text: string)
    ensures NonBlankLines(text) == [] <==> forall k :: 0 <= k < |text| ==> IsSpace(text[k])
  {
    StripAllEmpty(text);
  }

  lemma {:induction false} StripAllEmpty(s: string)
    ensures StripAll(Pieces(s)) == [] <==> forall k :: 0 <= k < |s| ==> IsSpace(s[k])
    decreases |s|
  {
    var j := LineEnd(s, 0);
    if j == |s| {
      StripAllCons(s, []);
    } else {
      var rest := s[j + 1..];
      StripAllEmpty(rest);
      assert Pieces(s) == [s[..j]] + Pieces(rest);
      StripAllCons(s[..j], Pieces(rest));
      AllSpaceAround(s, j, s[..j], rest);
    }
  }

  /** A piece in front adds a line exactly when it is not blank. */
  lemma StripAllCons(p: string, ps: seq<string>)
    requires NoBreaks([p] + ps)
    ensures NoBreaks(ps)
    ensures StripAll([p] + ps) == [] <==> Strip(p) == [] && StripAll(ps) == []
  {
    assert ([p] + ps)[0] == p && ([p] + ps)[1..] == ps;
    NoBreaksSplit([p] + ps);
  }

  /** `s` is all whitespace when the parts `a` and `b` around the line break at `j` are. */
  lemma AllSpaceAround(s: string, j: nat, a: string, b: string)
    requires j < |s| && IsLineBreak(s[j]) && a == s[..j] && b == s[j + 1..]
    ensures (forall k :: 0 <= k < |s| ==> IsSpace(s[k]))
            <==> (forall k :: 0 <= k < |a| ==> IsSpace(a[k])) && (forall k :: 0 <= k < |b| ==> IsSpace(b[k]))
  {
    assert forall k :: 0 <= k < |a| ==> a[k] == s[k];
    assert forall k :: 0 <= k < |b| ==> b[k] == s[j + 1 + k];
    assert forall k :: j < k < |s| ==> s[k] == b[k - j - 1];
  }



  /** Longest first: `sorted(..., key=lambda s: -len(s))` puts no line after a shorter one. */
  predicate NonIncreasing(s: seq<string>) {
    forall i, j :: 0 <= i < j < |s| ==> |s[i]| >= |s[j]|
  }

  /** The elements of length `n`, in order. */
  function WithLength(s: seq<string>, n: nat): seq<string> {
    if s == [] then [] else (if |s[0]| == n then [s[0]] else []) + WithLength(s[1..], n)
  }

  /** Insertion into a longest-first list, after every element at least as long. */
  function InsertByLength(x: string, r: seq<string>): (q: seq<string>)
    ensures |q| == |r| + 1
  {
    if r == [] then [x]
    else if |r[0]| < |x| then [x] + r
    else [r[0]] + InsertByLength(x, r[1..])
  }

  /** A stable sort on `-len(s)`: insertion of each element in turn. */
  function SortByLength(s: seq<string>): (r: seq<string>)
    ensures |r| == |s|
  {
    if s == [] then [] else InsertByLength(s[|s| - 1], SortByLength(s[..|s| - 1]))
  }

  lemma {:induction false} WithLengthAppend(a: seq<string>, b: seq<string>, n: nat)
    ensures WithLength(a + b, n) == WithLength(a, n) + WithLength(b, n)
    decreases |a|
  {
    if a == [] {
      assert a + b == b;
    } else {
      var h := if |a[0]| == n then [a[0]] else [];
      assert (a + b)[0] == a[0];
      assert (a + b)[1..] == a[1..] + b;
      WithLengthAppend(a[1..], b, n);
      assert WithLength(a + b, n) == h + (WithLength(a[1..], n) + WithLength(b, n));
      assert WithLength(a, n) == h + WithLength(a[1..], n);
    }
  }

  /** In a longest-first list nothing is longer than the head. */
  lemma {:induction false} WithLengthNone(r: seq<string>, n: nat)
    requires NonIncreasing(r) && (r == [] || |r[0]| < n)
    ensures WithLength(r, n) == []
    decreases |r|
  {
    if r != [] {
      WithLengthNone(r[1..], n);
    }
  }

  lemma {:induction false} InsertNonIncreasing(x: string, r: seq<string>)
    requires NonIncreasing(r)
    ensures NonIncreasing(InsertByLength(x, r))
    ensures InsertByLength(x, r) != [] && |InsertByLength(x, r)[0]| == (if r != [] && |r[0]| >= |x| then |r[0]| else |x|)
    decreases |r|
  {
    if r != [] && |r[0]| >= |x| {
      InsertNonIncreasing(x, r[1..]);
    }
  }

  lemma {:induction false} InsertMultiset(x: string, r: seq<string>)
    ensures multiset(InsertByLength(x, r)) == multiset(r) + multiset{x}
    decreases |r|
  {
    if r != [] && |r[0]| >= |x| {
      InsertMultiset(x, r[1..]);
      assert r == [r[0]] + r[1..];
    }
  }

  lemma {:induction false} InsertWithLength(x: string, r: seq<string>, n: nat)
    requires NonIncreasing(r)
    ensures WithLength(InsertByLength(x, r), n) == WithLength(r, n) + WithLength([x], n)
    decreases |r|
  {
    if r == [] {
    } else if |r[0]| < |x| {
      var q := [x] + r;
      assert q[1..] == r;
      if n == |x| {
        WithLengthNone(r, n);
      }
    } else {
      InsertWithLength(x, r[1..], n);
      var q := [r[0]] + InsertByLength(x, r[1..]);
      assert q[1..] == InsertByLength(x, r[1..]);
    }
  }

  /** The sort is a longest-first permutation that keeps the order of equal lengths. */
  lemma {:induction false} SortByLengthSpec(s: seq<string>)
    ensures NonIncreasing(SortByLength(s))
    ensures multiset(SortByLength(s)) == multiset(s)
    ensures forall n: nat :: WithLength(SortByLength(s), n) == WithLength(s, n)
    decreases |s|
  {
    if s != [] {
      var init := s[..|s| - 1];
      var x := s[|s| - 1];
      SortByLengthSpec(init);
      InsertNonIncreasing(x, SortByLength(init));
      InsertMultiset(x, SortByLength(init));
      assert s == init + [x];
      forall n: nat ensures WithLength(SortByLength(s), n) == WithLength(s, n) {
        InsertWithLength(x, SortByLength(init), n);
        WithLengthAppend(init, [x], n);
      }
    }
  }

  lemma WithLengthHead(a: seq<string>)
    requires a != []
    ensures WithLength(a, |a[0]|) == [a[0]] + WithLength(a[1..], |a[0]|)
    ensures forall n: nat :: n != |a[0]| ==> WithLength(a, n) == WithLength(a[1..], n)
  {
  }

  /** Two longest-first lists with the same elements of each length start with
      equally long elements. */
  lemma SameHeadLength(a: seq<string>, b: seq<string>)
    requires a != [] && b != [] && NonIncreasing(a) && NonIncreasing(b)
    requires forall n: nat :: WithLength(a, n) == WithLength(b, n)
    ensures |a[0]| == |b[0]|
  {
    WithLengthHead(a);
    WithLengthHead(b);
    if |a[0]| < |b[0]| {
      WithLengthNone(a, |b[0]|);
    } else if |b[0]| < |a[0]| {
      WithLengthNone(b, |a[0]|);
    }
  }

  /** ... and then with the same element, followed by lists that agree likewise. */
  lemma SameHead(a: seq<string>, b: seq<string>)
    requires a != [] && b != [] && |a[0]| == |b[0]|
    requires forall n: nat :: WithLength(a, n) == WithLength(b, n)
    ensures a[0] == b[0]
    ensures forall n: nat :: WithLength(a[1..], n) == WithLength(b[1..], n)
  {
    WithLengthHead(a);
    WithLengthHead(b);
    var L := |a[0]|;
    assert WithLength(a, L) == WithLength(b, L);
    assert WithLength(a, L)[0] == a[0] && WithLength(b, L)[0] == b[0];
    assert WithLength(a, L)[1..] == WithLength(a[1..], L);
    assert WithLength(b, L)[1..] == WithLength(b[1..], L);
    forall n: nat ensures WithLength(a[1..], n) == WithLength(b[1..], n) {
      assert WithLength(a, n) == WithLength(b, n);
    }
  }

  /** A stable longest-first sort has one possible result: two longest-first lists
      with the same elements of each length, in the same order, are equal. */
  lemma {:induction false} StableSortUnique(a: seq<string>, b: seq<string>)
    requires NonIncreasing(a) && NonIncreasing(b)
    requires forall n: nat :: WithLength(a, n) == WithLength(b, n)
    ensures a == b
    decreases |a|
  {
    if a != [] && b != [] {
      SameHeadLength(a, b);
      SameHead(a, b);
      StableSortUnique(a[1..], b[1..]);
      assert a == [a[0]] + a[1..] && b == [b[0]] + b[1..];
    } else if a != [] {
      WithLengthHead(a);
    } else if b != [] {
      WithLengthHead(b);
    }
  }

  /** `top_lines(text, n)` */
  function TopLines(text: string, n: int): (r: seq<string>)
    ensures n >= 0 ==> |r| == Min(n, |NonBlankLines(text)|)
    ensures NonIncreasing(r)
    ensures forall m :: 0 <= m < |r| ==> IsStrippedLine(r[m]) && r[m] in NonBlankLines(text)
  {
    var lines := NonBlankLines(text);
    var sorted := SortByLength(lines);
    SortedLines(lines);
    var r := Slice(sorted, n);
    assert forall m :: 0 <= m < |r| ==> r[m] == sorted[m];
    r
  }

  lemma SortedLines(lines: seq<string>)
    requires forall m :: 0 <= m < |lines| ==> IsStrippedLine(lines[m])
    ensures NonIncreasing(SortByLength(lines))
    ensures forall m :: 0 <= m < |SortByLength(lines)| ==>
              IsStrippedLine(SortByLength(lines)[m]) && SortByLength(lines)[m] in lines
  {
    var sorted := SortByLength(lines);
    SortByLengthSpec(lines);
    assert forall m :: 0 <= m < |sorted| ==> sorted[m] in multiset(lines);
  }

  /** No line longer than the last one kept is left out. */
  lemma TopLinesKeepsLonger(text: string, n: int)
    ensures forall x :: (x in NonBlankLines(text) && TopLines(text, n) != []
                         && |x| > |TopLines(text, n)[|TopLines(text, n)| - 1]|) ==> x in TopLines(text, n)
  {
    var lines := NonBlankLines(text);
    var sorted := SortByLength(lines);
    SortByLengthSpec(lines);
    var r := TopLines(text, n);
    forall x | x in lines && r != [] && |x| > |r[|r| - 1]| ensures x in r {
      assert x in multiset(sorted);
      var k :| 0 <= k < |sorted| && sorted[k] == x;
      assert r == sorted[..|r|];
      assert r[k] == x;
    }
  }

  /** Every line `top_lines` keeps is in stable longest-first order: the kept lines
      are the first ones of the one stable sort of all the lines. */
  lemma TopLinesStable(text: string, n: int, sorted: seq<string>)
    requires NonIncreasing(sorted)
    requires forall m: nat :: WithLength(sorted, m) == WithLength(NonBlankLines(text), m)
    ensures TopLines(text, n) == Slice(sorted, n)
  {
    SortByLengthSpec(NonBlankLines(text));
    StableSortUnique(sorted, SortByLength(NonBlankLines(text)));
  }

  /** `set(re.findall(r"\b[a-zA-Z]{3,}\b", s.lower()))` */
  function WordSet(s: string): set<string> {
    var low := Lower(s);
    ToSet(FindAll(low, Letter, 3, |low|))
  }

  /** The score of candidate `c` for the role words: the shared words, or failing
      any, 1 for a line of 80 characters or more and 0 otherwise. */
  function LineScore(c: string, roleWords: set<string>): nat {
    var shared := |WordSet(c) * roleWords|;
    if shared == 0 then Min(1, |c| / 80) else shared
  }

  /** A line scores 0 exactly when it shares no word with the role and is shorter
      than 80 characters; otherwise at least 1. */
  lemma LineScoreZero(c: string, roleWords: set<string>)
    ensures LineScore(c, roleWords) == 0 <==> WordSet(c) * roleWords == {} && |c| < 80
  {
  }

  /** How `find_best_project_line` scores a candidate for `role`. */
  function RoleScore(role: string): string -> nat {
    c => LineScore(c, WordSet(role))
  }

  /** `c[i]` has the highest score, and every earlier candidate a lower one: the
      candidate a left-to-right scan with a strict `>` keeps. */
  predicate FirstBest(cands: seq<string>, score: string -> nat, i: nat) {
    i < |cands|
    && (forall j :: 0 <= j < |cands| ==> score(cands[j]) <= score(cands[i]))
    && (forall j :: 0 <= j < i ==> score(cands[j]) < score(cands[i]))
  }

  /** What `find_best_project_line(text, role)` may return: "" when the text has no
      non-blank line, and otherwise the first of the top twelve lines with the
      highest score. */
  ghost predicate IsBestProjectLine(text: string, role: string, line: string) {
    (line == [] <==> NonBlankLines(text) == [])
    && (line != [] ==> exists i: nat :: FirstBest(TopLines(text, 12), RoleScore(role), i)
                                        && line == TopLines(text, 12)[i])
  }

  /** `find_best_project_line(resume_text, role)` */
  method FindBestProjectLine(resumeText: string, role: string) returns (best: string)
    ensures IsBestProjectLine(resumeText, role, best)
  {
    var candidates := TopLines(resumeText, 12);
    if |candidates| == 0 {
      return "";
    }
    best := PickBest(candidates, RoleScore(role));
    ghost var bi: nat :| FirstBest(candidates, RoleScore(role), bi) && best == candidates[bi];
    assert IsStrippedLine(candidates[bi]);
  }

  /** Every character of a piece is a character of the text. */
  lemma {:induction false} PiecesChars(s: string)
    ensures forall m, c :: 0 <= m < |Pieces(s)| && c in Pieces(s)[m] ==> c in s
    decreases |s|
  {
    var j := LineEnd(s, 0);
    if j < |s| {
      PiecesChars(s[j + 1..]);
      assert forall c :: c in s[..j] ==> c in s;
      assert forall c :: c in s[j + 1..] ==> c in s;
    }
  }

  lemma {:induction false} StripAllChars(ps: seq<string>, s: string)
    requires NoBreaks(ps)
    requires forall m, c :: 0 <= m < |ps| && c in ps[m] ==> c in s
    ensures forall l, c :: l in StripAll(ps) && c in l ==> c in s
  {
    if ps != [] {
      StripChars(ps[0]);
      StripAllChars(ps[1..], s);
    }
  }

  /** The chosen project line is made of characters of the resume: nothing is
      added to it. */
  lemma BestLineChars(text: string, role: string, line: string)
    requires IsBestProjectLine(text, role, line)
    ensures forall c :: c in line ==> c in text
  {
    if line != [] {
      var i: nat :| FirstBest(TopLines(text, 12), RoleScore(role), i) && line == TopLines(text, 12)[i];
      assert line in NonBlankLines(text);
      PiecesChars(text);
      StripAllChars(Pieces(text), text);
    }
  }

  /** The loop of `find_best_project_line`: the best score so far starts at -1 and
      is replaced only by a strictly higher one. */
  method PickBest(candidates: seq<string>, score: string -> nat) returns (best: string)
    requires candidates != []
    ensures exists i: nat :: FirstBest(candidates, score, i) && best == candidates[i]
  {
    best := "";
    var bestScore: int := -1;
    ghost var bi := 0;
    for i := 0 to |candidates|
      invariant i == 0 ==> bestScore == -1
      invariant i > 0 ==> bi < i && best == candidates[bi] && bestScore == score(best)
      invariant i > 0 ==> forall j :: 0 <= j < i ==> score(candidates[j]) <= bestScore
      invariant i > 0 ==> forall j :: 0 <= j < bi ==> score(candidates[j]) < bestScore
    {
      var c := candidates[i];
      var s := score(c);
      if s > bestScore {
        bestScore := s;
        best := c;
        bi := i;
      }
    }
    assert FirstBest(candidates, score, bi);
  }
}
