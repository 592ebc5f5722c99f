/** The keyword comparison of the suggestions tab (app.py:632, 655-660): the words
    of the job description that the sanitized resume also has ("covered") and the
    ones it lacks ("missing"), each list sorted and cut to 25. */
module Keywords {
  import opened Text
  import opened Patterns
  import opened Sanitize

  /** Python's `<` on `str`: code point by code point, a proper prefix first. */
  predicate LexLess(a: string, b: string)
    decreases |a|
  {
    b != [] && (a == [] || a[0] < b[0] || (a[0] == b[0] && LexLess(a[1..], b[1..])))
  }

  lemma {:induction false} LexIrreflexive(a: string)
    ensures !LexLess(a, a)
    decreases |a|
  {
    if a != [] {
      LexIrreflexive(a[1..]);
    }
  }

  lemma {:induction false} LexTransitive(a: string, b: string, c: string)
    requires LexLess(a, b) && LexLess(b, c)
    ensures LexLess(a, c)
    decreases |a|
  {
    if a != [] && a[0] == b[0] && b[0] == c[0] {
      LexTransitive(a[1..], b[1..], c[1..]);
    }
  }

  lemma {:induction false} LexTotal(a: string, b: string)
    requires a != b
    ensures LexLess(a, b) || LexLess(b, a)
    decreases |a|
  {
    if a != [] && b != [] && a[0] == b[0] {
      assert a == [a[0]] + a[1..] && b == [b[0]] + b[1..];
      LexTotal(a[1..], b[1..]);
    }
  }

  /** Ascending with no repeats: what `sorted` gives for the elements of a set. */
  predicate StrictlySorted(s: seq<string>) {
    forall i, j :: 0 <= i < j < |s| ==> LexLess(s[i], s[j])
  }

  /** `x` put in its place in `s`, unless it is there already. */
  function Insert(x: string, s: seq<string>): (r: seq<string>)
    requires StrictlySorted(s)
    ensures StrictlySorted(r)
    ensures forall y :: y in r <==> y == x || y in s
  {
    if s == [] then [x]
    else if x == s[0] then s
    else if LexLess(x, s[0]) then
      assert forall j :: 0 <= j < |s| ==> LexLess(x, s[j]) by {
        forall j | 0 < j < |s| ensures LexLess(x, s[j]) {
          LexTransitive(x, s[0], s[j]);
        }
      }
      [x] + s
    else
      LexTotal(x, s[0]);
      var t := Insert(x, s[1..]);
      assert forall y :: y in t ==> LexLess(s[0], y) by {
        forall y | y in t ensures LexLess(s[0], y) {
          if y != x {
            var j :| 0 <= j < |s[1..]| && s[1..][j] == y;
            assert s[j + 1] == y;
          }
        }
      }
      [s[0]] + t
  }

  /** `sorted(set(xs))` */
  function SortedSet(xs: seq<string>): (r: seq<string>)
    ensures StrictlySorted(r)
    ensures forall y :: y in r <==> y in xs
  {
    if xs == [] then [] else Insert(xs[0], SortedSet(xs[1..]))
  }

  /** Two ascending lists without repeats that hold the same strings are equal, so
      `SortedSet` is `sorted` of the set whatever order the strings were found in. */
  lemma {:induction false} SortedUnique(a: seq<string>, b: seq<string>)
    requires StrictlySorted(a) && StrictlySorted(b)
    requires forall y :: y in a <==> y in b
    ensures a == b
    decreases |a|
  {
    HeadIn(b);
    if a != [] {
      assert a[0] in b;
      assert b != [];
      if a[0] != b[0] {
        assert b[0] in a;
        var m :| 0 <= m < |b| && b[m] == a[0];
        var k :| 0 <= k < |a| && a[k] == b[0];
        assert LexLess(b[0], a[0]);
        assert LexLess(a[0], b[0]);
        LexTransitive(a[0], b[0], a[0]);
        LexIrreflexive(a[0]);
        assert false;
      }
      forall y ensures y in a[1..] <==> y in b[1..] {
        if y in a[1..] {
          var k :| 0 <= k < |a[1..]| && a[1..][k] == y;
          assert LexLess(a[0], a[k + 1]);
          LexIrreflexive(y);
          assert y in b && y != b[0];
          var m :| 0 <= m < |b| && b[m] == y;
          assert b[1..][m - 1] == y;
        }
        if y in b[1..] {
          var k :| 0 <= k < |b[1..]| && b[1..][k] == y;
          assert LexLess(b[0], b[k + 1]);
          LexIrreflexive(y);
          assert y in a && y != a[0];
          var m :| 0 <= m < |a| && a[m] == y;
          assert a[1..][m - 1] == y;
        }
      }
      SortedUnique(a[1..], b[1..]);
      assert a == [a[0]] + a[1..] && b == [b[0]] + b[1..];
    }
  }

  /** A non-empty list holds its first element. */
  lemma HeadIn(b: seq<string>)
    ensures b == [] || b[0] in b
  {
  }

  /** `re.findall(r"\b[a-zA-Z\+\#\-]{2,}\b", t.lower())`, in the order found. */
  function KeywordTokens(t: string): (r: seq<string>)
    ensures forall m :: 0 <= m < |r| ==> 2 <= |r[m]|
    ensures forall m, j :: 0 <= m < |r| && 0 <= j < |r[m]| ==> InClass(KeywordChar, r[m][j])
  {
    var low := Lower(t);
    FindAllShape(low, KeywordChar, 2, |low|);
    FindAll(low, KeywordChar, 2, |low|)
  }

  /** `set(re.findall(...))` */
  function Keywords(t: string): set<string> {
    ToSet(KeywordTokens(t))
  }

  /** The elements of `xs` that are in `ys` (`inside`) or not in it (`!inside`). */
  function Where(xs: seq<string>, ys: set<string>, inside: bool): (r: seq<string>)
    ensures forall y :: y in r <==> y in xs && (y in ys <==> inside)
  {
    if xs == [] then []
    else (if (xs[0] in ys) == inside then [xs[0]] else []) + Where(xs[1..], ys, inside)
  }

  datatype KeywordReport = KeywordReport(covered: seq<string>, missing: seq<string>)

  /** The keyword lists for a job description and the raw resume text, or `None`
      when there is no job description (the tab then shows a hint instead). */
  function KeywordDiff(jdText: string, resumeText: string): (r: Option<KeywordReport>)
    ensures r.None? <==> jdText == []
    ensures r.Some? ==> |r.value.covered| <= 25 && |r.value.missing| <= 25
    ensures r.Some? ==> StrictlySorted(r.value.covered) && StrictlySorted(r.value.missing)
    ensures r.Some? ==> forall y :: y in r.value.covered ==>
              y in Keywords(jdText) && y in Keywords(SanitizeText(resumeText))
    ensures r.Some? ==> forall y :: y in r.value.missing ==>
              y in Keywords(jdText) && y !in Keywords(SanitizeText(resumeText))
  {
    if jdText == [] then None
    else
      var jd := KeywordTokens(jdText);
      var rs := Keywords(SanitizeText(resumeText));
      ToSetMembers(jd);
      var covered := SortedSet(Where(jd, rs, true));
      var missing := SortedSet(Where(jd, rs, false));
      TakeSorted(covered, 25);
      TakeSorted(missing, 25);
      Some(KeywordReport(Take(covered, 25), Take(missing, 25)))
  }

  /** A prefix of an ascending list is ascending, and what it leaves out comes after
      everything it keeps. */
  lemma TakeSorted(s: seq<string>, n: nat)
    requires StrictlySorted(s)
    ensures StrictlySorted(Take(s, n))
    ensures forall y :: y in s && y !in Take(s, n) ==> forall x :: x in Take(s, n) ==> LexLess(x, y)
  {
    var t := Take(s, n);
    forall y, x | y in s && y !in t && x in t ensures LexLess(x, y) {
      var j :| 0 <= j < |s| && s[j] == y;
      var i :| 0 <= i < |t| && t[i] == x;
      assert s[i] == x;
      if j < |t| {
        assert false;
      }
    }
  }

  lemma NoTextNoKeywords()
    ensures Keywords([]) == {}
  {
    assert Lower([]) == [];
    assert KeywordTokens([]) == [];
  }

  /** Every keyword of the job description is reported: covered when the resume
      has it, missing when it does not, unless 25 smaller ones fill that list. */
  lemma KeywordDiffComplete(jdText: string, resumeText: string, y: string)
    requires y in Keywords(jdText)
    ensures var r := KeywordDiff(jdText, resumeText).value;
            var rs := Keywords(SanitizeText(resumeText));
            (y in rs ==> y in r.covered || (|r.covered| == 25 && forall x :: x in r.covered ==> LexLess(x, y)))
            && (y !in rs ==> y in r.missing || (|r.missing| == 25 && forall x :: x in r.missing ==> LexLess(x, y)))
  {
    var jd := KeywordTokens(jdText);
    var rs := Keywords(SanitizeText(resumeText));
    ToSetMembers(jd);
    NoTextNoKeywords();
    var covered := SortedSet(Where(jd, rs, true));
    var missing := SortedSet(Where(jd, rs, false));
    TakeSorted(covered, 25);
    TakeSorted(missing, 25);
  }

  /** The lists are the sorted sets themselves: any ascending list of the common
      keywords, cut to 25, is the covered list. */
  lemma CoveredIsSortedIntersection(jdText: string, resumeText: string, s: seq<string>)
    requires jdText != []
    requires StrictlySorted(s)
    requires forall y :: y in s <==> y in Keywords(jdText) * Keywords(SanitizeText(resumeText))
    ensures KeywordDiff(jdText, resumeText).value.covered == Take(s, 25)
  {
    var jd := KeywordTokens(jdText);
    var rs := Keywords(SanitizeText(resumeText));
    ToSetMembers(jd);
    SortedUnique(SortedSet(Where(jd, rs, true)), s);
  }

  /** Likewise for the missing list and the keywords the resume lacks. */
  lemma MissingIsSortedDifference(jdText: string, resumeText: string, s: seq<string>)
    requires jdText != []
    requires StrictlySorted(s)
    requires forall y :: y in s <==> y in Keywords(jdText) - Keywords(SanitizeText(resumeText))
    ensures KeywordDiff(jdText, resumeText).value.missing == Take(s, 25)
  {
    var jd := KeywordTokens(jdText);
    var rs := Keywords(SanitizeText(resumeText));
    ToSetMembers(jd);
    SortedUnique(SortedSet(Where(jd, rs, false)), s);
  }
}
