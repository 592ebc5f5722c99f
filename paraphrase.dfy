/** `paraphrase_project_line_safe` (app.py:430-440): a project line with company
    words, years and unusual characters removed, cut at a word to `max_len`. */
module Paraphrase {
  import opened Text
  import opened Patterns
  import opened Sanitize

  /** The alternatives of `\b(private|limited|ltd|inc|llc|pvt|company|co)\b`. */
  const CompanyWords: set<string> := {"private", "limited", "ltd", "inc", "llc", "pvt", "company", "co"}

  /** `re.sub(r"[^\w\s\+\#%.,()-]", " ", s)`: each character outside the class
      becomes a space, and every other character stays where it is. */
  function DropDisallowed(s: string): (r: string)
    ensures |r| == |s|
    ensures forall k :: 0 <= k < |s| ==> r[k] == if IsParaphraseChar(s[k]) then s[k] else ' '
    ensures forall c :: c in r ==> IsParaphraseChar(c)
  {
    assert forall j :: 0 <= j < |s| ==> Tried(MatcherOf(Disallowed), s, j) == if IsParaphraseChar(s[j]) then 0 else 1 by {
      forall j | 0 <= j < |s|
        ensures Tried(MatcherOf(Disallowed), s, j) == if IsParaphraseChar(s[j]) then 0 else 1
      {
        TriedPattern(Disallowed, s, j);
      }
    }
    SubFromOneChar(s, MatcherOf(Disallowed), ' ', 0);
    assert " " == [' '];
    var r := Substitute(s, Disallowed, " ");
    assert forall c :: c in r ==> IsParaphraseChar(c) by {
      forall c | c in r ensures IsParaphraseChar(c) {
        var k :| 0 <= k < |r| && r[k] == c;
        assert r[k - 0] == r[k];
        assert r[k] == if IsParaphraseChar(s[k]) then s[k] else ' ';
        assert IsParaphraseChar(' ');
      }
    }
    r
  }

  /** The line once sanitized, with company words and years replaced by spaces. */
  function Scrubbed(line: string): string {
    var s := SanitizeText(line);
    var s := Substitute(s, WordIn(CompanyWords, true), " ");
    Substitute(s, Year, " ")
  }

  /** The line after the substitutions and the whitespace collapse, before the cut:
      the words of the scrubbed line, with disallowed characters as spaces, joined
      by single spaces. */
  function Cleaned(line: string): (r: string)
    ensures r == Join(" ", SplitWs(DropDisallowed(Scrubbed(line))))
    ensures Tidy(r)
    ensures forall c :: c in r ==> IsParaphraseChar(c)
  {
    var s := DropDisallowed(Scrubbed(line));
    CollapseAllowed(s);
    Collapse(s)
  }

  lemma CollapseAllowed(s: string)
    requires forall c :: c in s ==> IsParaphraseChar(c)
    ensures forall c :: c in Collapse(s) ==> IsParaphraseChar(c)
  {
    CollapseChars(s);
  }

  /** `p.rsplit(" ", 1)[0]`: everything before the last space, or all of `p`. */
  function BeforeLastSpace(p: string): (q: string)
    ensures |q| <= |p| && q == p[..|q|]
    ensures ' ' in p ==> |q| < |p| && p[|q|] == ' ' && ' ' !in p[|q| + 1..]
    ensures ' ' !in p ==> q == p
    decreases |p|
  {
    if ' ' !in p then p
    else if p[|p| - 1] == ' ' then p[..|p| - 1]
    else
      assert ' ' in p[..|p| - 1] by {
        var k :| 0 <= k < |p| && p[k] == ' ';
        assert p[..|p| - 1][k] == ' ';
      }
      var q := BeforeLastSpace(p[..|p| - 1]);
      assert p[|q| + 1..] == p[..|p| - 1][|q| + 1..] + [p[|p| - 1]];
      q
  }

  /** `s[:max_len].rsplit(" ", 1)[0] + "…"`: a prefix of `s` that fits the window
      and ends before the window's last space, then an ellipsis. */
  function Cut(s: string, maxLen: int): (r: string)
    ensures |r| >= 1 && r[|r| - 1] == '…'
    ensures var p := r[..|r| - 1];
            |p| <= |s| && p == s[..|p|] && (maxLen >= 0 ==> |p| <= maxLen)
    ensures var p, w := r[..|r| - 1], Slice(s, maxLen);
            (' ' in w ==> |p| < |w| && w[|p|] == ' ' && ' ' !in w[|p| + 1..])
            && (' ' !in w ==> p == w)
    ensures forall c :: c in r ==> c in s || c == '…'
  {
    var w := Slice(s, maxLen);
    var p := BeforeLastSpace(w);
    var r := p + "…";
    assert r[..|r| - 1] == p;
    assert forall c :: c in p ==> c in s by {
      forall c | c in p ensures c in s {
        var k :| 0 <= k < |p| && p[k] == c;
        assert s[k] == c;
      }
    }
    r
  }

  /** `paraphrase_project_line_safe(line, max_len)`: the cleaned line when it fits;
      otherwise its first `max_len` characters up to the last space in them, and
      an ellipsis. */
  function ParaphraseLine(line: string, maxLen: int): (r: string)
    ensures line == [] ==> r == []
    ensures line != [] && |Cleaned(line)| <= maxLen ==> r == Cleaned(line)
    ensures line != [] && |Cleaned(line)| > maxLen ==> r == Cut(Cleaned(line), maxLen)
    ensures maxLen >= 0 ==> |r| <= maxLen + 1
    ensures forall c :: c in r ==> IsParaphraseChar(c) || c == '…'
  {
    if line == [] then []
    else
      var s := Cleaned(line);
      if |s| > maxLen then Cut(s, maxLen) else s
  }

  /** Paraphrasing a line without digits adds none: the placeholders and the
      ellipsis hold no digit. */
  lemma ParaphraseDigitFree(line: string, maxLen: int)
    requires DigitFree(line)
    ensures DigitFree(ParaphraseLine(line, maxLen))
  {
    if line != [] {
      var c := Cleaned(line);
      CleanedDigitFree(line);
      var r := ParaphraseLine(line, maxLen);
      forall k | 0 <= k < |r| ensures !IsDigit(r[k]) {
        assert r[k] in r;
        if r[k] != '…' {
          var j :| 0 <= j < |c| && c[j] == r[k];
        }
      }
    }
  }

  lemma CleanedDigitFree(line: string)
    requires DigitFree(line)
    ensures DigitFree(Cleaned(line))
  {
    var s0 := SanitizeText(line);
    SanitizeDigitFree(line);
    PlaceholdersDigitFree();
    var s1 := Substitute(s0, WordIn(CompanyWords, true), " ");
    SubstituteDigitFree(s0, WordIn(CompanyWords, true), " ");
    var s2 := Substitute(s1, Year, " ");
    SubstituteDigitFree(s1, Year, " ");
    SubstituteDigitFree(s2, Disallowed, " ");
    CollapseKeepsDigitFree(DropDisallowed(s2));
  }
}
