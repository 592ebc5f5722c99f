/** `extract_skills_from_text_safe` (app.py:280-299): well-known skills found in
    the sanitized text first, then its letter tokens, without repeats and at most
    `limit` of them. */
module Skills {
  import opened Text
  import opened Patterns
  import opened Sanitize

  /** COMMON_SKILLS_SET (app.py:252-256), in the order it is written. */
  const SkillVocabulary: seq<string> := [
    "python", "sql", "tensorflow", "pytorch", "keras", "scikit-learn", "sklearn", "aws", "gcp", "azure",
    "docker", "kubernetes", "spark", "pandas", "numpy", "matplotlib", "seaborn", "flask", "fastapi",
    "git", "linux", "api", "nlp", "cv", "java", "c++", "javascript", "react", "node", "postgres", "mysql", "mongodb"
  ]

  /** An order in which iterating over the set may visit the vocabulary: Python does
      not fix the iteration order of a set of strings. */
  predicate IsVocabularyOrder(order: seq<string>) {
    Permutes(order, SkillVocabulary)
  }

  predicate Permutes(xs: seq<string>, ys: seq<string>) {
    multiset(xs) == multiset(ys)
  }

  /** The entries of `order` that occur in `low`, in that order. */
  function VocabHits(order: seq<string>, low: string): (r: seq<string>)
    ensures |r| <= |order|
  {
    if order == [] then []
    else
      var s := order[|order| - 1];
      VocabHits(order[..|order| - 1], low) + (if Contains(low, s) then [s] else [])
  }

  function LowerAll(ts: seq<string>): (r: seq<string>)
    ensures |r| == |ts|
    ensures forall i {:trigger r[i]} :: 0 <= i < |ts| ==> r[i] == Lower(ts[i])
  {
    seq(|ts|, i requires 0 <= i < |ts| => Lower(ts[i]))
  }

  /** The first occurrence of each element, in order. */
  function Dedup(xs: seq<string>): (r: seq<string>)
    ensures |r| <= |xs|
  {
    if xs == [] then []
    else
      var d := Dedup(xs[..|xs| - 1]);
      var x := xs[|xs| - 1];
      if x in d then d else d + [x]
  }

  lemma {:induction false} VocabHitsMembers(order: seq<string>, low: string)
    ensures forall x :: x in VocabHits(order, low) <==> x in order && Contains(low, x)
    decreases |order|
  {
    if order != [] {
      VocabHitsMembers(order[..|order| - 1], low);
      assert order == order[..|order| - 1] + [order[|order| - 1]];
    }
  }

  /** `Dedup` repeats nothing and loses nothing. */
  lemma {:induction false} DedupMembers(xs: seq<string>)
    ensures NoDup(Dedup(xs))
    ensures forall x :: x in Dedup(xs) <==> x in xs
    decreases |xs|
  {
    if xs != [] {
      DedupMembers(xs[..|xs| - 1]);
      assert xs == xs[..|xs| - 1] + [xs[|xs| - 1]];
    }
  }

  /** What a fallback token becomes: 2 to 30 lower-case letters, `+` or `#`. */
  predicate IsSkillToken(x: string) {
    2 <= |x| <= 30 && forall j :: 0 <= j < |x| ==> ('a' <= x[j] <= 'z' || x[j] == '+' || x[j] == '#')
  }

  /** Everything the two loops look at, in the order they look at it. */
  function SkillCandidates(t: string, order: seq<string>): seq<string> {
    VocabHits(order, Lower(t)) + LowerAll(FindAll(t, SkillChar, 2, 30))
  }

  function NonNegative(n: int): nat { if n < 0 then 0 else n }

  /** The first `limit` distinct candidates of the sanitized text `t`. */
  function SkillsOf(t: string, limit: int, order: seq<string>): (r: seq<string>)
    ensures |r| <= NonNegative(limit)
    ensures NoDup(r)
    ensures forall x :: x in r ==> (x in order && Contains(Lower(t), x))
                                   || (x in LowerAll(FindAll(t, SkillChar, 2, 30)) && IsSkillToken(x))
  {
    var d := Dedup(SkillCandidates(t, order));
    var r := Take(d, NonNegative(limit));
    DedupMembers(SkillCandidates(t, order));
    VocabHitsMembers(order, Lower(t));
    FindAllShape(t, SkillChar, 2, 30);
    LoweredTokens(FindAll(t, SkillChar, 2, 30));
    assert forall x :: x in r ==> x in d;
    r
  }

  /** What `extract_skills_from_text_safe(text, limit)` returns. Sanitizing turns
      every `-` into a space, so the vocabulary entry "scikit-learn" is never reported. */
  function Skills(text: string, limit: int, order: seq<string>): (r: seq<string>)
    requires IsVocabularyOrder(order)
    ensures "scikit-learn" !in r
  {
    var t := SanitizeText(text);
    ScikitLearnNeverFound(t, limit, order);
    SkillsOf(t, limit, order)
  }

  /** Every skill reported is a vocabulary entry found in the lowered sanitized text
      or a lowered token of it. */
  lemma SkillsSources(text: string, limit: int, order: seq<string>)
    requires IsVocabularyOrder(order)
    ensures var t := SanitizeText(text);
            forall x :: x in Skills(text, limit, order) ==>
              (x in SkillVocabulary && Contains(Lower(t), x)) || x in LowerAll(FindAll(t, SkillChar, 2, 30))
  {
    forall x | x in order ensures x in SkillVocabulary {
      assert x in multiset(order);
    }
  }

  lemma LoweredTokens(ts: seq<string>)
    requires forall m :: 0 <= m < |ts| ==> 2 <= |ts[m]| <= 30
    requires forall m, j :: 0 <= m < |ts| && 0 <= j < |ts[m]| ==> InClass(SkillChar, ts[m][j])
    ensures forall x :: x in LowerAll(ts) ==> IsSkillToken(x)
  {
  }

  /** Deduplicating a prefix gives a prefix of the deduplicated whole. */
  lemma {:induction false} DedupPrefix(xs: seq<string>, k: nat)
    requires k <= |xs|
    ensures |Dedup(xs[..k])| <= |Dedup(xs)|
    ensures Dedup(xs[..k]) == Dedup(xs)[..|Dedup(xs[..k])|]
    decreases |xs|
  {
    if k < |xs| {
      var init := xs[..|xs| - 1];
      assert init[..k] == xs[..k];
      DedupPrefix(init, k);
    } else {
      assert xs[..k] == xs;
    }
  }

  /** Adding one element to the input adds it to the output unless it is there already. */
  lemma DedupSnoc(xs: seq<string>, x: string)
    ensures Dedup(xs + [x]) == if x in Dedup(xs) then Dedup(xs) else Dedup(xs) + [x]
  {
    assert (xs + [x])[..|xs|] == xs;
  }

  /** The slice taken on an early return equals the first `limit` of everything. */
  lemma EarlyReturn(p: seq<string>, all: seq<string>, limit: int)
    requires |p| <= |all| && p == all[..|p|]
    requires |Dedup(p)| >= limit
    requires |Dedup(p)| == 1 || |Dedup(p)| - 1 < limit
    ensures Slice(Dedup(p), limit) == Take(Dedup(all), NonNegative(limit))
  {
    DedupPrefix(all, |p|);
  }

  /** `extract_skills_from_text_safe`: the text is sanitized, lowered and split
      into tokens, and the candidates are scanned. */
  method ExtractSkills(text: string, limit: int, order: seq<string>) returns (found: seq<string>)
    requires IsVocabularyOrder(order)
    ensures found == Skills(text, limit, order)
  {
    var t := SanitizeText(text);
    var low := Lower(t);
    var tokens := FindAll(t, SkillChar, 2, 30);
    FindAllShape(t, SkillChar, 2, 30);
    found := ScanCandidates(low, tokens, limit, order);
  }

  /** The two loops of `extract_skills_from_text_safe`: they append to `found` what
      is not there yet and return as soon as it holds `limit` entries. */
  method ScanCandidates(low: string, tokens: seq<string>, limit: int, order: seq<string>)
    returns (found: seq<string>)
    requires forall m :: 0 <= m < |tokens| ==> |tokens[m]| >= 2
    ensures found == Take(Dedup(VocabHits(order, low) + LowerAll(tokens)), NonNegative(limit))
  {
    var full;
    found, full := ScanVocabulary(low, limit, order, LowerAll(tokens));
    if !full {
      found := ScanTokens(found, VocabHits(order, low), tokens, limit);
    }
  }

  /** The first loop: the vocabulary entries that occur in `low`. When it stops early
      (`full`), what it returns is final whatever candidates `rest` come after. */
  method ScanVocabulary(low: string, limit: int, order: seq<string>, ghost rest: seq<string>)
    returns (found: seq<string>, full: bool)
    ensures full ==> found == Take(Dedup(VocabHits(order, low) + rest), NonNegative(limit))
    ensures !full ==> found == Dedup(VocabHits(order, low)) && (found == [] || |found| < limit)
  {
    found := [];
    for k := 0 to |order|
      invariant found == Dedup(VocabHits(order[..k], low))
      invariant found == [] || |found| < limit
    {
      var s := order[k];
      VocabHitsSnoc(order, low, k);
      if Contains(low, s) && s !in found {
        DedupSnoc(VocabHits(order[..k], low), s);
        if |found| + 1 >= limit {
          VocabStop(order, low, k, rest, limit);
          return Slice(found + [s], limit), true;
        }
        found := found + [s];
      } else if Contains(low, s) {
        DedupSnoc(VocabHits(order[..k], low), s);
      }
    }
    assert order[..|order|] == order;
    full := false;
  }

  lemma VocabStop(order: seq<string>, low: string, k: nat, rest: seq<string>, limit: int)
    requires k < |order| && Contains(low, order[k])
    requires order[k] !in Dedup(VocabHits(order[..k], low))
    requires Dedup(VocabHits(order[..k], low)) == [] || |Dedup(VocabHits(order[..k], low))| < limit
    requires |Dedup(VocabHits(order[..k], low))| + 1 >= limit
    ensures Slice(Dedup(VocabHits(order[..k], low)) + [order[k]], limit)
            == Take(Dedup(VocabHits(order, low) + rest), NonNegative(limit))
  {
    var all := VocabHits(order, low) + rest;
    var p := VocabHits(order[..k + 1], low);
    VocabHitsSnoc(order, low, k);
    DedupSnoc(VocabHits(order[..k], low), order[k]);
    HitsPrefix(order, low, rest, k + 1);
    EarlyReturn(p, all, limit);
  }

  /** The hits among the first `j` entries start everything the two loops look at. */
  lemma HitsPrefix(order: seq<string>, low: string, rest: seq<string>, j: nat)
    requires j <= |order|
    ensures var p := VocabHits(order[..j], low);
            |p| <= |VocabHits(order, low) + rest| && p == (VocabHits(order, low) + rest)[..|p|]
  {
    var h := VocabHits(order, low);
    VocabHitsPrefix(order, low, j);
    var p := VocabHits(order[..j], low);
    assert (h + rest)[..|p|] == h[..|p|];
  }

  /** The second loop: the lowered tokens, after the vocabulary entries `hits`. */
  method ScanTokens(found0: seq<string>, ghost hits: seq<string>, tokens: seq<string>, limit: int)
    returns (found: seq<string>)
    requires found0 == Dedup(hits) && (found0 == [] || |found0| < limit)
    requires forall m :: 0 <= m < |tokens| ==> |tokens[m]| >= 2
    ensures found == Take(Dedup(hits + LowerAll(tokens)), NonNegative(limit))
  {
    found := found0;
    assert hits + LowerAll(tokens[..0]) == hits;
    for k := 0 to |tokens|
      invariant found == Dedup(hits + LowerAll(tokens[..k]))
      invariant found == [] || |found| < limit
    {
      var tl := Lower(tokens[k]);
      TokensSnoc(hits, tokens, k);
      if tl !in found {
        // The source also asks for more than one character; every token has two.
        assert |tl| > 1;
        if |found| + 1 >= limit {
          TokensStop(hits, tokens, k, limit);
          return Slice(found + [tl], limit);
        }
        found := found + [tl];
      }
    }
    assert tokens[..|tokens|] == tokens;
    ShortSlice(found, limit);
    found := Slice(found, limit);
  }

  /** A list that is empty or shorter than `limit` is its own first `limit`. */
  lemma ShortSlice(xs: seq<string>, limit: int)
    requires xs == [] || |xs| < limit
    ensures Slice(xs, limit) == Take(xs, NonNegative(limit)) == xs
  {
  }

  lemma TokensSnoc(hits: seq<string>, tokens: seq<string>, k: nat)
    requires k < |tokens|
    ensures Dedup(hits + LowerAll(tokens[..k + 1]))
            == if Lower(tokens[k]) in Dedup(hits + LowerAll(tokens[..k])) then Dedup(hits + LowerAll(tokens[..k]))
               else Dedup(hits + LowerAll(tokens[..k])) + [Lower(tokens[k])]
  {
    assert hits + LowerAll(tokens[..k + 1]) == (hits + LowerAll(tokens[..k])) + [Lower(tokens[k])];
    DedupSnoc(hits + LowerAll(tokens[..k]), Lower(tokens[k]));
  }

  lemma TokensStop(hits: seq<string>, tokens: seq<string>, k: nat, limit: int)
    requires k < |tokens|
    requires Lower(tokens[k]) !in Dedup(hits + LowerAll(tokens[..k]))
    requires Dedup(hits + LowerAll(tokens[..k])) == [] || |Dedup(hits + LowerAll(tokens[..k]))| < limit
    requires |Dedup(hits + LowerAll(tokens[..k]))| + 1 >= limit
    ensures Slice(Dedup(hits + LowerAll(tokens[..k])) + [Lower(tokens[k])], limit)
            == Take(Dedup(hits + LowerAll(tokens)), NonNegative(limit))
  {
    var all := hits + LowerAll(tokens);
    var p := hits + LowerAll(tokens[..k + 1]);
    TokensSnoc(hits, tokens, k);
    LoweredPrefix(hits, tokens, k + 1);
    EarlyReturn(p, all, limit);
  }

  /** Lowering the first `j` tokens gives the first `j` lowered tokens. */
  lemma LoweredPrefix(hits: seq<string>, tokens: seq<string>, j: nat)
    requires j <= |tokens|
    ensures var p := hits + LowerAll(tokens[..j]);
            |p| <= |hits + LowerAll(tokens)| && p == (hits + LowerAll(tokens))[..|p|]
  {
    var all := LowerAll(tokens);
    assert LowerAll(tokens[..j]) == all[..j];
    assert (hits + all)[..|hits| + j] == hits + all[..j];
  }

  lemma VocabHitsSnoc(order: seq<string>, low: string, k: nat)
    requires k < |order|
    ensures Contains(low, order[k]) ==> VocabHits(order[..k + 1], low) == VocabHits(order[..k], low) + [order[k]]
    ensures !Contains(low, order[k]) ==> VocabHits(order[..k + 1], low) == VocabHits(order[..k], low)
  {
    assert order[..k + 1][..k] == order[..k];
    assert VocabHits(order[..k], low) + [] == VocabHits(order[..k], low);
  }

  /** The hits among a prefix of the order are a prefix of all the hits. */
  lemma {:induction false} VocabHitsPrefix(order: seq<string>, low: string, k: nat)
    requires k <= |order|
    ensures |VocabHits(order[..k], low)| <= |VocabHits(order, low)|
    ensures VocabHits(order[..k], low) == VocabHits(order, low)[..|VocabHits(order[..k], low)|]
    decreases |order|
  {
    if k < |order| {
      var init := order[..|order| - 1];
      assert init[..k] == order[..k];
      VocabHitsPrefix(init, low, k);
    } else {
      assert order[..k] == order;
    }
  }

  /** When fewer than `limit` skills come back, none was cut off: every vocabulary
      entry in the lowered text and every lowered token is among them. */
  lemma SkillsComplete(t: string, limit: int, order: seq<string>)
    requires |SkillsOf(t, limit, order)| < limit
    ensures forall x :: x in order && Contains(Lower(t), x) ==> x in SkillsOf(t, limit, order)
    ensures forall x :: x in LowerAll(FindAll(t, SkillChar, 2, 30)) ==> x in SkillsOf(t, limit, order)
  {
    DedupMembers(SkillCandidates(t, order));
    VocabHitsMembers(order, Lower(t));
  }

  /** In text without a `-`, the entry "scikit-learn" is never found: neither the
      vocabulary scan nor a token can produce it. */
  lemma ScikitLearnNeverFound(t: string, limit: int, order: seq<string>)
    requires forall c :: c in t ==> !InClass(Dash, c)
    ensures "scikit-learn" !in SkillsOf(t, limit, order)
  {
    var low := Lower(t);
    forall i: nat | i <= |low| ensures !OccursAt(low, "scikit-learn", i) {
      if i + 12 <= |low| {
        assert t[i + 6] in t;
        assert low[i + 6] != '-';
        assert low[i..i + 12][6] == low[i + 6];
        assert "scikit-learn"[6] == '-';
      }
    }
    assert !IsSkillToken("scikit-learn") by {
      assert "scikit-learn"[6] == '-';
    }
  }

  /** Skills found in text without digits hold no digit. */
  lemma SkillsDigitFree(text: string, limit: int, order: seq<string>)
    requires IsVocabularyOrder(order) && DigitFree(text)
    ensures forall x :: x in Skills(text, limit, order) ==> DigitFree(x)
  {
    SanitizeDigitFree(text);
    SkillsOfDigitFree(SanitizeText(text), limit, order);
  }

  lemma SkillsOfDigitFree(t: string, limit: int, order: seq<string>)
    requires DigitFree(t)
    ensures forall x :: x in SkillsOf(t, limit, order) ==> DigitFree(x)
  {
    var low := Lower(t);
    LowerDigitFree(t);
    forall x | x in SkillsOf(t, limit, order) && !IsSkillToken(x) ensures DigitFree(x) {
      var i: nat :| i <= |low| && OccursAt(low, x, i);
      SliceDigitFree(low, i, i + |x|);
    }
  }

  lemma LowerDigitFree(t: string)
    requires DigitFree(t)
    ensures DigitFree(Lower(t))
  {
    forall k | 0 <= k < |t| ensures !IsDigit(Lower(t)[k]) {
      assert !IsDigit(t[k]);
    }
  }

  lemma SliceDigitFree(s: string, i: nat, j: nat)
    requires i <= j <= |s| && DigitFree(s)
    ensures DigitFree(s[i..j])
  {
    forall k | 0 <= k < j - i ensures !IsDigit(s[i..j][k]) {
      assert s[i..j][k] == s[i + k];
    }
  }
}
