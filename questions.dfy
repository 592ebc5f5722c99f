/** `generate_interview_questions_safe` (app.py:511-534): three lists of interview
    questions (general, about the resume's lines, technical), each shuffled by one
    random generator and cut to a fixed length. The generator is a parameter here:
    `stream(k)` is the raw value of its `k`-th draw. */
module Questions {
  import opened Text
  import opened Sanitize
  import opened Skills
  import opened Lines

  /** The general questions, in the order the source lists them. */
  const HrQuestions: seq<string> := [
    "Tell me about yourself.",
    "Why do you want this role?",
    "Describe a time you had a conflict at work and how you resolved it."
  ]

  /** `p if len(p) < 100 else p[:100].rstrip() + "…"` */
  function Preview(p: string): (r: string)
    ensures |p| < 100 ==> r == p
    ensures |p| >= 100 ==> 1 <= |r| <= 101 && r[|r| - 1] == '…' && StartsWith(p, r[..|r| - 1])
                           && (|r| == 1 || !IsSpace(r[|r| - 2]))
    ensures |p| >= 100 ==> forall k :: |r| - 1 <= k < 100 ==> IsSpace(p[k])
  {
    if |p| < 100 then p
    else
      var h := RStrip(p[..100]);
      var r := h + "…";
      assert r[..|r| - 1] == h;
      r
  }

  function ResumeQuestion(p: string): string {
    "Explain this project/responsibility: \"" + Preview(p) + "\""
  }

  function TechQuestion(s: string): string {
    "Describe your experience with " + s + "."
  }

  function RoleQuestion(role: string): string {
    "What makes you a good fit for the " + role + " role technically?"
  }

  /** The resume questions, one per line, in the order of the lines. */
  function ResumeQuestions(top: seq<string>): (r: seq<string>)
    ensures |r| == |top|
    ensures forall m :: 0 <= m < |r| ==> r[m] == ResumeQuestion(top[m])
  {
    seq(|top|, m requires 0 <= m < |top| => ResumeQuestion(top[m]))
  }

  /** The technical questions: one per skill among the first twelve, then the role
      question when the role has more than two characters. */
  function TechnicalQuestions(skills: seq<string>, role: string): (r: seq<string>)
    ensures |r| == Min(12, |skills|) + (if |role| > 2 then 1 else 0)
    ensures forall m :: 0 <= m < Min(12, |skills|) ==> r[m] == TechQuestion(skills[m])
    ensures |role| > 2 ==> r[|r| - 1] == RoleQuestion(role)
  {
    var t := Take(skills, 12);
    seq(|t|, m requires 0 <= m < |t| => TechQuestion(t[m]))
      + (if |role| > 2 then [RoleQuestion(role)] else [])
  }

  /** `s` with the elements at `i` and `j` exchanged. */
  function Swap(s: seq<string>, i: nat, j: nat): (r: seq<string>)
    requires i < |s| && j < |s|
    ensures |r| == |s| && r[i] == s[j] && r[j] == s[i]
    ensures forall k :: 0 <= k < |s| && k != i && k != j ==> r[k] == s[k]
  {
    s[i := s[j]][j := s[i]]
  }

  /** Fisher-Yates from position `i` down to 1, the `n`-th swap using draw `step + n`. */
  function ShuffleDown(s: seq<string>, stream: nat -> nat, i: nat, step: nat): (r: seq<string>)
    requires i < |s|
    ensures |r| == |s|
    decreases i
  {
    if i == 0 then s
    else ShuffleDown(Swap(s, i, stream(step) % (i + 1)), stream, i - 1, step + 1)
  }

  /** `random.shuffle`: the list in the order the draws from `start` on give it. */
  function Shuffled(s: seq<string>, stream: nat -> nat, start: nat): (r: seq<string>)
    ensures |r| == |s|
  {
    if |s| <= 1 then s else ShuffleDown(s, stream, |s| - 1, start)
  }

  /** How many draws shuffling a list of `n` elements takes. */
  function Draws(n: nat): nat {
    if n <= 1 then 0 else n - 1
  }

  lemma SwapPermutation(s: seq<string>, i: nat, j: nat)
    requires i < |s| && j < |s|
    ensures multiset(Swap(s, i, j)) == multiset(s)
  {
    if i != j {
      var t := s[i := s[j]];
      assert multiset(t) == multiset(s) - multiset{s[i]} + multiset{s[j]};
      assert multiset(t[j := s[i]]) == multiset(t) - multiset{t[j]} + multiset{s[i]};
    }
  }

  lemma {:induction false} ShuffleDownPermutation(s: seq<string>, stream: nat -> nat, i: nat, step: nat)
    requires i < |s|
    ensures multiset(ShuffleDown(s, stream, i, step)) == multiset(s)
    decreases i
  {
    if i > 0 {
      var j := stream(step) % (i + 1);
      SwapPermutation(s, i, j);
      ShuffleDownPermutation(Swap(s, i, j), stream, i - 1, step + 1);
    }
  }

  /** Shuffling keeps every element and adds none, whatever the draws. */
  lemma ShuffledPermutation(s: seq<string>, stream: nat -> nat, start: nat)
    ensures multiset(Shuffled(s, stream, start)) == multiset(s)
  {
    if |s| > 1 {
      ShuffleDownPermutation(s, stream, |s| - 1, start);
    }
  }

  /** `rnd.shuffle(x)` on a list held in an array, taking draws `start`, `start + 1`, ... */
  method Shuffle(a: array<string>, stream: nat -> nat, start: nat)
    modifies a
    ensures a[..] == Shuffled(old(a[..]), stream, start)
  {
    if a.Length > 1 {
      ShuffleFrom(a, stream, a.Length - 1, start);
    }
  }

  /** The loop of the shuffle: positions `i` down to 1, each exchanged with a
      position drawn at or below it. */
  method ShuffleFrom(a: array<string>, stream: nat -> nat, i0: nat, start: nat)
    requires i0 < a.Length
    modifies a
    ensures a[..] == ShuffleDown(old(a[..]), stream, i0, start)
  {
    ghost var s0 := a[..];
    var i := i0;
    var step := start;
    while i > 0
      invariant 0 <= i < a.Length
      invariant ShuffleDown(a[..], stream, i, step) == ShuffleDown(s0, stream, i0, start)
      decreases i
    {
      var j := stream(step) % (i + 1);
      ghost var before := a[..];
      Exchange(a, i, j);
      SwapStep(before, stream, i, step);
      i := i - 1;
      step := step + 1;
    }
  }

  /** `a[i], a[j] = a[j], a[i]` */
  method Exchange(a: array<string>, i: nat, j: nat)
    requires i < a.Length && j < a.Length
    modifies a
    ensures a[..] == Swap(old(a[..]), i, j)
  {
    a[i], a[j] := a[j], a[i];
  }

  /** One exchange of the loop is one step of `ShuffleDown`. */
  lemma SwapStep(before: seq<string>, stream: nat -> nat, i: nat, step: nat)
    requires 0 < i < |before|
    ensures var j := stream(step) % (i + 1);
            ShuffleDown(before, stream, i, step) == ShuffleDown(Swap(before, i, j), stream, i - 1, step + 1)
  {
  }

  /** A list shuffled in an array of its own. */
  method ShuffleList(s: seq<string>, stream: nat -> nat, start: nat) returns (r: seq<string>)
    ensures r == Shuffled(s, stream, start)
  {
    var a := new string[|s|](k requires 0 <= k < |s| => s[k]);
    assert a[..] == s;
    Shuffle(a, stream, start);
    r := a[..];
  }

  /** The loop over the top lines. */
  method BuildResumeQuestions(top: seq<string>) returns (rs: seq<string>)
    ensures rs == ResumeQuestions(top)
  {
    rs := [];
    for k := 0 to |top|
      invariant rs == ResumeQuestions(top[..k])
    {
      rs := rs + [ResumeQuestion(top[k])];
    }
    assert top[..|top|] == top;
  }

  /** The loop over the first twelve skills, then the role question. */
  method BuildTechnicalQuestions(skills: seq<string>, role: string) returns (tech: seq<string>)
    ensures tech == TechnicalQuestions(skills, role)
  {
    tech := [];
    var first := Take(skills, 12);
    for k := 0 to |first|
      invariant |tech| == k
      invariant forall m :: 0 <= m < k ==> tech[m] == TechQuestion(first[m])
    {
      tech := tech + [TechQuestion(first[k])];
    }
    if |role| > 2 {
      tech := tech + [RoleQuestion(role)];
    }
  }

  /** The resume list: one question per top line, shuffled, at most six kept. */
  method ResumeList(sanitized: string, stream: nat -> nat) returns (r: seq<string>)
    ensures r == Take(Shuffled(ResumeQuestions(TopLines(sanitized, 6)), stream, Draws(3)), 6)
  {
    var top := TopLines(sanitized, 6);
    var rs := BuildResumeQuestions(top);
    r := ShuffleList(rs, stream, Draws(3));
    r := Take(r, 6);
  }

  /** The technical list: shuffled after the general and the resume lists, at most
      eight kept. */
  method TechnicalList(sanitized: string, role: string, order: seq<string>, stream: nat -> nat, start: nat)
    returns (r: seq<string>)
    requires IsVocabularyOrder(order)
    ensures r == Take(Shuffled(TechnicalQuestions(Skills.Skills(sanitized, 30, order), role), stream, start), 8)
  {
    var skills := ExtractSkills(sanitized, 30, order);
    var tech := BuildTechnicalQuestions(skills, role);
    r := ShuffleList(tech, stream, start);
    r := Take(r, 8);
  }

  /** The three lists of `generate_interview_questions_safe(resume_text, role)`, with
      the order in which the skill vocabulary is visited and the generator's draws
      as parameters. */
  method GenerateQuestions(resumeText: string, role: string, order: seq<string>, stream: nat -> nat)
    returns (hr: seq<string>, resumeSpecific: seq<string>, technical: seq<string>)
    requires IsVocabularyOrder(order)
    ensures hr == Shuffled(HrQuestions, stream, 0)
    ensures resumeSpecific
              == Take(Shuffled(ResumeQuestions(TopLines(SanitizeText(resumeText), 6)), stream, Draws(3)), 6)
    ensures technical
              == Take(Shuffled(TechnicalQuestions(Skills.Skills(SanitizeText(resumeText), 30, order), role),
                               stream, Draws(3) + Draws(|TopLines(SanitizeText(resumeText), 6)|)), 8)
  {
    var sanitized := SanitizeText(resumeText);
    hr := ShuffleList(HrQuestions, stream, 0);
    resumeSpecific := ResumeList(sanitized, stream);
    var start := Draws(3) + Draws(|TopLines(sanitized, 6)|);
    technical := TechnicalList(sanitized, role, order, stream, start);
  }

  /** The general list is always the three fixed questions, in some order. */
  lemma HrIsFixedThree(stream: nat -> nat)
    ensures |Shuffled(HrQuestions, stream, 0)| == 3
    ensures multiset(Shuffled(HrQuestions, stream, 0)) == multiset(HrQuestions)
  {
    ShuffledPermutation(HrQuestions, stream, 0);
  }

  /** Text without a line break is one piece. */
  lemma OnePiece(s: string)
    requires forall i :: 0 <= i < |s| ==> !IsLineBreak(s[i])
    ensures Pieces(s) == [s]
  {
    assert LineEnd(s, 0) == |s|;
  }

  /** A tidy text is its own only non-blank line. */
  lemma TidyLines(s: string)
    requires Tidy(s)
    ensures NonBlankLines(s) == if s == [] then [] else [s]
  {
    TidyNoLineBreak(s);
    OnePiece(s);
    TidyStripped(s);
    StripAllOne(s);
  }

  /** One piece gives its stripped self, unless that is blank. */
  lemma StripAllOne(s: string)
    requires forall i :: 0 <= i < |s| ==> !IsLineBreak(s[i])
    ensures StripAll([s]) == if Strip(s) == [] then [] else [Strip(s)]
  {
    var ps := [s];
    assert ps[0] == s && ps[1..] == [];
  }

  /** Sanitizing joins the resume into one line, so the resume list holds at most
      one question, and it asks about the whole sanitized text when there is one. */
  lemma OneResumeLine(resumeText: string)
    ensures |TopLines(SanitizeText(resumeText), 6)| <= 1
    ensures SanitizeText(resumeText) != [] ==> TopLines(SanitizeText(resumeText), 6) == [SanitizeText(resumeText)]
  {
    var s := SanitizeText(resumeText);
    TidyLines(s);
    var r := TopLines(s, 6);
    if s != [] {
      assert |r| == 1 && r[0] in [s];
    }
  }

  /** Every question in the lists comes from the resume, the role or the fixed list. */
  lemma TechnicalFromSkills(skills: seq<string>, role: string, stream: nat -> nat, start: nat, q: string)
    requires q in Shuffled(TechnicalQuestions(skills, role), stream, start)
    ensures (exists m :: 0 <= m < |skills| && m < 12 && q == TechQuestion(skills[m]))
            || (|role| > 2 && q == RoleQuestion(role))
  {
    var t := TechnicalQuestions(skills, role);
    ShuffledPermutation(t, stream, start);
    assert q in multiset(t);
    var m :| 0 <= m < |t| && t[m] == q;
    if m < Min(12, |skills|) {
      assert q == TechQuestion(skills[m]);
    }
  }
}
