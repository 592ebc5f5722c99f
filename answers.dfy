/** `generate_sample_answer` (app.py:461-508): a short sample answer to an interview
    question, built from fixed sentences and from what the resume offers (skills,
    the best project line paraphrased, the first metric). */
module Answers {
  import opened Text
  import opened Patterns
  import opened Sanitize
  import opened Skills
  import opened Lines
  import opened Paraphrase
  import opened Metrics
  import opened Masking

  /** The alternatives of the tool pattern of the experience branch. */
  const TechWords: set<string> :=
    {"python", "sql", "tensorflow", "pytorch", "docker", "aws", "gcp", "spark", "keras", "sklearn", "react", "node", "java"}

  /** Which template answers a question, decided on its lowered text in this order. */
  datatype Intent = WhyRole | TellMe | Walkthrough | Experience | General

  function IntentOf(qlow: string): Intent {
    if (Contains(qlow, "why") && Contains(qlow, "role")) || StartsWith(qlow, "why do you want") then WhyRole
    else if Contains(qlow, "tell me about yourself") || StartsWith(qlow, "tell me") then TellMe
    else if Contains(qlow, "explain") || Contains(qlow, "describe") || Contains(qlow, "walk me through")
            || Contains(qlow, "project") || Contains(qlow, "responsibility") then Walkthrough
    else if Contains(qlow, "experience with") || StartsWith(qlow, "describe your experience with")
            || Contains(qlow, "how do you") then Experience
    else General
  }

  /** A question that starts "describe your experience with" is answered by the
      walkthrough template: the test for that prefix in the experience branch never
      decides anything, since "describe" is tested first. */
  lemma ExperiencePrefixShadowed(qlow: string)
    requires StartsWith(qlow, "describe your experience with")
    ensures IntentOf(qlow) != Experience
  {
    assert qlow[..8] == "describe";
    assert OccursAt(qlow, "describe", 0);
  }

  /** `", ".join(skills[:3]) if skills else "relevant technical skills"` */
  function SkillSnip(skills: seq<string>): (r: string)
    ensures skills == [] ==> r == "relevant technical skills"
    ensures |skills| == 1 ==> r == skills[0]
    ensures |skills| == 2 ==> r == skills[0] + ", " + skills[1]
    ensures |skills| >= 3 ==> r == skills[0] + ", " + skills[1] + ", " + skills[2]
    ensures skills != [] ==> StartsWith(r, skills[0])
  {
    if skills == [] then "relevant technical skills"
    else
      var r := Join(", ", Take(skills, 3));
      JoinStartsWith(", ", Take(skills, 3));
      JoinUpToThree(", ", Take(skills, 3));
      r
  }

  /** A join of one, two or three strings written out. */
  lemma JoinUpToThree(sep: string, xs: seq<string>)
    requires 1 <= |xs| <= 3
    ensures |xs| == 1 ==> Join(sep, xs) == xs[0]
    ensures |xs| == 2 ==> Join(sep, xs) == xs[0] + sep + xs[1]
    ensures |xs| == 3 ==> Join(sep, xs) == xs[0] + sep + xs[1] + sep + xs[2]
  {
    if |xs| >= 2 {
      var ys := xs[1..];
      assert Join(sep, xs) == xs[0] + sep + Join(sep, ys);
      if |xs| == 3 {
        assert ys[1..] == [xs[2]];
        assert Join(sep, ys) == xs[1] + sep + xs[2];
      } else {
        assert Join(sep, ys) == xs[1];
      }
    }
  }

  lemma JoinStartsWith(sep: string, xs: seq<string>)
    requires xs != []
    ensures StartsWith(Join(sep, xs), xs[0])
  {
    if |xs| > 1 {
      assert Join(sep, xs) == xs[0] + (sep + Join(sep, xs[1..]));
    }
  }

  /** `extract_first_metric_safe(rt) or "measurable improvements"` */
  function MetricOrDefault(rt: string): (r: string)
    ensures r != []
    ensures ExtractFirstMetricAsWritten(rt) != [] ==> r == ExtractFirstMetricAsWritten(rt)
    ensures ExtractFirstMetricAsWritten(rt) == [] ==> r == "measurable improvements"
  {
    var m := ExtractFirstMetricAsWritten(rt);
    if m == [] then "measurable improvements" else m
  }

  /** The metric an answer quotes never carries a run of four or more digits: it
      is a piece of the sanitized resume, which has none, or the fixed phrase. */
  lemma MetricMasked(rt: string)
    ensures ShortRuns(MetricOrDefault(rt))
  {
    var m := ExtractFirstMetricAsWritten(rt);
    if m == [] {
      PhraseShort();
    } else {
      SanitizeMasksLongNumbers(rt);
      ContainedShort(SanitizeText(rt), m);
    }
  }

  /** The fixed phrase holds no digit. */
  lemma PhraseShort()
    ensures ShortRuns("measurable improvements")
  {
    var w1, w2 := "measurable", " improvements";
    assert DigitFree(w1);
    assert DigitFree(w2);
    DigitFreeAppend(w1, w2);
    assert w1 + w2 == "measurable improvements";
    DigitFreeShort(w1 + w2);
  }

  lemma DigitFreeAppend(a: string, b: string)
    requires DigitFree(a) && DigitFree(b)
    ensures DigitFree(a + b)
  {
    forall k | 0 <= k < |a + b| ensures !IsDigit((a + b)[k]) {
      if k >= |a| {
        assert (a + b)[k] == b[k - |a|];
      }
    }
  }

  /** The "For example" sentence of the why-this-role answer: absent without a
      paraphrase, and otherwise ending in exactly the paraphrase's own full stop or
      one added to it. */
  function Example(para: string): (r: string)
    ensures para == [] ==> r == []
    ensures para != [] ==> StartsWith(r, " For example, I " + para) && r[|r| - 1] == '.'
    ensures para != [] && para[|para| - 1] == '.' ==> |r| == |" For example, I " + para|
    ensures para != [] && para[|para| - 1] != '.' ==> |r| == |" For example, I " + para| + 1
  {
    if para == [] then []
    else if para[|para| - 1] == '.' then " For example, I " + para
    else " For example, I " + para + "."
  }

  /** The first tool of the pattern in the lowered question, if any: nothing
      exactly when no tool stands anywhere as a whole word. */
  function FirstTech(qlow: string): (r: Option<string>)
    ensures r.Some? ==> r.value in TechWords && Contains(qlow, r.value)
  {
    match Search(qlow, WordIn(TechWords, false))
    case None => None
    case Some(k) =>
      var n := MatchLen(WordIn(TechWords, false), qlow, k);
      assert OccursAt(qlow, qlow[k..k + n], k);
      Some(qlow[k..k + n])
  }

  /** No tool is found exactly when no tool stands anywhere as a whole word. */
  lemma FirstTechNone(qlow: string)
    ensures FirstTech(qlow).None? <==> forall j :: 0 <= j < |qlow| ==> WordInAt(qlow, j, TechWords, false) == 0
  {
    var p := WordIn(TechWords, false);
    match Search(qlow, p)
    case None =>
      forall j | 0 <= j < |qlow|
        ensures WordInAt(qlow, j, TechWords, false) == 0
      {
        assert MatchLen(p, qlow, j) == 0;
      }
    case Some(k) =>
      assert MatchLen(p, qlow, k) > 0;
  }

  /** The tool found is the leftmost one, a whole word: a run of word characters
      with no word character on either side. */
  lemma FirstTechAt(qlow: string, k: nat)
    requires k < |qlow| && WordInAt(qlow, k, TechWords, false) > 0
    requires forall j :: 0 <= j < k ==> WordInAt(qlow, j, TechWords, false) == 0
    ensures var n := WordInAt(qlow, k, TechWords, false);
            FirstTech(qlow) == Some(qlow[k..k + n])
            && (k == 0 || !IsWordChar(qlow[k - 1]))
            && (k + n == |qlow| || !IsWordChar(qlow[k + n]))
  {
    var p := WordIn(TechWords, false);
    assert MatchLen(p, qlow, k) > 0;
    forall j | 0 <= j < k
      ensures MatchLen(p, qlow, j) == 0
    {
    }
    SearchAt(qlow, p, k);
  }

  /** The tool the experience answer names: the leftmost tool of the question when
      one stands in it as a whole word, else the first skill, else none (""). */
  function ExperienceTool(qlow: string, skills: seq<string>): (r: string)
    ensures (exists j :: 0 <= j < |qlow| && WordInAt(qlow, j, TechWords, false) > 0) ==> r in TechWords
    ensures (forall j :: 0 <= j < |qlow| ==> WordInAt(qlow, j, TechWords, false) == 0) ==>
              r == if skills != [] then skills[0] else []
    ensures FirstTech(qlow).Some? ==> r == FirstTech(qlow).value
  {
    FirstTechNone(qlow);
    match FirstTech(qlow)
    case Some(t) => t
    case None => if skills != [] then skills[0] else []
  }

  /** The answer for the stripped question `q`, the skills found (at most six), the
      paraphrased project line and the metric (never empty). */
  function Compose(q: string, skills: seq<string>, para: string, metric: string): string {
    var qlow := Lower(q);
    match IntentOf(qlow)
    case WhyRole => WhyRoleAnswer(SkillSnip(skills), para)
    case TellMe => TellMeAnswer(SkillSnip(skills), para, metric)
    case Walkthrough => WalkthroughAnswer(skills, para, metric)
    case Experience => ExperienceAnswer(qlow, skills, metric)
    case General => GeneralAnswer(SkillSnip(skills), para, metric)
  }

  function WhyRoleAnswer(snip: string, para: string): string {
    var lead := "I'm excited about this role " + "because it aligns with my experience in " + snip
                + " and the type of work described.";
    var close := " I’d love to bring that impact here and help the team ship measurable results.";
    Strip(lead + Example(para) + close)
  }

  /** The three sentences joined by single spaces. */
  function TellMeAnswer(snip: string, para: string, metric: string): string {
    var s1 := "I’m a practitioner " + "with hands-on experience in " + snip + " and building data-driven solutions.";
    var s2 := "Recently, I worked on projects such as "
              + (if para != [] then para else "fraud detection and lead generation projects")
              + " that focused on delivering " + metric + ".";
    var s3 := "I enjoy solving problems end-to-end and collaborating with cross-functional teams"
              + " to turn insights into production outcomes.";
    Strip(s1 + " " + s2 + " " + s3)
  }

  function WalkthroughAnswer(skills: seq<string>, para: string, metric: string): string {
    if para != [] then
      para + ". I " + LedEffort(if skills != [] then skills[0] else "relevant tools", metric)
    else
      "I worked on projects relevant to this area using " + SkillSnip(skills)
      + ". I can walk through a specific example if you'd like."
  }

  /** A sentence that reports the metric between two fixed pieces. */
  function AroundMetric(before: string, metric: string, after: string): (r: string)
    ensures StartsWith(r, before) && Contains(r, metric)
  {
    StartsWithConcat(before, metric + after);
    ContainsConcat(before, metric, after);
    assert before + (metric + after) == before + metric + after;
    before + metric + after
  }

  /** The rest of the walkthrough sentence after the paraphrase: the tool and the metric. */
  function LedEffort(tool: string, metric: string): string {
    AroundMetric("led this effort using " + tool + " and focused on improving outcomes; we achieved ", metric, ".")
  }

  function ExperienceAnswer(qlow: string, skills: seq<string>, metric: string): string {
    ToolAnswer(ExperienceTool(qlow, skills), skills, metric)
  }

  /** The experience answer for the tool it names ("" for none). */
  function ToolAnswer(tool: string, skills: seq<string>, metric: string): string {
    if tool != [] then
      "I have practical experience with " + tool + ". On my recent project I used " + tool
      + " to build pipelines and evaluate models; this helped improve results by " + metric + "."
    else
      "I have hands-on experience with " + SkillSnip(skills) + ". I approach technical problems by clarifying"
      + " requirements, prototyping, validating with metrics, and productionizing."
  }

  function GeneralAnswer(snip: string, para: string, metric: string): string {
    if para != [] then
      para + ". I " + UsedToAchieve(snip, metric)
    else
      DeliveredMetric(snip, metric)
  }

  /** The rest of the general sentence after the paraphrase: the skills and the metric. */
  function UsedToAchieve(snip: string, metric: string): string {
    AroundMetric("used " + snip + " to achieve ", metric,
                 " and collaborated with cross-functional teams to measure impact and iterate quickly.")
  }

  /** The general answer without a paraphrase: the skills and the metric. */
  function DeliveredMetric(snip: string, metric: string): string {
    AroundMetric("I have relevant experience in " + snip + " and can discuss a recent project where I delivered ",
                 metric, ".")
  }

  /** `a + b` starts with `a`. */
  lemma StartsWithConcat(a: string, b: string)
    ensures StartsWith(a + b, a)
  {
    assert (a + b)[..|a|] == a;
  }

  /** `metric` occurs in `a + metric + b`. */
  lemma ContainsConcat(a: string, metric: string, b: string)
    ensures Contains(a + metric + b, metric)
  {
    assert (a + metric + b)[|a|..|a| + |metric|] == metric;
    assert OccursAt(a + metric + b, metric, |a|);
  }

  /** What occurs in `b` occurs in `a + b`. */
  lemma ContainsAfter(a: string, b: string, sub: string)
    requires Contains(b, sub)
    ensures Contains(a + b, sub)
  {
    var i: nat :| i <= |b| && OccursAt(b, sub, i);
    assert (a + b)[|a| + i..|a| + i + |sub|] == b[i..i + |sub|];
    assert OccursAt(a + b, sub, |a| + i);
  }

  /** What occurs in `a` occurs in `a + b`. */
  lemma ContainsBefore(a: string, b: string, sub: string)
    requires Contains(a, sub)
    ensures Contains(a + b, sub)
  {
    var i: nat :| i <= |a| && OccursAt(a, sub, i);
    assert (a + b)[i..i + |sub|] == a[i..i + |sub|];
    assert OccursAt(a + b, sub, i);
  }

  /** `str.strip()` leaves alone a text that starts and ends with something
      other than whitespace. */
  lemma StripKept(s: string)
    requires s != [] && !IsSpace(s[0]) && !IsSpace(s[|s| - 1])
    ensures Strip(s) == s
  {
    assert [] + s + [] == s;
    StripPadded([], s, []);
  }

  /** Both inserted pieces occur in a text made of fixed pieces around them. */
  lemma Slots(p1: string, x1: string, p2: string, x2: string, p3: string)
    ensures Contains(p1 + x1 + p2 + x2 + p3, x1) && Contains(p1 + x1 + p2 + x2 + p3, x2)
  {
    ContainsConcat(p1, x1, p2);
    ContainsBefore(p1 + x1 + p2, x2, x1);
    ContainsBefore(p1 + x1 + p2 + x2, p3, x1);
    ContainsConcat(p1 + x1 + p2, x2, p3);
  }

  /** The why-this-role answer names the skills and, when there is one, the
      paraphrase. */
  lemma WhyRoleCarries(snip: string, para: string)
    ensures Contains(WhyRoleAnswer(snip, para), snip)
    ensures para != [] ==> Contains(WhyRoleAnswer(snip, para), para)
  {
    var l0, l1, l2 := "I'm excited about this role ", "because it aligns with my experience in ",
                      " and the type of work described.";
    var lead := l0 + l1 + snip + l2;
    var close := " I’d love to bring that impact here and help the team ship measurable results.";
    var ex := Example(para);
    var s := lead + ex + close;
    assert s[0] == l0[0] == 'I';
    assert s[|s| - 1] == close[|close| - 1] == '.';
    StripKept(s);
    ContainsConcat(l0 + l1, snip, l2);
    ContainsBefore(lead, ex, snip);
    ContainsBefore(lead + ex, close, snip);
    if para != [] {
      ExampleCarries(para);
      ContainsConcat(lead, ex, close);
      ContainsAfter(lead, ex, para);
      ContainsBefore(lead + ex, close, para);
    }
  }

  /** The example sentence holds the paraphrase. */
  lemma ExampleCarries(para: string)
    requires para != []
    ensures Contains(Example(para), para)
  {
    var intro := " For example, I ";
    if para[|para| - 1] == '.' {
      ContainsAfter(intro, para, para) by { assert OccursAt(para, para, 0); }
    } else {
      ContainsConcat(intro, para, ".");
    }
  }

  /** The tell-me-about-yourself answer names the skills and the metric, and the
      paraphrase when there is one. */
  lemma TellMeCarries(snip: string, para: string, metric: string)
    ensures Contains(TellMeAnswer(snip, para, metric), snip)
    ensures Contains(TellMeAnswer(snip, para, metric), metric)
    ensures para != [] ==> Contains(TellMeAnswer(snip, para, metric), para)
  {
    var a0, a1, a2 := "I’m a practitioner ", "with hands-on experience in ", " and building data-driven solutions.";
    var story := if para != [] then para else "fraud detection and lead generation projects";
    var b1, b2 := "Recently, I worked on projects such as ", " that focused on delivering ";
    var c1, c2 := "I enjoy solving problems end-to-end and collaborating with cross-functional teams",
                  " to turn insights into production outcomes.";
    var s1 := a0 + a1 + snip + a2;
    var s2 := b1 + story + b2 + metric + ".";
    var s3 := c1 + c2;
    var s := s1 + " " + s2 + " " + s3;
    assert s[0] == a0[0] == 'I';
    assert s[|s| - 1] == c2[|c2| - 1] == '.';
    StripKept(s);
    ContainsConcat(a0 + a1, snip, a2);
    InFirst(s1, s2, s3, snip);
    Slots(b1, story, b2, metric, ".");
    InSecond(s1, s2, s3, metric);
    InSecond(s1, s2, s3, story);
  }

  /** What the first of three space-joined sentences holds, the whole holds. */
  lemma InFirst(s1: string, s2: string, s3: string, sub: string)
    requires Contains(s1, sub)
    ensures Contains(s1 + " " + s2 + " " + s3, sub)
  {
    ContainsBefore(s1, " ", sub);
    ContainsBefore(s1 + " ", s2, sub);
    ContainsBefore(s1 + " " + s2, " ", sub);
    ContainsBefore(s1 + " " + s2 + " ", s3, sub);
  }

  /** What the second of three space-joined sentences holds, the whole holds. */
  lemma InSecond(s1: string, s2: string, s3: string, sub: string)
    requires Contains(s2, sub)
    ensures Contains(s1 + " " + s2 + " " + s3, sub)
  {
    ContainsAfter(s1 + " ", s2, sub);
    ContainsBefore(s1 + " " + s2, " ", sub);
    ContainsBefore(s1 + " " + s2 + " ", s3, sub);
  }

  /** The walkthrough answer with a paraphrase opens with it and reports the metric
      and the first skill; without one it names the skills. */
  lemma WalkthroughCarries(skills: seq<string>, para: string, metric: string)
    ensures para != [] ==> StartsWith(WalkthroughAnswer(skills, para, metric), para + ". I ")
    ensures para != [] ==> Contains(WalkthroughAnswer(skills, para, metric), metric)
    ensures para != [] && skills != [] ==> Contains(WalkthroughAnswer(skills, para, metric), skills[0])
    ensures para == [] ==> Contains(WalkthroughAnswer(skills, para, metric), SkillSnip(skills))
  {
    if para != [] {
      var head := para + ". I ";
      var tool := if skills != [] then skills[0] else "relevant tools";
      var led := LedEffort(tool, metric);
      StartsWithConcat(head, led);
      Slots("led this effort using ", tool, " and focused on improving outcomes; we achieved ", metric, ".");
      ContainsAfter(head, led, metric);
      ContainsAfter(head, led, tool);
    } else {
      ContainsConcat("I worked on projects relevant to this area using ", SkillSnip(skills),
                     ". I can walk through a specific example if you'd like.");
    }
  }

  /** The experience answer names the tool and reports the metric; with no tool it
      names the skills. */
  lemma ExperienceCarries(qlow: string, skills: seq<string>, metric: string)
    ensures var tool := ExperienceTool(qlow, skills);
            tool != [] ==> Contains(ExperienceAnswer(qlow, skills, metric), tool)
                           && Contains(ExperienceAnswer(qlow, skills, metric), metric)
    ensures ExperienceTool(qlow, skills) == [] ==>
              Contains(ExperienceAnswer(qlow, skills, metric), SkillSnip(skills))
  {
    ToolCarries(ExperienceTool(qlow, skills), skills, metric);
  }

  lemma ToolCarries(tool: string, skills: seq<string>, metric: string)
    ensures tool != [] ==> Contains(ToolAnswer(tool, skills, metric), tool)
                           && Contains(ToolAnswer(tool, skills, metric), metric)
    ensures tool == [] ==> Contains(ToolAnswer(tool, skills, metric), SkillSnip(skills))
  {
    if tool != [] {
      var p1 := "I have practical experience with ";
      var p2 := ". On my recent project I used ";
      var p3 := " to build pipelines and evaluate models; this helped improve results by ";
      Slots(p1, tool, p2, tool, p3);
      ContainsBefore(p1 + tool + p2 + tool + p3, metric, tool);
      ContainsBefore(p1 + tool + p2 + tool + p3 + metric, ".", tool);
      ContainsConcat(p1 + tool + p2 + tool + p3, metric, ".");
    } else {
      var h, c := "I have hands-on experience with ", ". I approach technical problems by clarifying";
      ContainsConcat(h, SkillSnip(skills), c);
      ContainsBefore(h + SkillSnip(skills) + c,
                     " requirements, prototyping, validating with metrics, and productionizing.", SkillSnip(skills));
    }
  }

  /** The general answer reports the metric and names the skills, and opens with
      the paraphrase when there is one. */
  lemma GeneralCarries(snip: string, para: string, metric: string)
    ensures para != [] ==> StartsWith(GeneralAnswer(snip, para, metric), para + ". I ")
    ensures Contains(GeneralAnswer(snip, para, metric), metric)
    ensures Contains(GeneralAnswer(snip, para, metric), snip)
  {
    if para != [] {
      var head := para + ". I ";
      var used := UsedToAchieve(snip, metric);
      StartsWithConcat(head, used);
      Slots("used ", snip, " to achieve ", metric,
            " and collaborated with cross-functional teams to measure impact and iterate quickly.");
      ContainsAfter(head, used, metric);
      ContainsAfter(head, used, snip);
    } else {
      Slots("I have relevant experience in ", snip, " and can discuss a recent project where I delivered ",
            metric, ".");
    }
  }

  /** `generate_sample_answer(question, resume_text, role)`, with the order in which
      the skill vocabulary is visited as a parameter. */
  method GenerateSampleAnswer(question: string, resumeText: string, role: string, order: seq<string>)
    returns (answer: string)
    requires IsVocabularyOrder(order)
    ensures exists line :: IsBestProjectLine(Strip(resumeText), Strip(role), line)
              && answer == Compose(Strip(question), Skills.Skills(Strip(resumeText), 6, order),
                                   ParaphraseLine(line, 140), MetricOrDefault(Strip(resumeText)))
  {
    var q := Strip(question);
    var rt := Strip(resumeText);
    var r := Strip(role);
    var skills := ExtractSkills(rt, 6, order);
    var line := FindBestProjectLine(rt, r);
    var para := ParaphraseLine(line, 140);
    var metric := ExtractFirstMetricAsWritten(rt);
    if metric == [] {
      metric := "measurable improvements";
    }
    answer := Compose(q, skills, para, metric);
  }

  /** "It won't invent new numbers": for a resume without digits, no skill and no
      paraphrased line spliced into the answer holds a digit, and the metric is the
      fixed phrase. */
  lemma NoNewNumbers(resumeText: string, role: string, order: seq<string>, line: string)
    requires IsVocabularyOrder(order) && DigitFree(resumeText)
    requires IsBestProjectLine(Strip(resumeText), Strip(role), line)
    ensures forall x :: x in Skills.Skills(Strip(resumeText), 6, order) ==> DigitFree(x)
    ensures DigitFree(ParaphraseLine(line, 140))
    ensures MetricOrDefault(Strip(resumeText)) == "measurable improvements"
  {
    StripDigitFree(resumeText);
    SkillsDigitFree(Strip(resumeText), 6, order);
    NoNewLineNumbers(Strip(resumeText), Strip(role), line);
    NoNewMetric(Strip(resumeText));
  }

  /** Without a digit there is no metric, so the answer says the fixed phrase. */
  lemma NoNewMetric(rt: string)
    requires DigitFree(rt)
    ensures MetricOrDefault(rt) == "measurable improvements"
  {
    NoDigitNoMetric(rt);
  }

  /** Stripping a digit-free text leaves it digit-free. */
  lemma StripDigitFree(t: string)
    requires DigitFree(t)
    ensures DigitFree(Strip(t))
  {
    StripChars(t);
    CharsDigitFree(Strip(t), t);
  }

  /** The best line of a digit-free text paraphrases to a digit-free line. */
  lemma NoNewLineNumbers(rt: string, role: string, line: string)
    requires DigitFree(rt)
    requires IsBestProjectLine(rt, role, line)
    ensures DigitFree(ParaphraseLine(line, 140))
  {
    BestLineChars(rt, role, line);
    CharsDigitFree(line, rt);
    ParaphraseDigitFree(line, 140);
  }

  /** A string made of characters of a digit-free string is digit-free. */
  lemma CharsDigitFree(a: string, b: string)
    requires forall c :: c in a ==> c in b
    requires DigitFree(b)
    ensures DigitFree(a)
  {
    forall k | 0 <= k < |a| ensures !IsDigit(a[k]) {
      assert a[k] in a;
      var m :| 0 <= m < |b| && b[m] == a[k];
    }
  }
}
