/** `score_answer_simple_fn` (app.py:537-556): a score out of 10 for a practice
    answer from three checks (length, a number, a tool), the notes for the checks
    that failed, and a STAR-shaped rewrite of the answer's first sentence. */
module Scorer {
  import opened Text
  import opened Patterns

  /** The alternatives of the tool pattern of the scorer. */
  const ScoreTools: set<string> :=
    {"python", "sql", "tensorflow", "pytorch", "docker", "aws", "gcp", "spark", "react", "node", "java"}

  const ImprovedHead := "Situation: [context]. Task: [what]. Action: I used [tools] to "
  const ImprovedTail := ". Result: [metric]."

  /** The three fields of the result. */
  datatype Assessment = Assessment(score: int, feedback: string, improved: string)

  /** Fewer than thirty whitespace-separated words. */
  predicate IsShort(text: string) {
    |SplitWs(text)| < 30
  }

  /** `re.search(r"\d{1,3}%|\b\d+k?\b", text)` finds something. */
  predicate HasNumber(text: string) {
    Search(text, NumberMention).Some?
  }

  /** The lowered text names one of the tools as a whole word. */
  predicate NamesTool(text: string) {
    Search(Lower(text), WordIn(ScoreTools, false)).Some?
  }

  /** The note for each check that can fail, and the points it costs. */
  datatype Note = ShortNote | NumberNote | ToolNote

  function NoteText(n: Note): (r: string)
    ensures r != [] && r[0] != 'G'
  {
    match n
    case ShortNote => "Short — add context & outcome."
    case NumberNote => "Add numeric impact if possible."
    case ToolNote => "Mention tools used."
  }

  function Penalty(n: Note): nat {
    match n
    case ShortNote => 1
    case NumberNote => 2
    case ToolNote => 1
  }

  function Deduction(notes: seq<Note>): nat {
    if notes == [] then 0 else Penalty(notes[0]) + Deduction(notes[1..])
  }

  /** The notes for the checks that failed, in the order they are made, from the
      outcomes of the three checks. */
  function NotesOf(short: bool, number: bool, tool: bool): (r: seq<Note>)
    ensures |r| <= 3
    ensures ShortNote in r <==> short
    ensures NumberNote in r <==> !number
    ensures ToolNote in r <==> !tool
  {
    (if short then [ShortNote] else []) + (if number then [] else [NumberNote])
    + (if tool then [] else [ToolNote])
  }

  function Notes(text: string): seq<Note> {
    NotesOf(IsShort(text), HasNumber(text), NamesTool(text))
  }

  /** The points from the outcomes of the three checks: 5, one less for a short
      answer, two more for a number, one more for a tool, kept within 0..10. */
  function Points(short: bool, number: bool, tool: bool): (r: int)
    ensures 4 <= r <= 8
  {
    Clamp(5 - (if short then 1 else 0) + (if number then 2 else 0) + (if tool then 1 else 0), 0, 10)
  }

  /** `" ".join(feedback) if feedback else "Good"` */
  function FeedbackText(notes: seq<Note>): (r: string)
    ensures notes == [] <==> r == "Good"
  {
    if notes == [] then "Good"
    else
      var texts := seq(|notes|, i requires 0 <= i < |notes| => NoteText(notes[i]));
      JoinHead(texts);
      Join(" ", texts)
  }

  /** `max(lo, min(hi, x))` */
  function Clamp(x: int, lo: int, hi: int): (r: int)
    requires lo <= hi
    ensures lo <= r <= hi
    ensures lo <= x <= hi ==> r == x
  {
    if x < lo then lo else if x > hi then hi else x
  }

  /** `text.split('.')[0]`: the text up to its first full stop. */
  function FirstSentence(text: string): (r: string)
    ensures StartsWith(text, r)
    ensures '.' !in r
    ensures |r| < |text| ==> text[|r|] == '.'
  {
    if text == [] || text[0] == '.' then []
    else
      var r := [text[0]] + FirstSentence(text[1..]);
      assert text == [text[0]] + text[1..];
      r
  }

  function Score(text: string): int {
    Points(IsShort(text), HasNumber(text), NamesTool(text))
  }

  /** The STAR template around the first 120 characters of the first sentence. */
  function Improved(text: string): string {
    ImprovedHead + Take(FirstSentence(text), 120) + ImprovedTail
  }

  /** `score_answer_simple_fn(answer)` */
  function ScoreAnswer(answer: string): (r: Assessment)
    ensures Strip(answer) == [] ==> r == Assessment(0, "No answer provided.", "")
    ensures Strip(answer) != [] ==> 4 <= r.score <= 8
  {
    var text := Strip(answer);
    if text == [] then Assessment(0, "No answer provided.", "")
    else Assessment(Score(text), FeedbackText(Notes(text)), Improved(text))
  }

  /** The score reads off the feedback: 8 less the points of the notes it gives. */
  lemma PointsFromNotes(short: bool, number: bool, tool: bool)
    ensures Points(short, number, tool) == 8 - Deduction(NotesOf(short, number, tool))
  {
    var a := if short then [ShortNote] else [];
    var b := if number then [] else [NumberNote];
    var c := if tool then [] else [ToolNote];
    DeductionAppend(a, b);
    DeductionAppend(a + b, c);
  }

  lemma {:induction false} DeductionAppend(a: seq<Note>, b: seq<Note>)
    ensures Deduction(a + b) == Deduction(a) + Deduction(b)
    decreases |a|
  {
    if a != [] {
      assert (a + b)[1..] == a[1..] + b;
      DeductionAppend(a[1..], b);
    } else {
      assert a + b == b;
    }
  }

  /** The first note is the first character of the joined notes. */
  lemma JoinHead(notes: seq<string>)
    requires notes != [] && notes[0] != []
    ensures Join(" ", notes) != [] && Join(" ", notes)[0] == notes[0][0]
  {
    if |notes| > 1 {
      assert Join(" ", notes) == notes[0] + (" " + Join(" ", notes[1..]));
    }
  }

  /** The feedback is "Good" exactly when the score is the top one, 8. */
  lemma GoodIffTopPoints(short: bool, number: bool, tool: bool)
    ensures FeedbackText(NotesOf(short, number, tool)) == "Good" <==> Points(short, number, tool) == 8
  {
    PointsFromNotes(short, number, tool);
    var notes := NotesOf(short, number, tool);
    if notes != [] {
      assert notes == [notes[0]] + notes[1..];
      assert Deduction(notes) >= Penalty(notes[0]) > 0;
    }
  }

  lemma GoodIffTopScore(answer: string)
    requires Strip(answer) != []
    ensures ScoreAnswer(answer).feedback == "Good" <==> ScoreAnswer(answer).score == 8
  {
    var text := Strip(answer);
    GoodIffTopPoints(IsShort(text), HasNumber(text), NamesTool(text));
  }

  /** The number check is `re.search`: it succeeds exactly when the pattern
      matches at some position. */
  lemma HasNumberIffMatch(text: string)
    ensures HasNumber(text) <==> exists j :: 0 <= j < |text| && NumberMentionAt(text, j) > 0
  {
    if HasNumber(text) {
      var k := Search(text, NumberMention).value;
      assert NumberMentionAt(text, k) > 0;
    } else {
      forall j | 0 <= j < |text| ensures NumberMentionAt(text, j) == 0 {
        assert MatchLen(NumberMention, text, j) == NumberMentionAt(text, j);
      }
    }
  }

  /** The rewrite keeps at most 120 characters of the answer's first sentence, taken
      from its start and holding no full stop. */
  lemma ImprovedKeepsFirstSentence(answer: string)
    requires Strip(answer) != []
    ensures var text := Strip(answer);
            var s := ScoreAnswer(answer).improved[|ImprovedHead|..|ScoreAnswer(answer).improved| - |ImprovedTail|];
            |s| <= 120 && StartsWith(text, s) && '.' !in s
  {
    var s := Take(FirstSentence(Strip(answer)), 120);
    assert ScoreAnswer(answer).improved == ImprovedHead + s + ImprovedTail;
    Middle(ImprovedHead, s, ImprovedTail);
    FirstSentenceCut(Strip(answer), 120);
  }

  /** The middle of `a + s + b` is `s`. */
  lemma Middle(a: string, s: string, b: string)
    ensures (a + s + b)[|a|..|a + s + b| - |b|] == s
  {
  }

  /** The first `n` characters of the first sentence start the text and hold no
      full stop. */
  lemma FirstSentenceCut(text: string, n: nat)
    ensures var s := Take(FirstSentence(text), n);
            |s| <= n && StartsWith(text, s) && '.' !in s
  {
    var f := FirstSentence(text);
    var s := Take(f, n);
    assert text[..|s|] == f[..|s|];
    assert forall c :: c in s ==> c in f;
  }
}
