# Interview-preparation helpers, modelled in Dafny

This project models the text-processing core of `app.py`, an interview-practice
application. Given a resume, an optional role and an optional job description,
the application:

- sanitizes the resume (removes e-mail addresses, web addresses, long numbers and
  phone numbers, replaces dashes and bullets, collapses whitespace);
- extracts likely skills;
- picks the resume's longest lines and the line that best fits the role;
- paraphrases that line and looks for a first metric (a percentage or a small number);
- builds a sample answer for a question;
- builds shuffled lists of general, resume-specific and technical questions;
- scores a practice answer;
- lists the job-description keywords the resume covers and the ones it misses.

Each Dafny module corresponds to one part of this core:

- `Text` (text.dfy): Python's string operations as used by the core, and ASCII character classes.
  - String operations: `strip`, `lower`, `split`, `join` and slicing.
  - Character classes: `\s`, `\d`, `\w` and letters.
- `Patterns` (patterns.dfy): the regular expressions of the core.
  - Each pattern is a function giving the length of the match at a position.
  - On top of these: `re.sub` (a left-to-right substitution scan), `re.search` (the leftmost match) and `re.findall` for character-class tokens between word boundaries.
- `Sanitize` (sanitize.dfy): `sanitize_text` and `sanitize_for_output`.
- `Masking` (masking.dfy): what their masking guarantees. No run of four or more digits survives either function.
- `Skills` (skills.dfy): `extract_skills_from_text_safe`.
  - A specification function, plus methods for its two loops, proved equal to that specification.
- `Lines` (lines.dfy): `top_lines`, as a stable longest-first insertion sort, and `find_best_project_line`.
  - The scan loop of `find_best_project_line` is a method.
- `Paraphrase` (paraphrase.dfy): `paraphrase_project_line_safe`.
- `Metrics` (metrics.dfy): `extract_first_metric_safe`, in two versions.
  - As written.
  - Corrected (see Findings).
- `Answers` (answers.dfy): `generate_sample_answer`.
  - The question routing and the five answer templates.
- `Questions` (questions.dfy): `generate_interview_questions_safe`.
  - `random.shuffle` is a Fisher–Yates shuffle in place on an array. It is driven by a stream of draws.
- `Scorer` (scorer.dfy): `score_answer_simple_fn`.
- `Keywords` (keywords.dfy): the keyword comparison of the suggestions tab.
  - The sorted intersection and difference of the job-description keywords and the sanitized resume's keywords, each cut to 25.

Some inputs of the program are not fixed by the code, so the model takes them as parameters:

- `order` is the order in which a Python `set` of strings is iterated. Only the skill vocabulary loop depends on it.
- `stream` is the sequence of numbers drawn from the seeded random generator. A draw `d` for position `i` becomes `d % (i + 1)`.

## Model

| member | source | states |
|---|---|---|
| Patterns.Search | app.py:445-448 | `re.search`: a hit is a position where the pattern matches, and no earlier position matches; no hit means no position of the text matches |
| Patterns.FindAllShape | app.py:291 | every token `re.findall` returns for a character-class pattern has a length within the pattern's bounds, and every character of the token is in the class |
| Sanitize.RunSubIsSubstitution | app.py:265-266 | the direct run replacement (each maximal run of the class becomes one space, every other character is kept in place) equals the general substitution scan run with the `\s+` or the bullet/dash pattern |
| Sanitize.CollapseWords | app.py:266 | `re.sub(r"\s+", " ", t).strip()` equals `" ".join(t.split())`: the whitespace-separated words of the text, in order, joined by single spaces |
| Sanitize.Collapse | app.py:266 | the result is `" ".join(t.split())`; every whitespace character in it is a single plain space with non-space characters on both sides, and the non-space characters of the text are kept exactly, in order |
| Sanitize.CollapseTidy | app.py:266 | collapsing is idempotent: text already in collapsed form is left unchanged |
| Sanitize.Undash | app.py:265 | the substitution is the direct run replacement with the bullet/dash class: each maximal run of bullets and dashes becomes one space, every other character is kept in place, and no bullet or dash remains |
| Sanitize.SanitizeText | app.py:259-267 | empty text gives ""; the result is in collapsed form (no line breaks, no leading, trailing or doubled whitespace) and holds no bullet or dash |
| Sanitize.SanitizeCollapsed | app.py:259-267 | sanitized text is a fixed point of the whitespace collapse and of `strip` |
| Sanitize.SanitizeDigitFree | app.py:259-267 | sanitizing adds no digit: the placeholders hold none |
| Sanitize.SanitizeForOutput | app.py:270-276 | empty text gives ""; the result is in collapsed form |
| Masking.PhoneSubShort | app.py:264 | after the phone substitution (with a non-empty placeholder holding no digit) no run of four or more digits remains, and the result starts with no more digits than the input |
| Masking.RunSubShort | app.py:265-266 | replacing runs of one class by a space joins no digits: text without a run of four or more digits keeps that property |
| Masking.CollapseShort | app.py:266 | the whitespace collapse creates no run of four or more digits |
| Masking.SanitizeMasksLongNumbers | app.py:259-267 | `sanitize_text` output never holds a run of four or more digits |
| Masking.OutputMasksLongNumbers | app.py:270-276 | `sanitize_for_output` output never holds a run of four or more digits |
| Skills.SkillsOf | app.py:282-299 | at most `limit` skills, none repeated, each one an entry of the vocabulary order occurring in the lowered text, or the lowered form of a token `re.findall` finds in the text |
| Skills.Skills | app.py:280-299 | for any iteration order of the vocabulary, the entry "scikit-learn" is never reported |
| Skills.SkillsSources | app.py:280-299 | every reported skill is a vocabulary entry occurring in the lowered sanitized text, or a lowered token of the sanitized text |
| Skills.ScikitLearnNeverFound | app.py:253-265 | in text without a dash, "scikit-learn" occurs neither as a substring of the lowered text nor as a token |
| Skills.SkillsComplete | app.py:285-299 | when fewer than `limit` skills come back, every vocabulary entry in the lowered text and every lowered token is among them |
| Skills.ExtractSkills | app.py:280-299 | the method returns exactly the specified skill list |
| Skills.ScanCandidates | app.py:282-299 | the two loops together return the first `limit` distinct candidates: vocabulary hits first, then tokens |
| Skills.ScanVocabulary | app.py:285-289 | the vocabulary loop either stops early with a result that is final whatever tokens follow, or leaves the distinct vocabulary hits, fewer than `limit` |
| Skills.ScanTokens | app.py:291-299 | the token loop extends the vocabulary hits to the first `limit` distinct candidates |
| Skills.SkillsDigitFree | app.py:280-299 | skills found in text without digits hold no digit |
| Lines.NonBlankLines | app.py:303 | every kept line is non-blank, stripped at both ends and free of line breaks |
| Lines.PiecesRejoin | app.py:303 | the pieces `splitlines` cuts are one more than the line breaks, and putting the breaks back between them gives the text again |
| Lines.NonBlankLinesEmpty | app.py:303 | there are no non-blank lines exactly when the text is all whitespace |
| Lines.SortByLengthSpec | app.py:304 | the sort puts longer lines first, is a permutation, and keeps lines of equal length in their original order (stable) |
| Lines.StableSortUnique | app.py:304 | a stable longest-first order is unique: two such lists with the same lines of each length, in the same order, are equal |
| Lines.TopLines | app.py:302-305 | `top_lines(text, n)` returns `min(n, number of lines)` lines, longest first, each a stripped non-blank line of the text |
| Lines.TopLinesKeepsLonger | app.py:302-305 | no line longer than the last kept line is left out |
| Lines.TopLinesStable | app.py:304-305 | the kept lines are the first `n` lines of any stable longest-first ordering of all the lines |
| Lines.LineScoreZero | app.py:420-424 | a candidate scores 0 exactly when it shares no word with the role and is shorter than 80 characters |
| Lines.PickBest | app.py:417-428 | the scan with a strict `>` returns a candidate with the highest score, and every earlier candidate scores strictly lower |
| Lines.FindBestProjectLine | app.py:413-428 | "" exactly when the text has no non-blank line; otherwise the first of the top twelve lines with the highest role score |
| Lines.BestLineChars | app.py:413-428 | the chosen project line is made only of characters of the resume |
| Paraphrase.DropDisallowed | app.py:436 | the length is kept; every word character, whitespace character and `+#%.,()-` is kept in place and every other character becomes a space |
| Paraphrase.Cleaned | app.py:432-437 | the cleaned line is `" ".join(s.split())` of the sanitized, scrubbed line with disallowed characters replaced; it is in collapsed form and made only of allowed characters |
| Paraphrase.BeforeLastSpace | app.py:439 | `rsplit(" ", 1)[0]` is the prefix before the last space, or the whole string when it has no space |
| Paraphrase.Cut | app.py:439 | the cut ends in "…"; before it comes a prefix of the line that fits in `max_len`; when the first `max_len` characters hold a space it stops just before the last of them, and otherwise it is the whole window |
| Paraphrase.ParaphraseLine | app.py:430-440 | "" for "", the cleaned line when it fits, otherwise the cut; never longer than `max_len + 1`; only allowed characters and "…" |
| Paraphrase.ParaphraseDigitFree | app.py:430-440 | paraphrasing a line without digits adds none |
| Metrics.MetricIn | app.py:445-457 | the metric is "" or occurs in the text; a percentage hit ends in "%"; otherwise it is digits and commas worth less than 1,000,000 |
| Metrics.ExtractFirstMetricAsWritten | app.py:442-457 | the source's function as written: "" or a piece of the sanitized resume, "" for "" |
| Metrics.ExtractFirstMetric | app.py:442-457 | the corrected function: as above, and a percentage in the text is reported with its "%" |
| Metrics.PercentFound | app.py:445-446 | with the corrected pattern, a percentage anywhere in the text makes the metric a percentage |
| Metrics.AsWrittenNeedsWordAfterSign | app.py:445 | the as-written pattern matches only where a word character follows the "%" |
| Metrics.AsWrittenMissesPercent | app.py:445 | when no "%" is followed by a word character, the as-written pattern matches nowhere |
| Metrics.PercentDiscrepancy | app.py:445-454 | where the corrected pattern finds a percentage and no "%" is followed by a word character, the corrected metric ends in "%" and the as-written one holds no "%" |
| Metrics.MetricIsFirstPercent | app.py:445-447 | when a percentage matches, the metric is the text of the leftmost percentage match, sign included |
| Metrics.MetricIsFirstInteger | app.py:448-454 | with no percentage anywhere, the metric is the leftmost grouped integer when its value without commas is below 1,000,000, and "" when it is not |
| Metrics.MetricIsNothing | app.py:445-457 | with neither a percentage nor a grouped integer, the metric is "" |
| Metrics.MissedPercentage | app.py:445-454 | for the sanitized text "12%" the as-written pattern gives "12" |
| Metrics.FoundPercentage | app.py:445-446 | for the sanitized text "12%" the corrected pattern gives "12%" |
| Metrics.SanitizeKeepsTwelve | app.py:259-267 | sanitizing "12%" changes nothing |
| Metrics.AsWrittenReportsTwelve | app.py:442-457 | for the resume text "12%" the function as written reports "12" |
| Metrics.CorrectedReportsPercent | app.py:442-447 | for the resume text "12%" the corrected function reports "12%" |
| Metrics.MillionRejected | app.py:448-454 | a first grouped integer of one million or more ("1,000,000") is not reported |
| Metrics.DecimalValueLower | app.py:452-453 | a digit string of length `k` starting with a non-zero digit is worth at least 10^(k-1) |
| Metrics.NoDigitNoMetric | app.py:442-457 | a resume without digits has no metric |
| Answers.ExperiencePrefixShadowed | app.py:489-497 | a question starting "describe your experience with" gets the walkthrough answer: the experience branch's prefix test never decides |
| Answers.SkillSnip | app.py:466 | with no skills the fixed phrase; otherwise the first one, two or three skills joined by ", " |
| Answers.MetricOrDefault | app.py:469 | never empty; the metric `extract_first_metric_safe` reports as written when there is one, else "measurable improvements" |
| Answers.MetricMasked | app.py:469 | the metric an answer quotes never holds a run of four or more digits |
| Answers.Example | app.py:475-477 | absent without a paraphrase; otherwise " For example, I " and the paraphrase, ending in exactly one full stop, its own or an added one |
| Answers.FirstTech | app.py:498 | a tool found in the question is one of the pattern's alternatives and occurs in the question |
| Answers.FirstTechAt | app.py:498 | when the leftmost whole-word tool match starts at `k`, the tool found is exactly that word, with word boundaries on both sides |
| Answers.FirstTechNone | app.py:498 | no tool is found exactly when no position of the question starts a whole-word tool |
| Answers.ExperienceTool | app.py:498-499 | when the question names a tool, the tool used is `techs[0]`, the leftmost whole-word match (through FirstTech and FirstTechAt), one of the pattern's alternatives; when it names none, the first skill, or nothing without skills |
| Answers.WhyRoleCarries | app.py:473-479 | the why-this-role answer, after its strip, contains the skill snippet, and the paraphrase when there is one |
| Answers.TellMeCarries | app.py:482-486 | the tell-me-about-yourself answer, after its join and strip, contains the skill snippet and the metric, and the paraphrase when there is one |
| Answers.WalkthroughCarries | app.py:489-494 | the walkthrough answer with a paraphrase opens with it and contains the metric and the first skill; without one it contains the skill snippet |
| Answers.ExperienceCarries | app.py:497-503 | the experience answer contains the tool and the metric when there is a tool; otherwise it contains the skill snippet |
| Answers.GeneralCarries | app.py:506-508 | the fallback answer contains the skill snippet and the metric, and opens with the paraphrase when there is one |
| Answers.GenerateSampleAnswer | app.py:461-508 | for any iteration order of the vocabulary, the answer is the template chosen by the lowered, stripped question, filled with the first six skills of the stripped resume, the best project line for the stripped role paraphrased to 140 characters, and the as-written metric or its default |
| Answers.NoNewNumbers | app.py:460-469 | for a resume without digits, no skill or paraphrase put into the answer holds a digit, and the metric is the fixed phrase |
| Questions.Preview | app.py:523 | short lines are kept whole; longer ones become at most 100 characters of their start, right-stripped, and "…" |
| Questions.ResumeQuestions | app.py:521-524 | one question per top line, in order |
| Questions.TechnicalQuestions | app.py:525-529 | one question per skill among the first twelve, in order, then the role question exactly when the role is longer than two characters |
| Questions.ShuffledPermutation | app.py:533 | shuffling is a permutation, whatever the draws |
| Questions.Exchange | app.py:533 | the array afterwards is the old contents with the two positions swapped |
| Questions.ShuffleFrom | app.py:533 | the loop of `random.shuffle` leaves the array as the Fisher–Yates specification gives it |
| Questions.Shuffle | app.py:532-533 | `rnd.shuffle` in place on an array leaves its contents as the shuffled list |
| Questions.BuildResumeQuestions | app.py:521-524 | the loop builds exactly the resume questions |
| Questions.BuildTechnicalQuestions | app.py:525-529 | the loop builds exactly the technical questions |
| Questions.GenerateQuestions | app.py:511-534 | the general list is the fixed three shuffled with the first draws; the resume list is the shuffled questions on the top six lines, cut to 6; the technical list is the shuffled skill and role questions, cut to 8, each shuffle using the draws after the previous one |
| Questions.HrIsFixedThree | app.py:516-534 | the general list is always the three fixed questions, in some order |
| Questions.OneResumeLine | app.py:512-515 | sanitizing leaves one line, so there is at most one resume question, and it is about the whole sanitized text |
| Questions.TechnicalFromSkills | app.py:525-534 | every technical question asks about one of the first twelve skills or is the role question |
| Scorer.NotesOf | app.py:544-553 | a note is given exactly for each failed check: short answer, no number, no tool |
| Scorer.Points | app.py:541-554 | the score of a non-empty answer lies between 4 and 8 |
| Scorer.Clamp | app.py:554 | the clamped value is within bounds and is the value itself when already within them |
| Scorer.FirstSentence | app.py:555 | `text.split('.')[0]` is a prefix of the text without a full stop that ends at the first full stop |
| Scorer.ScoreAnswer | app.py:537-556 | a blank answer gets 0, "No answer provided." and no rewrite; any other answer scores between 4 and 8 |
| Scorer.PointsFromNotes | app.py:541-556 | the score is 8 less the points of the notes given: 1 for short, 2 for no number, 1 for no tool |
| Scorer.GoodIffTopScore | app.py:541-556 | the feedback is "Good" exactly when the score is 8 |
| Scorer.HasNumberIffMatch | app.py:546 | the number check succeeds exactly when the pattern matches at some position |
| Scorer.ImprovedKeepsFirstSentence | app.py:555 | the rewrite's middle is at most 120 characters taken from the start of the answer, with no full stop |
| Keywords.LexTotal | app.py:659-660 | Python's string order is total (and, with LexIrreflexive and LexTransitive, strict) |
| Keywords.SortedSet | app.py:659-660 | `sorted(set(xs))` is strictly ascending and holds exactly the elements of `xs` |
| Keywords.SortedUnique | app.py:659-660 | two strictly ascending lists with the same elements are equal |
| Keywords.KeywordTokens | app.py:657-658 | every keyword is at least two characters of letters, `+`, `#` or `-` |
| Keywords.KeywordDiff | app.py:655-660 | no lists without a job description; otherwise both lists are sorted and cut to 25; covered keywords are in both texts, missing ones only in the job description (against the sanitized resume) |
| Keywords.KeywordDiffComplete | app.py:655-660 | every job-description keyword is listed as covered or missing, whichever applies, unless 25 smaller keywords fill that list |
| Keywords.CoveredIsSortedIntersection | app.py:657-659 | the covered list is the sorted intersection of the keyword sets, cut to 25 |
| Keywords.MissingIsSortedDifference | app.py:657-660 | the missing list is the sorted difference of the keyword sets, cut to 25 |

## Left out

- User interface, file upload and PDF/DOCX text extraction, model loading and text generation, and `role_match_score` (floating point): not part of this model.
- EMAIL_RE is simplified: local characters, `@`, and a run of domain characters containing a dot, taken whole. The source's backtracking over the final `\.[A-Za-z]{2,}\b` is not modelled.
- PHONE_RE is simplified to a run of at least four digits. The source's optional country code, brackets and separators are not modelled. A phone number with separators is therefore masked only in part: "555-123-4567" sanitizes to "555 123 [PHONE]" in the model and to "[PHONE]" in the source, so the model finds the metric "555" where the source finds none.
- `\w`, `\d`, word boundaries and `str.lower` are modelled on ASCII: non-ASCII letters and digits count as non-word characters and are not lowered. Whitespace (`\s`, `str.isspace`, `str.strip`, `str.split`) is Python's full whitespace set.
- Lines.Pieces: "\r\n" counts as two breaks rather than one, and a trailing empty piece is kept. Both add only empty lines, which every caller discards.
- The iteration order of `COMMON_SKILLS_SET` is a parameter (`order`), not CPython's hash order.
- `random.Random(abs(hash(sanitized)) % 2**32)` and `randbelow` are replaced by a stream of draws (`stream`) and `d % (i + 1)`. The seed, the hash and the generator's exact sequence are not modelled; every property is proved for every stream.
- Answers.Compose: the template texts are not specified beyond the pieces they splice in. WhyRoleCarries, TellMeCarries, WalkthroughCarries, ExperienceCarries and GeneralCarries prove that each template's answer contains the pieces that template uses. NoNewNumbers proves those pieces add no digits.
- Answers.NoNewNumbers: proves that the values spliced into an answer hold no new digits. The fixed template sentences are not checked for digits.
- Sanitize.SanitizeText: of the masking, only the long-number part is proved (Masking.SanitizeMasksLongNumbers: no run of four or more digits remains). "No e-mail or web address remains" is not proved.
- Sanitize.SanitizeForOutput: its contract states the collapsed form, and Masking.OutputMasksLongNumbers the long-number masking. "No e-mail or web address remains" is not proved, and its placeholders are not related to what they replace.
- Displaying the lists (`st.write`) is not modelled; KeywordDiff returns the two lists.

## Findings

| source | as written | input that shows it | evidently intended | confidence | as-written member | corrected member |
|---|---|---|---|---|---|---|
| app.py:445 | the percentage pattern ends with `\b` after `%`; since `%` is not a word character, this boundary holds only when a letter, digit or `_` follows the sign, so "12%" before a space, a full stop or the end of the text is missed and the following integer search reports "12" | resume text "12%", which sanitizing leaves unchanged (Metrics.SanitizeKeepsTwelve) | the first percentage, with its sign: "12%" | not executed | Metrics.ExtractFirstMetricAsWritten, Metrics.AsWrittenReportsTwelve, Metrics.AsWrittenMissesPercent | Metrics.ExtractFirstMetric, Metrics.CorrectedReportsPercent, Metrics.PercentDiscrepancy |

The sample answer inherits this bug, because `generate_sample_answer` calls the function as written (app.py:469). For the resume "12%", Metrics.AsWrittenReportsTwelve shows that the metric is "12", and Answers.MetricOrDefault passes it on to the answer. Answers.MetricOrDefault and Answers.GenerateSampleAnswer model the source as written.

Two further consequences of the source as written are proved but not corrected, since the source's intent there is unclear:

- Sanitizing turns every `-` into a space before skills are extracted, so the vocabulary entry "scikit-learn" can never be reported (Skills.ScikitLearnNeverFound).
- Sanitizing also removes every line break before `generate_interview_questions_safe` splits the text into lines. The resume-specific list therefore has at most one question (Questions.OneResumeLine).
