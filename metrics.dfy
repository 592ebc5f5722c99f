/** `extract_first_metric_safe` (app.py:442-457): the first percentage in the
    sanitized resume, else its first grouped integer below a million, else "". */
module Metrics {
  import opened Text
  import opened Patterns
  import opened Sanitize

  /** The digits of `s` with every comma removed: `m.replace(",", "")`. */
  function RemoveCommas(s: string): (r: string)
    ensures |r| <= |s|
    ensures forall c :: c in r ==> c in s && c != ','
  {
    if s == [] then []
    else (if s[0] == ',' then [] else [s[0]]) + RemoveCommas(s[1..])
  }

  lemma {:induction false} RemoveCommasAppend(a: string, b: string)
    ensures RemoveCommas(a + b) == RemoveCommas(a) + RemoveCommas(b)
    decreases |a|
  {
    if a != [] {
      assert (a + b)[1..] == a[1..] + b;
      RemoveCommasAppend(a[1..], b);
    } else {
      assert a + b == b;
    }
  }

  /** `int(ds)` for a string of decimal digits (read from the left). */
  function DecimalValue(ds: string): (v: nat)
    ensures ds == [] ==> v == 0
    decreases |ds|
  {
    if ds == [] then 0
    else 10 * DecimalValue(ds[..|ds| - 1]) + DigitValue(ds[|ds| - 1])
  }

  function DigitValue(c: char): (v: nat)
    ensures v <= 9
  {
    if IsDigit(c) then (c as int - '0' as int) else 0
  }

  function Pow10(n: nat): (p: nat)
    ensures p >= 1
  {
    if n == 0 then 1 else 10 * Pow10(n - 1)
  }

  /** A match of the percentage pattern ends with its percent sign. */
  lemma PercentEndsWithSign(t: string, i: nat, trailing: bool)
    requires i <= |t| && PercentAt(t, i, trailing) > 0
    ensures t[i + PercentAt(t, i, trailing) - 1] == '%'
    ensures IsDigit(t[i])
  {
  }

  /** A match of the grouped-integer pattern is digits and commas. */
  lemma GroupedIntChars(t: string, i: nat)
    requires i <= |t| && GroupedIntAt(t, i) > 0
    ensures forall j :: i <= j < i + GroupedIntAt(t, i) ==> IsDigit(t[j]) || t[j] == ','
  {
    var d := RunLen(t, i, Digit, |t|);
    GroupsChars(t, i + d);
  }

  lemma {:induction false} GroupsChars(t: string, j: nat)
    requires j <= |t|
    ensures forall q :: j <= q < j + 4 * Groups(t, j) ==> IsDigit(t[q]) || t[q] == ','
    decreases |t| - j
  {
    if Groups(t, j) > 0 {
      GroupsChars(t, j + 4);
    }
  }

  /** The leftmost match of `p` is at `k` when there is one at `k` and none before. */
  lemma SearchAt(t: string, p: Pattern, k: nat)
    requires k < |t| && MatchLen(p, t, k) > 0
    requires forall j :: 0 <= j < k ==> MatchLen(p, t, j) == 0
    ensures Search(t, p) == Some(k)
  {
  }

  /** With no match anywhere, the search finds nothing. */
  lemma SearchNone(t: string, p: Pattern)
    requires forall j :: 0 <= j < |t| ==> MatchLen(p, t, j) == 0
    ensures Search(t, p) == None
  {
  }

  /** The text of a percentage match at `k`: it ends with its sign. */
  function PercentText(t: string, k: nat, trailing: bool): (r: string)
    requires k <= |t| && PercentAt(t, k, trailing) > 0
    ensures r != [] && r[|r| - 1] == '%' && Contains(t, r)
  {
    var n := PercentAt(t, k, trailing);
    PercentEndsWithSign(t, k, trailing);
    assert OccursAt(t, t[k..k + n], k);
    t[k..k + n]
  }

  /** A grouped-integer match at `k`, reported when it is below a million. */
  function GroupedTextAt(t: string, k: nat): (r: string)
    requires k <= |t| && GroupedIntAt(t, k) > 0
    ensures r == [] || Contains(t, r)
    ensures r != [] ==> (forall c :: c in r ==> IsDigit(c) || c == ',') && DecimalValue(RemoveCommas(r)) < 1000000
  {
    var n := GroupedIntAt(t, k);
    var m := t[k..k + n];
    GroupedIntChars(t, k);
    assert OccursAt(t, m, k);
    if DecimalValue(RemoveCommas(m)) < 1000000 then m else []
  }

  /** The second step: the first grouped integer, when it is below a million. */
  function GroupedText(t: string): (r: string)
    ensures r == [] || Contains(t, r)
    ensures r != [] ==> (forall c :: c in r ==> IsDigit(c) || c == ',') && DecimalValue(RemoveCommas(r)) < 1000000
  {
    match Search(t, GroupedInt)
    case Some(k) => GroupedTextAt(t, k)
    case None => []
  }

  /** The body of `extract_first_metric_safe` after sanitizing: `trailing` says
      whether the percentage pattern ends with `\b` after the percent sign. */
  function MetricIn(t: string, trailing: bool): (r: string)
    ensures r == [] || Contains(t, r)
    ensures Search(t, Percent(trailing)).Some? ==> r != [] && r[|r| - 1] == '%'
    ensures Search(t, Percent(trailing)).None? && r != [] ==>
              (forall c :: c in r ==> IsDigit(c) || c == ',') && DecimalValue(RemoveCommas(r)) < 1000000
  {
    var s := Search(t, Percent(trailing));
    if s.Some? then
      FirstPercent(t, trailing);
      PercentText(t, s.value, trailing)
    else GroupedText(t)
  }

  /** Where the percentage search stops, a percentage starts. */
  lemma FirstPercent(t: string, trailing: bool)
    requires Search(t, Percent(trailing)).Some?
    ensures var k := Search(t, Percent(trailing)).value;
            k < |t| && PercentAt(t, k, trailing) > 0
  {
    var k := Search(t, Percent(trailing)).value;
    assert MatchLen(Percent(trailing), t, k) > 0;
  }

  /** `extract_first_metric_safe` as written: the percent sign must be followed by
      a word character, so a percentage before a space, a stop or the end is missed. */
  function ExtractFirstMetricAsWritten(resumeText: string): (r: string)
    ensures r == [] || Contains(SanitizeText(resumeText), r)
    ensures resumeText == [] ==> r == []
  {
    MetricIn(SanitizeText(resumeText), true)
  }

  /** `extract_first_metric_safe` as intended: the first percentage, with its sign. */
  function ExtractFirstMetric(resumeText: string): (r: string)
    ensures r == [] || Contains(SanitizeText(resumeText), r)
    ensures resumeText == [] ==> r == []
    ensures Search(SanitizeText(resumeText), Percent(false)).Some? ==> r != [] && r[|r| - 1] == '%'
  {
    MetricIn(SanitizeText(resumeText), false)
  }

  /** A percentage is reported with its sign wherever it stands once the trailing
      boundary is dropped: any position holding a percentage makes the result one. */
  lemma PercentFound(t: string, k: nat)
    requires k <= |t| && PercentAt(t, k, false) > 0
    ensures MetricIn(t, false) != [] && MetricIn(t, false)[|MetricIn(t, false)| - 1] == '%'
  {
    PercentSearched(t, k, false);
    PercentReported(t);
  }

  lemma PercentReported(t: string)
    requires Search(t, Percent(false)).Some?
    ensures MetricIn(t, false) != [] && MetricIn(t, false)[|MetricIn(t, false)| - 1] == '%'
  {
    var r := MetricIn(t, false);
    assert r != [] && r[|r| - 1] == '%';
  }

  /** A percentage somewhere means the percentage search finds one. */
  lemma PercentSearched(t: string, k: nat, trailing: bool)
    requires k <= |t| && PercentAt(t, k, trailing) > 0
    ensures Search(t, Percent(trailing)).Some?
  {
    assert MatchLen(Percent(trailing), t, k) > 0;
  }

  /** The as-written pattern reports a percentage only when a word character
      follows its sign. */
  lemma AsWrittenNeedsWordAfterSign(t: string, k: nat)
    requires k <= |t| && PercentAt(t, k, true) > 0
    ensures k + PercentAt(t, k, true) < |t| && IsWordChar(t[k + PercentAt(t, k, true)])
  {
    PercentEndsWithSign(t, k, true);
  }

  /** No number pattern matches at a position that does not start with a digit. */
  lemma NoDigitNoMatch(t: string, j: nat)
    requires j < |t| && !IsDigit(t[j])
    ensures MatchLen(Percent(true), t, j) == 0 && MatchLen(Percent(false), t, j) == 0
    ensures MatchLen(GroupedInt, t, j) == 0
  {
  }

  /** The finding in general: when no percent sign of `t` is followed by a word
      character, the as-written pattern matches nowhere in `t`. */
  lemma AsWrittenMissesPercent(t: string)
    requires forall k :: 0 <= k < |t| - 1 && t[k] == '%' ==> !IsWordChar(t[k + 1])
    ensures Search(t, Percent(true)) == None
  {
    forall j | 0 <= j < |t|
      ensures MatchLen(Percent(true), t, j) == 0
    {
      AsWrittenSignFollowed(t, j);
    }
    SearchNone(t, Percent(true));
  }

  /** An as-written match anywhere puts a word character after a percent sign. */
  lemma AsWrittenSignFollowed(t: string, j: nat)
    requires j <= |t|
    ensures PercentAt(t, j, true) > 0 ==>
              exists k :: 0 <= k < |t| - 1 && t[k] == '%' && IsWordChar(t[k + 1])
  {
    var n := PercentAt(t, j, true);
    if n > 0 {
      PercentEndsWithSign(t, j, true);
      AsWrittenNeedsWordAfterSign(t, j);
      var k := j + n - 1;
      assert t[k] == '%' && IsWordChar(t[k + 1]);
    }
  }

  /** A string of digits that starts with a non-zero digit is worth at least
      ten to the power of its length less one. */
  lemma {:induction false} DecimalValueLower(ds: string)
    requires |ds| >= 1 && '1' <= ds[0] <= '9'
    requires forall j :: 0 <= j < |ds| ==> IsDigit(ds[j])
    ensures DecimalValue(ds) >= Pow10(|ds| - 1)
    decreases |ds|
  {
    if |ds| > 1 {
      DecimalValueLower(ds[..|ds| - 1]);
    }
  }

  /** The discrepancy in general: where the intended pattern reports a percentage
      and no percent sign is followed by a word character, the as-written one
      reports something without a percent sign. */
  lemma PercentDiscrepancy(t: string, k: nat)
    requires k <= |t| && PercentAt(t, k, false) > 0
    requires forall q :: 0 <= q < |t| - 1 && t[q] == '%' ==> !IsWordChar(t[q + 1])
    ensures MetricIn(t, false) != [] && MetricIn(t, false)[|MetricIn(t, false)| - 1] == '%'
    ensures '%' !in MetricIn(t, true)
  {
    PercentFound(t, k);
    AsWrittenMissesPercent(t);
  }

  /** "12%": the as-written pattern misses the percentage, and the grouped integer
      "12" is reported instead. */
  lemma MissedPercentage()
    ensures MetricIn("12%", true) == "12"
  {
    var t := "12%";
    assert t[0] == '1' && t[1] == '2' && t[2] == '%';
    AsWrittenMissesPercent(t);
    GroupedTwelve(t);
    SearchAt(t, GroupedInt, 0);
    MetricInGrouped(t, true, 0);
    TwelveReported(t);
  }

  /** With no percentage, the metric is the grouped integer the search finds. */
  lemma MetricInGrouped(t: string, trailing: bool, k: nat)
    requires Search(t, Percent(trailing)).None? && Search(t, GroupedInt) == Some(k)
    ensures k < |t| && GroupedIntAt(t, k) > 0
    ensures MetricIn(t, trailing) == GroupedTextAt(t, k)
  {
    assert MatchLen(GroupedInt, t, k) > 0;
  }

  /** The metric is the leftmost percentage, sign included. */
  lemma MetricIsFirstPercent(t: string, trailing: bool, k: nat)
    requires k < |t| && PercentAt(t, k, trailing) > 0
    requires forall j :: 0 <= j < k ==> PercentAt(t, j, trailing) == 0
    ensures MetricIn(t, trailing) == t[k..k + PercentAt(t, k, trailing)]
  {
    assert Search(t, Percent(trailing)) == Some(k) by {
      assert MatchLen(Percent(trailing), t, k) > 0;
      forall j | 0 <= j < k
        ensures MatchLen(Percent(trailing), t, j) == 0
      {
      }
      SearchAt(t, Percent(trailing), k);
    }
    MetricInPercent(t, trailing, k);
  }

  /** The metric when the percentage search stops at `k`. */
  lemma MetricInPercent(t: string, trailing: bool, k: nat)
    requires Search(t, Percent(trailing)) == Some(k)
    ensures k < |t| && PercentAt(t, k, trailing) > 0
    ensures MetricIn(t, trailing) == t[k..k + PercentAt(t, k, trailing)]
  {
    FirstPercent(t, trailing);
  }

  /** With no percentage anywhere, the metric is the leftmost grouped integer
      when its value is below a million, and nothing when it is not. */
  lemma MetricIsFirstInteger(t: string, trailing: bool, k: nat)
    requires forall j :: 0 <= j < |t| ==> PercentAt(t, j, trailing) == 0
    requires k < |t| && GroupedIntAt(t, k) > 0
    requires forall j :: 0 <= j < k ==> GroupedIntAt(t, j) == 0
    ensures var m := t[k..k + GroupedIntAt(t, k)];
            MetricIn(t, trailing) == if DecimalValue(RemoveCommas(m)) < 1000000 then m else []
  {
    NoPercentAnywhere(t, trailing);
    assert MatchLen(GroupedInt, t, k) > 0;
    forall j | 0 <= j < k
      ensures MatchLen(GroupedInt, t, j) == 0
    {
    }
    SearchAt(t, GroupedInt, k);
    MetricInGrouped(t, trailing, k);
  }

  /** With neither a percentage nor a grouped integer, there is no metric. */
  lemma MetricIsNothing(t: string, trailing: bool)
    requires forall j :: 0 <= j < |t| ==> PercentAt(t, j, trailing) == 0
    requires forall j :: 0 <= j < |t| ==> GroupedIntAt(t, j) == 0
    ensures MetricIn(t, trailing) == []
  {
    NoPercentAnywhere(t, trailing);
    forall j | 0 <= j < |t|
      ensures MatchLen(GroupedInt, t, j) == 0
    {
    }
    SearchNone(t, GroupedInt);
  }

  lemma NoPercentAnywhere(t: string, trailing: bool)
    requires forall j :: 0 <= j < |t| ==> PercentAt(t, j, trailing) == 0
    ensures Search(t, Percent(trailing)) == None
  {
    forall j | 0 <= j < |t|
      ensures MatchLen(Percent(trailing), t, j) == 0
    {
    }
    SearchNone(t, Percent(trailing));
  }

  lemma TwelveReported(t: string)
    requires t == "12%" && GroupedIntAt(t, 0) == 2
    ensures GroupedTextAt(t, 0) == "12"
  {
    assert t[0..2] == "12";
    assert RemoveCommas("12") == "12";
    assert DecimalValue("12") == 12;
  }

  lemma GroupedTwelve(t: string)
    requires t == "12%"
    ensures MatchLen(GroupedInt, t, 0) == 2
  {
    assert t[0] == '1' && t[1] == '2' && t[2] == '%';
    assert RunLen(t, 0, Digit, |t|) == 2;
    assert Groups(t, 2) == 0;
  }

  /** "12%": without the trailing boundary the percentage is reported. */
  lemma FoundPercentage()
    ensures MetricIn("12%", false) == "12%"
  {
    var t := "12%";
    assert t[0] == '1' && t[1] == '2' && t[2] == '%';
    assert PercentAt(t, 0, false) == 3;
    SearchAt(t, Percent(false), 0);
    assert t[0..3] == "12%";
  }

  /** Sanitizing "12%" changes nothing: no pattern matches in it, and it has no
      whitespace. */
  lemma SanitizeKeepsTwelve()
    ensures SanitizeText("12%") == "12%"
  {
    var t := "12%";
    TwelveUnmasked(t);
    TwelveTidy(t);
    CollapseTidy(t);
  }

  lemma TwelveTidy(t: string)
    requires t == "12%"
    ensures Tidy(t)
  {
    assert t[0] == '1' && t[1] == '2' && t[2] == '%';
  }

  /** None of the masking patterns matches anywhere in "12%". */
  lemma TwelveUnmasked(t: string)
    requires t == "12%"
    ensures Masked(t) == t
  {
    assert t[0] == '1' && t[1] == '2' && t[2] == '%';
    TwelveNoEmail(t);
    SubstituteNone(t, EmailAddress, " ");
    TwelveNoUrl(t);
    SubstituteNone(t, WebUrl, " ");
    TwelveNoNumber(t);
    SubstituteNone(t, LongNumber, " [NUMBER] ");
    SubstituteNone(t, PhoneNumber, " [PHONE] ");
    SubstituteNone(t, DashRun, " ");
  }

  /** An e-mail needs an `@`: the local run of "12%" reaches its end. */
  lemma TwelveNoEmail(t: string)
    requires t == "12%"
    ensures forall j :: 0 <= j < |t| ==> MatchLen(EmailAddress, t, j) == 0
  {
    assert t[0] == '1' && t[1] == '2' && t[2] == '%';
    forall j | 0 <= j < |t| ensures MatchLen(EmailAddress, t, j) == 0 {
      assert forall q :: j <= q < |t| ==> InClass(EmailLocal, t[q]);
      assert RunLen(t, j, EmailLocal, |t|) == |t| - j;
    }
  }

  /** "12%" is too short for `http://` and does not start with `www.`. */
  lemma TwelveNoUrl(t: string)
    requires t == "12%"
    ensures forall j :: 0 <= j < |t| ==> MatchLen(WebUrl, t, j) == 0
  {
  }

  /** Its digit runs are too short for LONG_NUM_RE and for the phone pattern,
      and it holds no dash. */
  lemma TwelveNoNumber(t: string)
    requires t == "12%"
    ensures forall j :: 0 <= j < |t| ==> MatchLen(LongNumber, t, j) == 0
    ensures forall j :: 0 <= j < |t| ==> MatchLen(PhoneNumber, t, j) == 0
    ensures forall j :: 0 <= j < |t| ==> MatchLen(DashRun, t, j) == 0
  {
    assert t[0] == '1' && t[1] == '2' && t[2] == '%';
    forall j | 0 <= j < |t| ensures RunLen(t, j, Digit, |t|) < 4 {
    }
  }

  /** On the resume text "12%", the function as written reports "12". */
  lemma AsWrittenReportsTwelve()
    ensures ExtractFirstMetricAsWritten("12%") == "12"
  {
    SanitizeKeepsTwelve();
    MissedPercentage();
  }

  /** On the resume text "12%", the corrected function reports "12%". */
  lemma CorrectedReportsPercent()
    ensures ExtractFirstMetric("12%") == "12%"
  {
    SanitizeKeepsTwelve();
    FoundPercentage();
  }

  /** A first grouped integer of a million or more is not reported. */
  lemma MillionRejected()
    ensures MetricIn("1,000,000", false) == []
  {
    var t := "1,000,000";
    NoPercentSign(t);
    SearchNone(t, Percent(false));
    GroupedMillion(t);
    SearchAt(t, GroupedInt, 0);
    MetricInGrouped(t, false, 0);
    MillionNotReported(t);
  }

  lemma MillionNotReported(t: string)
    requires t == "1,000,000" && GroupedIntAt(t, 0) == 9
    ensures GroupedTextAt(t, 0) == []
  {
    assert t[0..9] == t;
    MillionValue(t);
  }

  /** With no percent sign there is no percentage. */
  lemma NoPercentSign(t: string)
    requires '%' !in t
    ensures forall j :: 0 <= j < |t| ==> MatchLen(Percent(false), t, j) == 0
  {
    forall j | 0 <= j < |t|
      ensures MatchLen(Percent(false), t, j) == 0
    {
      SignInText(t, j, false);
    }
  }

  /** A percentage match anywhere means the text has a percent sign. */
  lemma SignInText(t: string, j: nat, trailing: bool)
    requires j <= |t|
    ensures PercentAt(t, j, trailing) > 0 ==> '%' in t
  {
    var n := PercentAt(t, j, trailing);
    if n > 0 {
      PercentEndsWithSign(t, j, trailing);
      assert t[j + n - 1] == '%';
    }
  }

  lemma MillionValue(m: string)
    requires m == "1,000,000"
    ensures DecimalValue(RemoveCommas(m)) >= 1000000
  {
    MillionDigits(m);
    SevenDigits("1000000");
  }

  lemma MillionDigits(m: string)
    requires m == "1,000,000"
    ensures RemoveCommas(m) == "1000000"
  {
    assert m == "1" + ",000" + ",000";
    RemoveCommasAppend("1" + ",000", ",000");
    RemoveCommasAppend("1", ",000");
    assert RemoveCommas(",000") == "000";
  }

  lemma SevenDigits(v: string)
    requires v == "1000000"
    ensures DecimalValue(v) >= 1000000
  {
    DecimalValueLower(v);
    assert Pow10(6) == 1000000;
  }

  lemma GroupedMillion(t: string)
    requires t == "1,000,000"
    ensures MatchLen(GroupedInt, t, 0) == 9 && GroupedIntAt(t, 0) == 9
  {
    assert t[0] == '1' && t[1] == ',' && t[5] == ',';
    assert RunLen(t, 0, Digit, |t|) == 1;
    assert Groups(t, 9) == 0;
    assert Groups(t, 5) == 1;
    assert Groups(t, 1) == 2;
  }

  /** Text without digits has no metric, as written or as intended:
      `extract_first_metric_safe` never makes a number up. */
  lemma NoDigitNoMetric(resumeText: string)
    requires DigitFree(resumeText)
    ensures ExtractFirstMetricAsWritten(resumeText) == []
    ensures ExtractFirstMetric(resumeText) == []
  {
    var t := SanitizeText(resumeText);
    SanitizeDigitFree(resumeText);
    forall j | 0 <= j < |t|
      ensures MatchLen(Percent(true), t, j) == 0 && MatchLen(Percent(false), t, j) == 0
      ensures MatchLen(GroupedInt, t, j) == 0
    {
      NoDigitNoMatch(t, j);
    }
    SearchNone(t, Percent(true));
    SearchNone(t, Percent(false));
    SearchNone(t, GroupedInt);
  }
}
