/**
 * The screening questionnaire (a six-question yes/no table in the style of
 * the Columbia Suicide Severity Rating Scale) and the severity classifier
 * that turns a list of answers into a risk level, a colour and an
 * "immediate attention" flag.
 */
module CaseAssessment {
  import opened Wrappers

  datatype QuestionType = YesNo | Scale

  /** The three risk levels, also the classifier's result levels. */
  datatype RiskLevel = Low | Moderate | High

  /** The `severity_color` enumeration. */
  datatype SeverityColor = Green | Yellow | Red

  /** "When the answer is `answer`, continue at question `skipTo`." */
  datatype SkipLogic = SkipLogic(answer: string, skipTo: string)

  /** One row of the question table; the question wording is not modelled. */
  datatype AssessmentQuestion = AssessmentQuestion(
    id: string,
    questionType: QuestionType,
    skipLogic: Option<SkipLogic>,
    riskLevel: Option<RiskLevel>)

  datatype AssessmentResponse = AssessmentResponse(questionId: string, answer: string, timestamp: string)

  datatype Severity = Severity(level: RiskLevel, color: SeverityColor, requiresImmediateAttention: bool)

  const CaseAssessmentQuestions: seq<AssessmentQuestion> := [
    AssessmentQuestion("q1", YesNo, None, Some(Low)),
    AssessmentQuestion("q2", YesNo, Some(SkipLogic("no", "q6")), Some(Low)),
    AssessmentQuestion("q3", YesNo, None, Some(Moderate)),
    AssessmentQuestion("q4", YesNo, None, Some(High)),
    AssessmentQuestion("q5", YesNo, None, Some(High)),
    AssessmentQuestion("q6", YesNo, None, Some(High))
  ]

  /** Questions whose "yes" makes the case high risk. */
  const HighRiskQuestionIds: seq<string> := ["q4", "q5", "q6"]

  /** The question whose "yes" makes the case moderate risk. */
  const ModerateRiskQuestionId: string := "q3"

  /** Lower-casing of one character; only the ASCII letters A-Z change. */
  function LowerChar(c: char): char {
    if 'A' <= c <= 'Z' then (c as int + 32) as char else c
  }

  function ToLowerCase(s: string): (r: string)
    ensures |r| == |s|
  {
    seq(|s|, i requires 0 <= i < |s| => LowerChar(s[i]))
  }

  /** `answer.toLowerCase() === "yes"`. */
  predicate IsYes(answer: string) {
    ToLowerCase(answer) == "yes"
  }

  predicate IsHighRiskAnswer(r: AssessmentResponse) {
    r.questionId in HighRiskQuestionIds && IsYes(r.answer)
  }

  predicate IsModerateRiskAnswer(r: AssessmentResponse) {
    r.questionId == ModerateRiskQuestionId && IsYes(r.answer)
  }

  /** `responses.some(p)`: a left-to-right scan that stops at the first match. */
  function AnyResponse(responses: seq<AssessmentResponse>, p: AssessmentResponse -> bool): (b: bool)
    ensures b <==> exists i :: 0 <= i < |responses| && p(responses[i])
  {
    if |responses| == 0 then false
    else p(responses[0]) || AnyResponse(responses[1..], p)
  }

  /**
   * The classifier. High risk wins over moderate, moderate over low; the
   * colour and the attention flag follow the level.
   */
  function CalculateSeverity(responses: seq<AssessmentResponse>): (s: Severity)
    ensures s.level == High <==> exists i :: 0 <= i < |responses| && IsHighRiskAnswer(responses[i])
    ensures s.level == Moderate <==>
              (forall i :: 0 <= i < |responses| ==> !IsHighRiskAnswer(responses[i]))
              && (exists i :: 0 <= i < |responses| && IsModerateRiskAnswer(responses[i]))
    ensures s.requiresImmediateAttention <==> s.level == High
    ensures s.level == High ==> s.color == Red
    ensures s.level == Moderate ==> s.color == Yellow
    ensures s.level == Low ==> s.color == Green
  {
    if AnyResponse(responses, IsHighRiskAnswer) then
      Severity(High, Red, true)
    else if AnyResponse(responses, IsModerateRiskAnswer) then
      Severity(Moderate, Yellow, false)
    else
      Severity(Low, Green, false)
  }

  /** Orders the levels: low < moderate < high. */
  function Rank(level: RiskLevel): nat {
    match level
    case Low => 0
    case Moderate => 1
    case High => 2
  }

  /** The answer test is case-insensitive and accepts exactly the spellings of "yes". */
  lemma IsYesSpellings(answer: string)
    ensures IsYes(answer) <==>
              |answer| == 3
              && (answer[0] == 'y' || answer[0] == 'Y')
              && (answer[1] == 'e' || answer[1] == 'E')
              && (answer[2] == 's' || answer[2] == 'S')
  {
    var low := ToLowerCase(answer);
    if IsYes(answer) {
      assert low[0] == LowerChar(answer[0]) == 'y';
      assert low[1] == LowerChar(answer[1]) == 'e';
      assert low[2] == LowerChar(answer[2]) == 's';
    }
    if |answer| == 3
       && (answer[0] == 'y' || answer[0] == 'Y')
       && (answer[1] == 'e' || answer[1] == 'E')
       && (answer[2] == 's' || answer[2] == 'S')
    {
      assert low[0] == 'y' && low[1] == 'e' && low[2] == 's';
      assert low == "yes";
    }
  }

  /** Every response of `a` also occurs somewhere in `b` when `a`'s multiset is part of `b`'s. */
  lemma OccursIn(a: seq<AssessmentResponse>, b: seq<AssessmentResponse>, i: int)
    requires multiset(a) <= multiset(b)
    requires 0 <= i < |a|
    ensures exists j :: 0 <= j < |b| && b[j] == a[i]
  {
    assert a[i] in multiset(a);
    assert a[i] in b;
  }

  /** Adding responses (anywhere, in any order) never lowers the level. */
  lemma SeverityMonotone(a: seq<AssessmentResponse>, b: seq<AssessmentResponse>)
    requires multiset(a) <= multiset(b)
    ensures Rank(CalculateSeverity(a).level) <= Rank(CalculateSeverity(b).level)
  {
    var sa := CalculateSeverity(a);
    if sa.level == High {
      var i :| 0 <= i < |a| && IsHighRiskAnswer(a[i]);
      OccursIn(a, b, i);
    } else if sa.level == Moderate {
      var i :| 0 <= i < |a| && IsModerateRiskAnswer(a[i]);
      OccursIn(a, b, i);
    }
  }

  /** Appending responses never lowers the level. */
  lemma SeverityMonotoneUnderAppend(a: seq<AssessmentResponse>, extra: seq<AssessmentResponse>)
    ensures Rank(CalculateSeverity(a).level) <= Rank(CalculateSeverity(a + extra).level)
  {
    assert multiset(a + extra) == multiset(a) + multiset(extra);
    SeverityMonotone(a, a + extra);
  }

  /** The result depends on which responses are present, not on their order. */
  lemma SeverityPermutationInvariant(a: seq<AssessmentResponse>, b: seq<AssessmentResponse>)
    requires multiset(a) == multiset(b)
    ensures CalculateSeverity(a) == CalculateSeverity(b)
  {
    SeverityMonotone(a, b);
    SeverityMonotone(b, a);
  }

  /** Responses to questions other than q3-q6 (such as q1 and q2) never change the result. */
  lemma OtherQuestionsNeverRaise(a: seq<AssessmentResponse>, extra: seq<AssessmentResponse>)
    requires forall i :: 0 <= i < |extra| ==>
               extra[i].questionId !in HighRiskQuestionIds && extra[i].questionId != ModerateRiskQuestionId
    ensures CalculateSeverity(a + extra) == CalculateSeverity(a)
  {
    var ab := a + extra;
    forall i | 0 <= i < |ab|
      ensures IsHighRiskAnswer(ab[i]) <==> i < |a| && IsHighRiskAnswer(a[i])
      ensures IsModerateRiskAnswer(ab[i]) <==> i < |a| && IsModerateRiskAnswer(a[i])
    {
      if i >= |a| {
        assert ab[i] == extra[i - |a|];
      }
    }
    if CalculateSeverity(a).level == High {
      var i :| 0 <= i < |a| && IsHighRiskAnswer(a[i]);
      assert ab[i] == a[i];
    } else if CalculateSeverity(a).level == Moderate {
      var i :| 0 <= i < |a| && IsModerateRiskAnswer(a[i]);
      assert ab[i] == a[i];
    }
  }

  /** Answers to q1 and q2 alone always give the low result. */
  lemma LowRiskQuestionsAloneGiveLow(responses: seq<AssessmentResponse>)
    requires forall i :: 0 <= i < |responses| ==> responses[i].questionId in ["q1", "q2"]
    ensures CalculateSeverity(responses) == Severity(Low, Green, false)
  {
    assert [] + responses == responses;
    OtherQuestionsNeverRaise([], responses);
  }

  /** The table lists q1 to q6, in order, with six distinct ids. */
  lemma QuestionTableIds()
    ensures |CaseAssessmentQuestions| == 6
    ensures forall i :: 0 <= i < 6 ==>
              CaseAssessmentQuestions[i].id == ["q1", "q2", "q3", "q4", "q5", "q6"][i]
    ensures forall i, j :: 0 <= i < j < 6 ==> CaseAssessmentQuestions[i].id != CaseAssessmentQuestions[j].id
  {
  }

  /** Every skip rule jumps forward, to a question that exists later in the table. */
  lemma SkipTargetsLieAhead()
    ensures forall i :: 0 <= i < |CaseAssessmentQuestions| && CaseAssessmentQuestions[i].skipLogic.Some? ==>
              exists j :: i < j < |CaseAssessmentQuestions|
                          && CaseAssessmentQuestions[j].id == CaseAssessmentQuestions[i].skipLogic.value.skipTo
  {
    assert CaseAssessmentQuestions[5].id == CaseAssessmentQuestions[1].skipLogic.value.skipTo;
  }

  /**
   * The table's risk annotations agree with the classifier: a lone "yes" to
   * a question yields exactly the level the table records for it.
   */
  lemma RiskLevelsAgreeWithClassifier(i: int, timestamp: string)
    requires 0 <= i < |CaseAssessmentQuestions|
    ensures CaseAssessmentQuestions[i].riskLevel.Some?
    ensures CalculateSeverity([AssessmentResponse(CaseAssessmentQuestions[i].id, "yes", timestamp)]).level
            == CaseAssessmentQuestions[i].riskLevel.value
  {
    var r := AssessmentResponse(CaseAssessmentQuestions[i].id, "yes", timestamp);
    IsYesSpellings("yes");
    assert [r][0] == r;
    if i < 3 {
      assert !IsHighRiskAnswer(r);
    }
  }
}
