/**
  `POST` of the analyze-jd route: validate the two texts (the job description first), then
  run extraction, scoring and advice and assemble the report. The report identifier, made
  from the clock and a random number in the source, is a parameter.
 */
module AnalyzeRoute {
  import opened Seqs
  import opened Strings
  import opened JdExtraction
  import opened ResumeExtraction
  import opened Scoring
  import opened Advice

  /** A field of the JSON request body: missing (or null), some other JSON value, or a string. */
  datatype Field = Absent | NotText | Text(value: string)

  const JdMinLength := 50
  const ResumeMinLength := 30
  const JdTooShort := "JD内容过短，请提供完整的岗位描述（至少50个字符）"
  const ResumeTooShort := "简历内容过短，请提供完整的简历信息（至少30个字符）"

  /** The negation of `!f || typeof f !== 'string' || f.trim().length < minLength`. */
  predicate Acceptable(f: Field, minLength: nat)
  {
    f.Text? && f.value != "" && |Trim(f.value)| >= minLength
  }

  datatype MatchReport = MatchReport(
    reportId: string,
    matchScore: int,
    strengths: seq<Strength>,
    weaknesses: seq<Weakness>,
    recommendations: seq<Recommendation>,
    jdSummary: JdInfo,
    resumeSuggestions: seq<Suggestion>)

  /** A 400 response with its message, or the report (status 200). */
  datatype AnalyzeResponse = BadRequest(error: string) | Report(report: MatchReport)
  {
    function Status(): int
    {
      if BadRequest? then 400 else 200
    }
  }

  function ReportOf(jdText: string, resumeText: string, jdMatches: JdMatches, resumeMatches: ResumeMatches, reportId: string): MatchReport
  {
    var jd := JdInfoOf(jdText, jdMatches);
    var resume := ResumeDataOf(resumeText, resumeMatches);
    var a := Assessment(jdText, jd, resume);
    MatchReport(reportId, a.score, a.strengths, a.weaknesses,
      Recommendations(jdText, jd, a.score, resume), jd, Suggestions(jd, a.score, resume))
  }

  /**
    `POST`: a missing, non-string or too short job description is rejected before the resume
    is looked at; then a missing, non-string or too short resume; otherwise the report.
   */
  method Analyze(jdText: Field, resumeText: Field, jdMatches: JdMatches, resumeMatches: ResumeMatches, reportId: string)
    returns (response: AnalyzeResponse)
    ensures !Acceptable(jdText, JdMinLength) ==> response == BadRequest(JdTooShort)
    ensures Acceptable(jdText, JdMinLength) && !Acceptable(resumeText, ResumeMinLength) ==> response == BadRequest(ResumeTooShort)
    ensures response.Report? <==> Acceptable(jdText, JdMinLength) && Acceptable(resumeText, ResumeMinLength)
    ensures response.Report? ==> response.report == ReportOf(jdText.value, resumeText.value, jdMatches, resumeMatches, reportId)
  {
    if !jdText.Text? || jdText.value == "" || |Trim(jdText.value)| < JdMinLength {
      return BadRequest(JdTooShort);
    }
    if !resumeText.Text? || resumeText.value == "" || |Trim(resumeText.value)| < ResumeMinLength {
      return BadRequest(ResumeTooShort);
    }
    var jdInfo := ExtractJdInfo(jdText.value, jdMatches);
    var resumeData := ExtractResumeInfo(resumeText.value, resumeMatches);
    var matchResult := CalculateMatchScore(jdText.value, jdInfo, resumeData);
    var recommendations := GenerateRecommendations(jdText.value, jdInfo, matchResult, resumeData);
    var resumeSuggestions := GenerateResumeSuggestions(jdInfo, matchResult, resumeData);
    var report := MatchReport(reportId, matchResult.score, matchResult.strengths, matchResult.weaknesses,
      recommendations, jdInfo, resumeSuggestions);
    return Report(report);
  }

  /**
    The report's score is clamp(round(60·m/n + 40·k/6)) within [30, 95], where the job
    summary lists n ≥ 1 skills (so the 0.5 ratio is never used), m of them held by the resume,
    and k experience keywords occur in the job text.
   */
  lemma ReportScoreSpec(jdText: string, resumeText: string, jdMatches: JdMatches, resumeMatches: ResumeMatches, reportId: string)
    ensures var r := ReportOf(jdText, resumeText, jdMatches, resumeMatches, reportId);
      var n := |JdSkills(jdText)|;
      var m := |MatchedSkills(JdSkills(jdText), ResumeSkills(resumeText))|;
      var k := KeywordCount(jdText);
      && n >= 1
      && r.matchScore == Min(MaxScore, Max(MinScore, Round(60.0 * (m as real / n as real) + 40.0 * (k as real / 6.0))))
      && MinScore <= r.matchScore <= MaxScore
  {
    var jd := JdInfoOf(jdText, jdMatches);
    var resume := ResumeDataOf(resumeText, resumeMatches);
    AssessmentScore(jdText, jd, resume);
  }

  /**
    The report carries the given identifier and the job summary: the job skills (never empty)
    and one to five key requirements.
   */
  lemma ReportSummarySpec(jdText: string, resumeText: string, jdMatches: JdMatches, resumeMatches: ResumeMatches, reportId: string)
    ensures var r := ReportOf(jdText, resumeText, jdMatches, resumeMatches, reportId);
      && r.reportId == reportId
      && r.jdSummary == JdInfoOf(jdText, jdMatches)
      && |r.jdSummary.skills| >= 1
      && 1 <= |r.jdSummary.keyRequirements| <= MaxRequirements
  {
    KeyRequirementsSpec(jdMatches.requirements);
  }

  /**
    Exactly one experience strength is given, the extensive one iff two or more experience
    lines matched, and never the experience weakness, because there is always an entry.
   */
  lemma ReportExperienceSpec(jdText: string, resumeText: string, jdMatches: JdMatches, resumeMatches: ResumeMatches, reportId: string)
    ensures var r := ReportOf(jdText, resumeText, jdMatches, resumeMatches, reportId);
      && LittleExperience !in r.weaknesses
      && (ExtensiveExperience in r.strengths <==> |resumeMatches.experienceLines| >= 2)
      && (SomeExperience in r.strengths <==> |resumeMatches.experienceLines| <= 1)
  {
    var jd := JdInfoOf(jdText, jdMatches);
    var resume := ResumeDataOf(resumeText, resumeMatches);
    var matched := MatchedSkills(jd.skills, resume.skills);
    var ratio := SkillRatio(|matched|, |jd.skills|);
    var e := |resume.experiences|;
    ExperiencesSpec(resumeText, resumeMatches.experienceLines);
    assert e >= 2 <==> |resumeMatches.experienceLines| >= 2;
    StrengthsSpec(matched, ratio, e, |jdText| > 200 && HasLongDescription(resume.experiences));
    WeaknessesSpec(MissingSkills(jd.skills, resume.skills), ratio, e);
  }

  /** Every report has two to five recommendations and three to five suggestions. */
  lemma ReportAdviceSpec(jdText: string, resumeText: string, jdMatches: JdMatches, resumeMatches: ResumeMatches, reportId: string)
    ensures var r := ReportOf(jdText, resumeText, jdMatches, resumeMatches, reportId);
      2 <= |r.recommendations| <= 5 && 3 <= |r.resumeSuggestions| <= 5
  {
    var jd := JdInfoOf(jdText, jdMatches);
    var resume := ResumeDataOf(resumeText, resumeMatches);
    var a := Assessment(jdText, jd, resume);
    RecommendationsSpec(jdText, jd, a.score, resume);
    SuggestionsSpec(jd, a.score, resume);
  }
}
