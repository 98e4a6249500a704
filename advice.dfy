/**
  `generateRecommendations` and `generateResumeSuggestions` of the analyze-jd route: template
  lists whose entries depend on the missing and matched skills, the score and the job text.
 */
module Advice {
  import opened Seqs
  import opened Strings
  import opened JdExtraction
  import opened ResumeExtraction
  import opened Scoring

  datatype Recommendation = CoverMissingSkills(skills: seq<string>) | RefocusResume | UseJdKeywords | QuantifyResults | StressTeamwork
  {
    function Text(): string
    {
      match this
      case CoverMissingSkills(skills) => "针对岗位要求的" + Join(skills, "、") + "等技能，建议在简历中突出相关项目经验或学习经历"
      case RefocusResume => "建议根据岗位要求调整简历重点，突出与JD最相关的项目经历和工作成果"
      case UseJdKeywords => "在简历中使用与JD相同的关键词，提高简历通过ATS（自动筛选系统）的概率"
      case QuantifyResults => "量化工作成果，使用具体数字和指标展示您的能力和价值"
      case StressTeamwork => "强调团队协作能力和跨部门沟通经验，突出软技能"
    }
  }

  datatype Suggestion = HighlightSkills(skills: seq<string>) | LeadWithRelevantProjects | EchoJdKeywords | AddTraining | ClarifyLayout
  {
    function Text(): string
    {
      match this
      case HighlightSkills(skills) => "在技能部分突出显示：" + Join(skills, "、") + "，这些是岗位的核心要求"
      case LeadWithRelevantProjects => "在项目经历中，优先展示与岗位要求最相关的项目，并详细描述使用的技术和解决的问题"
      case EchoJdKeywords => "在自我评价或工作描述中，使用JD中出现的关键词，提高匹配度"
      case AddTraining => "考虑添加相关的培训经历、在线课程或认证，展示您对岗位相关技能的学习能力"
      case ClarifyLayout => "确保简历格式清晰，重点突出，便于HR快速识别您的核心优势"
    }
  }

  /** Below this score the resume should be refocused. */
  const RefocusBelow := 70
  /** Below this score training is suggested. */
  const TrainingBelow := 60

  predicate MentionsTeamwork(jdText: string)
  {
    Contains(jdText, "团队") || Contains(jdText, "协作")
  }

  /** The recommendations, in the order the source pushes them. */
  function Recommendations(jdText: string, jd: JdInfo, score: int, resume: ResumeData): seq<Recommendation>
  {
    var missing := MissingSkills(jd.skills, resume.skills);
    When(|missing| > 0, CoverMissingSkills(missing))
    + When(score < RefocusBelow, RefocusResume)
    + [UseJdKeywords, QuantifyResults]
    + When(MentionsTeamwork(jdText), StressTeamwork)
  }

  /** The resume suggestions, in the order the source pushes them. */
  function Suggestions(jd: JdInfo, score: int, resume: ResumeData): seq<Suggestion>
  {
    var matched := MatchedSkills(jd.skills, resume.skills);
    When(|matched| > 0, HighlightSkills(matched))
    + [LeadWithRelevantProjects, EchoJdKeywords]
    + When(score < TrainingBelow, AddTraining)
    + [ClarifyLayout]
  }

  /** `generateRecommendations`. */
  method GenerateRecommendations(jdText: string, jdInfo: JdInfo, matchResult: MatchResult, resumeData: ResumeData)
    returns (recommendations: seq<Recommendation>)
    ensures recommendations == Recommendations(jdText, jdInfo, matchResult.score, resumeData)
  {
    recommendations := [];
    var missingSkills := Filter(jdInfo.skills, LackedBy(resumeData.skills));
    if |missingSkills| > 0 {
      recommendations := recommendations + [CoverMissingSkills(missingSkills)];
    }
    ghost var first := recommendations;
    if matchResult.score < RefocusBelow {
      recommendations := recommendations + [RefocusResume];
    }
    assert recommendations == first + When(matchResult.score < RefocusBelow, RefocusResume);
    ghost var conditional := recommendations;
    recommendations := recommendations + [UseJdKeywords];
    recommendations := recommendations + [QuantifyResults];
    assert recommendations == conditional + [UseJdKeywords, QuantifyResults];
    if Contains(jdText, "团队") || Contains(jdText, "协作") {
      recommendations := recommendations + [StressTeamwork];
    }
  }

  /** `generateResumeSuggestions`. */
  method GenerateResumeSuggestions(jdInfo: JdInfo, matchResult: MatchResult, resumeData: ResumeData)
    returns (suggestions: seq<Suggestion>)
    ensures suggestions == Suggestions(jdInfo, matchResult.score, resumeData)
  {
    suggestions := [];
    var matchedSkills := Filter(jdInfo.skills, HeldBy(resumeData.skills));
    if |matchedSkills| > 0 {
      suggestions := suggestions + [HighlightSkills(matchedSkills)];
    }
    ghost var first := suggestions;
    assert first == When(|matchedSkills| > 0, HighlightSkills(matchedSkills));
    suggestions := suggestions + [LeadWithRelevantProjects];
    suggestions := suggestions + [EchoJdKeywords];
    assert suggestions == first + [LeadWithRelevantProjects, EchoJdKeywords];
    ghost var fixed := suggestions;
    if matchResult.score < TrainingBelow {
      suggestions := suggestions + [AddTraining];
    }
    assert suggestions == fixed + When(matchResult.score < TrainingBelow, AddTraining);
    suggestions := suggestions + [ClarifyLayout];
  }

  /**
    Two to five recommendations: the keyword and quantification entries always, the refocus
    entry iff the score is below 70, the teamwork entry iff the text mentions 团队 or 协作, and
    the missing-skills entry iff some skill is missing, naming exactly those skills.
   */
  lemma RecommendationsSpec(jdText: string, jd: JdInfo, score: int, resume: ResumeData)
    ensures var r := Recommendations(jdText, jd, score, resume);
      var missing := MissingSkills(jd.skills, resume.skills);
      && 2 <= |r| <= 5
      && UseJdKeywords in r && QuantifyResults in r
      && (RefocusResume in r <==> score < RefocusBelow)
      && (StressTeamwork in r <==> MentionsTeamwork(jdText))
      && (CoverMissingSkills(missing) in r <==> |missing| > 0)
      && (forall ss :: CoverMissingSkills(ss) in r ==> ss == missing)
  {
    var missing := MissingSkills(jd.skills, resume.skills);
    RecommendationsMember(jdText, jd, score, resume, UseJdKeywords);
    RecommendationsMember(jdText, jd, score, resume, QuantifyResults);
    RecommendationsMember(jdText, jd, score, resume, RefocusResume);
    RecommendationsMember(jdText, jd, score, resume, StressTeamwork);
    RecommendationsMember(jdText, jd, score, resume, CoverMissingSkills(missing));
    forall ss | CoverMissingSkills(ss) in Recommendations(jdText, jd, score, resume)
      ensures ss == missing
    {
      RecommendationsMember(jdText, jd, score, resume, CoverMissingSkills(ss));
    }
  }

  /** An element is among the recommendations iff it is one of them and its condition holds. */
  lemma RecommendationsMember(jdText: string, jd: JdInfo, score: int, resume: ResumeData, x: Recommendation)
    ensures var missing := MissingSkills(jd.skills, resume.skills);
      x in Recommendations(jdText, jd, score, resume) <==>
        (|missing| > 0 && x == CoverMissingSkills(missing)) || (score < RefocusBelow && x == RefocusResume)
        || x == UseJdKeywords || x == QuantifyResults || (MentionsTeamwork(jdText) && x == StressTeamwork)
  {
    var missing := MissingSkills(jd.skills, resume.skills);
    var cover, refocus, teamwork :=
      When(|missing| > 0, CoverMissingSkills(missing)), When(score < RefocusBelow, RefocusResume),
      When(MentionsTeamwork(jdText), StressTeamwork);
    assert Recommendations(jdText, jd, score, resume) == cover + refocus + [UseJdKeywords, QuantifyResults] + teamwork;
    WhenMember(|missing| > 0, CoverMissingSkills(missing), x);
    WhenMember(score < RefocusBelow, RefocusResume, x);
    WhenMember(MentionsTeamwork(jdText), StressTeamwork, x);
  }

  /**
    Three to five suggestions: the project, keyword and layout entries always (layout last),
    the training entry iff the score is below 60, and the highlight entry iff some skill is
    matched, naming exactly those skills.
   */
  lemma SuggestionsSpec(jd: JdInfo, score: int, resume: ResumeData)
    ensures var r := Suggestions(jd, score, resume);
      var matched := MatchedSkills(jd.skills, resume.skills);
      && 3 <= |r| <= 5
      && LeadWithRelevantProjects in r && EchoJdKeywords in r && r[|r| - 1] == ClarifyLayout
      && (AddTraining in r <==> score < TrainingBelow)
      && (HighlightSkills(matched) in r <==> |matched| > 0)
      && (forall ss :: HighlightSkills(ss) in r ==> ss == matched)
  {
    var matched := MatchedSkills(jd.skills, resume.skills);
    SuggestionsMember(jd, score, resume, LeadWithRelevantProjects);
    SuggestionsMember(jd, score, resume, EchoJdKeywords);
    SuggestionsMember(jd, score, resume, AddTraining);
    SuggestionsMember(jd, score, resume, HighlightSkills(matched));
    forall ss | HighlightSkills(ss) in Suggestions(jd, score, resume)
      ensures ss == matched
    {
      SuggestionsMember(jd, score, resume, HighlightSkills(ss));
    }
  }

  /** An element is among the suggestions iff it is one of them and its condition holds. */
  lemma SuggestionsMember(jd: JdInfo, score: int, resume: ResumeData, x: Suggestion)
    ensures var matched := MatchedSkills(jd.skills, resume.skills);
      x in Suggestions(jd, score, resume) <==>
        (|matched| > 0 && x == HighlightSkills(matched)) || x == LeadWithRelevantProjects || x == EchoJdKeywords
        || (score < TrainingBelow && x == AddTraining) || x == ClarifyLayout
  {
    var matched := MatchedSkills(jd.skills, resume.skills);
    var highlight, training :=
      When(|matched| > 0, HighlightSkills(matched)), When(score < TrainingBelow, AddTraining);
    assert Suggestions(jd, score, resume) == highlight + [LeadWithRelevantProjects, EchoJdKeywords] + training + [ClarifyLayout];
    WhenMember(|matched| > 0, HighlightSkills(matched), x);
    WhenMember(score < TrainingBelow, AddTraining, x);
  }

  /** A training suggestion always comes with a refocus recommendation. */
  lemma TrainingImpliesRefocus(jdText: string, jd: JdInfo, score: int, resume: ResumeData)
    requires AddTraining in Suggestions(jd, score, resume)
    ensures RefocusResume in Recommendations(jdText, jd, score, resume)
  {
    SuggestionsSpec(jd, score, resume);
    RecommendationsSpec(jdText, jd, score, resume);
  }

  /**
    The report agrees with itself about skills: the missing-skills recommendation appears iff
    the missing-skills weakness does, and the highlight suggestion iff the skills strength does.
   */
  lemma AdviceAgreesWithAssessment(jdText: string, jd: JdInfo, resume: ResumeData)
    ensures var a := Assessment(jdText, jd, resume);
      var missing := MissingSkills(jd.skills, resume.skills);
      var matched := MatchedSkills(jd.skills, resume.skills);
      && (CoverMissingSkills(missing) in Recommendations(jdText, jd, a.score, resume) <==> SkillsLacking(missing) in a.weaknesses)
      && (HighlightSkills(matched) in Suggestions(jd, a.score, resume) <==> SkillsHeld(matched) in a.strengths)
  {
    var a := Assessment(jdText, jd, resume);
    var matched := MatchedSkills(jd.skills, resume.skills);
    var missing := MissingSkills(jd.skills, resume.skills);
    var ratio := SkillRatio(|matched|, |jd.skills|);
    StrengthsSpec(matched, ratio, |resume.experiences|, |jdText| > 200 && HasLongDescription(resume.experiences));
    WeaknessesSpec(missing, ratio, |resume.experiences|);
    RecommendationsSpec(jdText, jd, a.score, resume);
    SuggestionsSpec(jd, a.score, resume);
  }
}
