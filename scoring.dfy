/**
  `calculateMatchScore` of the analyze-jd route: the job-description skills split into those
  the resume holds and those it lacks, the weighted score clamped to [30, 95], and the
  strengths and weaknesses that thresholds on those figures select.
 */
module Scoring {
  import opened Seqs
  import opened Strings
  import opened JdExtraction
  import opened ResumeExtraction

  /** The fixed keywords whose presence in the job description makes up the experience part. */
  const ExperienceKeywords: seq<string> := ["开发", "工程师", "项目", "技术", "系统", "平台"]

  const MinScore := 30
  const MaxScore := 95

  /** `a.toLowerCase().includes(b.toLowerCase()) || b.toLowerCase().includes(a.toLowerCase())`. */
  predicate Related(a: string, b: string)
  {
    Contains(Lower(a), Lower(b)) || Contains(Lower(b), Lower(a))
  }

  /** `resumeSkills.some(rs => …)`: some resume skill is related to `skill`. */
  predicate Held(resumeSkills: seq<string>, skill: string)
  {
    exists i :: 0 <= i < |resumeSkills| && Related(resumeSkills[i], skill)
  }

  function HeldBy(resumeSkills: seq<string>): string -> bool
  {
    skill => Held(resumeSkills, skill)
  }

  function LackedBy(resumeSkills: seq<string>): string -> bool
  {
    skill => !Held(resumeSkills, skill)
  }

  function MatchedSkills(jdSkills: seq<string>, resumeSkills: seq<string>): seq<string>
  {
    Filter(jdSkills, HeldBy(resumeSkills))
  }

  function MissingSkills(jdSkills: seq<string>, resumeSkills: seq<string>): seq<string>
  {
    Filter(jdSkills, LackedBy(resumeSkills))
  }

  /** How many of the six experience keywords the job description contains. */
  function KeywordCount(jdText: string): nat
  {
    |Filter(ExperienceKeywords, InJd(jdText))|
  }

  /** `matched / total`, or 0.5 when there are no job-description skills. */
  function SkillRatio(matched: nat, total: nat): real
  {
    if total > 0 then matched as real / total as real else 0.5
  }

  /** `(skillMatchRatio * 0.6 + experienceMatch * 0.4) * 100`, in exact arithmetic. */
  function BaseScore(ratio: real, keywords: nat): real
  {
    (ratio * 0.6 + (keywords as real / 6.0) * 0.4) * 100.0
  }

  /** `Math.round`: the nearest integer, halves rounded up. */
  function Round(x: real): int
  {
    (x + 0.5).Floor
  }

  function Score(ratio: real, keywords: nat): (s: int)
    ensures MinScore <= s <= MaxScore
  {
    Min(MaxScore, Max(MinScore, Round(BaseScore(ratio, keywords))))
  }

  datatype Strength = SkillsHeld(skills: seq<string>) | HighSkillMatch | ExtensiveExperience | SomeExperience | RichContent
  {
    function Text(): string
    {
      match this
      case SkillsHeld(skills) => "您已掌握岗位要求的关键技能：" + Join(skills, "、")
      case HighSkillMatch => "技能匹配度较高，符合岗位基本要求"
      case ExtensiveExperience => "拥有丰富的工作经验，能够胜任相关岗位"
      case SomeExperience => "有相关工作经验，建议详细描述项目成果"
      case RichContent => "简历内容较为丰富，能够展示您的专业能力"
    }
  }

  datatype Weakness = SkillsLacking(skills: seq<string>) | LowSkillMatch | LittleExperience
  {
    function Text(): string
    {
      match this
      case SkillsLacking(skills) => "建议补充以下技能：" + Join(skills, "、")
      case LowSkillMatch => "技能匹配度较低，需要重点提升相关技术栈"
      case LittleExperience => "工作经验相对较少，建议突出项目经历和学习能力"
    }
  }

  datatype MatchResult = MatchResult(score: int, strengths: seq<Strength>, weaknesses: seq<Weakness>)

  function When<T>(c: bool, x: T): seq<T>
  {
    if c then [x] else []
  }

  lemma WhenMember<T>(c: bool, y: T, x: T)
    ensures x in When(c, y) <==> c && x == y
  {
  }

  predicate HasLongDescription(experiences: seq<Experience>)
  {
    exists i :: 0 <= i < |experiences| && |experiences[i].description| > 50
  }

  /** The strengths, in the order the source pushes them. */
  function StrengthsOf(matched: seq<string>, ratio: real, experiences: nat, richContent: bool): seq<Strength>
  {
    When(|matched| > 0, SkillsHeld(matched))
    + When(ratio >= 0.7, HighSkillMatch)
    + When(experiences >= 2, ExtensiveExperience)
    + When(experiences == 1, SomeExperience)
    + When(richContent, RichContent)
  }

  /** The weaknesses, in the order the source pushes them. */
  function WeaknessesOf(missing: seq<string>, ratio: real, experiences: nat): seq<Weakness>
  {
    When(|missing| > 0, SkillsLacking(missing))
    + When(ratio < 0.4, LowSkillMatch)
    + When(experiences == 0, LittleExperience)
  }

  function Assessment(jdText: string, jd: JdInfo, resume: ResumeData): MatchResult
  {
    var matched := MatchedSkills(jd.skills, resume.skills);
    var ratio := SkillRatio(|matched|, |jd.skills|);
    MatchResult(
      Score(ratio, KeywordCount(jdText)),
      StrengthsOf(matched, ratio, |resume.experiences|, |jdText| > 200 && HasLongDescription(resume.experiences)),
      WeaknessesOf(MissingSkills(jd.skills, resume.skills), ratio, |resume.experiences|))
  }

  /** `calculateMatchScore`: the two arrays are built by pushes in an if-chain. */
  method CalculateMatchScore(jdText: string, jdInfo: JdInfo, resumeData: ResumeData) returns (result: MatchResult)
    ensures result == Assessment(jdText, jdInfo, resumeData)
  {
    var resumeSkills := resumeData.skills;
    var jdSkills := jdInfo.skills;
    var matchedSkills := Filter(jdSkills, HeldBy(resumeSkills));
    var skillMatchRatio := if |jdSkills| > 0 then |matchedSkills| as real / |jdSkills| as real else 0.5;
    var experienceMatch := |Filter(ExperienceKeywords, InJd(jdText))| as real / |ExperienceKeywords| as real;
    var baseScore := (skillMatchRatio * 0.6 + experienceMatch * 0.4) * 100.0;
    var score := Min(MaxScore, Max(MinScore, Round(baseScore)));
    assert skillMatchRatio == SkillRatio(|matchedSkills|, |jdSkills|);
    assert experienceMatch == KeywordCount(jdText) as real / 6.0;
    assert score == Score(skillMatchRatio, KeywordCount(jdText));

    var strengths: seq<Strength> := [];
    var weaknesses: seq<Weakness> := [];
    if |matchedSkills| > 0 {
      strengths := strengths + [SkillsHeld(matchedSkills)];
    }
    assert strengths == When(|matchedSkills| > 0, SkillsHeld(matchedSkills));
    var missingSkills := Filter(jdSkills, LackedBy(resumeSkills));
    if |missingSkills| > 0 {
      weaknesses := weaknesses + [SkillsLacking(missingSkills)];
    }
    assert weaknesses == When(|missingSkills| > 0, SkillsLacking(missingSkills));
    ghost var s1, w1 := strengths, weaknesses;
    if skillMatchRatio >= 0.7 {
      strengths := strengths + [HighSkillMatch];
    } else if skillMatchRatio < 0.4 {
      weaknesses := weaknesses + [LowSkillMatch];
    }
    assert strengths == s1 + When(skillMatchRatio >= 0.7, HighSkillMatch);
    assert weaknesses == w1 + When(skillMatchRatio < 0.4, LowSkillMatch);
    var richContent := |jdText| > 200 && HasLongDescription(resumeData.experiences);
    strengths, weaknesses := PushExperienceMessages(strengths, weaknesses, |resumeData.experiences|, richContent);
    result := MatchResult(score, strengths, weaknesses);
  }

  /** The experience checks and the content-richness check that end `calculateMatchScore`. */
  method PushExperienceMessages(strengths: seq<Strength>, weaknesses: seq<Weakness>, experiences: nat, richContent: bool)
    returns (s: seq<Strength>, w: seq<Weakness>)
    ensures s == strengths + When(experiences >= 2, ExtensiveExperience) + When(experiences == 1, SomeExperience)
      + When(richContent, RichContent)
    ensures w == weaknesses + When(experiences == 0, LittleExperience)
  {
    s, w := strengths, weaknesses;
    if experiences >= 2 {
      s := s + [ExtensiveExperience];
    } else if experiences == 1 {
      s := s + [SomeExperience];
    } else {
      w := w + [LittleExperience];
    }
    assert s == strengths + When(experiences >= 2, ExtensiveExperience) + When(experiences == 1, SomeExperience);
    ghost var s1 := s;
    if richContent {
      s := s + [RichContent];
    }
    assert s == s1 + When(richContent, RichContent);
  }

  /**
    Matched and missing skills partition the job-description skills: each skill is in
    exactly one of them, and their lengths add up.
   */
  lemma MatchedMissingPartition(jdSkills: seq<string>, resumeSkills: seq<string>)
    ensures |MatchedSkills(jdSkills, resumeSkills)| + |MissingSkills(jdSkills, resumeSkills)| == |jdSkills|
    ensures forall s :: s in jdSkills ==>
      (s in MatchedSkills(jdSkills, resumeSkills) <==> Held(resumeSkills, s))
      && (s in MissingSkills(jdSkills, resumeSkills) <==> !Held(resumeSkills, s))
  {
    FilterComplement(jdSkills, HeldBy(resumeSkills), LackedBy(resumeSkills));
    forall s | s in jdSkills
      ensures s in MatchedSkills(jdSkills, resumeSkills) <==> Held(resumeSkills, s)
      ensures s in MissingSkills(jdSkills, resumeSkills) <==> !Held(resumeSkills, s)
    {
      FilterMember(jdSkills, HeldBy(resumeSkills), s);
      FilterMember(jdSkills, LackedBy(resumeSkills), s);
    }
  }

  /** The score formula: 60·m/n + 40·k/6 before rounding, for n > 0. */
  lemma BaseScoreFormula(matched: nat, total: nat, keywords: nat)
    requires total > 0
    ensures BaseScore(SkillRatio(matched, total), keywords)
      == 60.0 * (matched as real / total as real) + 40.0 * (keywords as real / 6.0)
  {
  }

  /** The clamped, rounded score written out as `60·matched/total + 40·keywords/6`. */
  lemma ScoreFormula(matched: nat, total: nat, keywords: nat)
    requires total > 0
    ensures Score(SkillRatio(matched, total), keywords)
      == Min(MaxScore, Max(MinScore, Round(60.0 * (matched as real / total as real) + 40.0 * (keywords as real / 6.0))))
  {
    BaseScoreFormula(matched, total, keywords);
  }

  /** With at least one job skill, the assessed score is the clamped, rounded formula. */
  lemma AssessmentScore(jdText: string, jd: JdInfo, resume: ResumeData)
    requires |jd.skills| > 0
    ensures Assessment(jdText, jd, resume).score == Min(MaxScore, Max(MinScore,
      Round(60.0 * (|MatchedSkills(jd.skills, resume.skills)| as real / |jd.skills| as real)
        + 40.0 * (KeywordCount(jdText) as real / 6.0))))
  {
    ScoreFormula(|MatchedSkills(jd.skills, resume.skills)|, |jd.skills|, KeywordCount(jdText));
  }

  /** More matched skills or more keywords never lower the score. */
  lemma ScoreMonotone(m1: nat, m2: nat, total: nat, k1: nat, k2: nat)
    requires m1 <= m2 && k1 <= k2 && total > 0
    ensures Score(SkillRatio(m1, total), k1) <= Score(SkillRatio(m2, total), k2)
  {
    var n := total as real;
    assert m1 as real / n <= m2 as real / n by {
      assert m1 as real / n * n == m1 as real;
      assert m2 as real / n * n == m2 as real;
    }
    var b1 := BaseScore(SkillRatio(m1, total), k1);
    var b2 := BaseScore(SkillRatio(m2, total), k2);
    assert b1 <= b2;
    assert Round(b1) <= Round(b2);
  }

  /** Every skill held and every keyword present gives the top score; nothing at all the bottom. */
  lemma ScoreExtremes(total: nat)
    requires total > 0
    ensures Score(SkillRatio(total, total), 6) == MaxScore
    ensures Score(SkillRatio(0, total), 0) == MinScore
    ensures Score(SkillRatio(total, total), 0) == 60
  {
    assert SkillRatio(total, total) == 1.0;
    assert SkillRatio(0, total) == 0.0;
  }

  /** Two of two skills held and one keyword ("开发"): 60 + 40/6 = 66.67, rounded to 67. */
  lemma ScoreExample()
    ensures Score(SkillRatio(2, 2), 1) == 67
  {
    assert SkillRatio(2, 2) == 1.0;
    assert BaseScore(1.0, 1) == 60.0 + 40.0 / 6.0;
    assert (60.0 + 40.0 / 6.0 + 0.5).Floor == 67;
  }

  /** Every skill named in a skill message can be found in its text. */
  lemma SkillMessagesNameEverySkill(skills: seq<string>)
    ensures forall s :: s in skills ==> Contains(SkillsHeld(skills).Text(), s) && Contains(SkillsLacking(skills).Text(), s)
  {
    forall s | s in skills
      ensures Contains(SkillsHeld(skills).Text(), s) && Contains(SkillsLacking(skills).Text(), s)
    {
      var i :| 0 <= i < |skills| && skills[i] == s;
      JoinNamesEveryPart(skills, "、", i);
      ContainsInSuffix("您已掌握岗位要求的关键技能：", Join(skills, "、"), s);
      ContainsInSuffix("建议补充以下技能：", Join(skills, "、"), s);
    }
  }

  /**
    The strengths: the skills strength is present iff some skill is matched, and names exactly
    the matched skills; the extensive-experience strength is present iff there are two or more
    entries, and the some-experience strength iff there is exactly one (neither with none).
   */
  lemma StrengthsSpec(matched: seq<string>, ratio: real, experiences: nat, richContent: bool)
    ensures var r := StrengthsOf(matched, ratio, experiences, richContent);
      && (SkillsHeld(matched) in r <==> |matched| > 0)
      && (forall ss :: SkillsHeld(ss) in r ==> ss == matched)
      && (HighSkillMatch in r <==> ratio >= 0.7)
      && (RichContent in r <==> richContent)
      && (ExtensiveExperience in r <==> experiences >= 2)
      && (SomeExperience in r <==> experiences == 1)
  {
    StrengthsMember(matched, ratio, experiences, richContent, SkillsHeld(matched));
    StrengthsMember(matched, ratio, experiences, richContent, HighSkillMatch);
    StrengthsMember(matched, ratio, experiences, richContent, ExtensiveExperience);
    StrengthsMember(matched, ratio, experiences, richContent, SomeExperience);
    StrengthsMember(matched, ratio, experiences, richContent, RichContent);
    forall ss | SkillsHeld(ss) in StrengthsOf(matched, ratio, experiences, richContent)
      ensures ss == matched
    {
      StrengthsMember(matched, ratio, experiences, richContent, SkillsHeld(ss));
    }
  }

  /** An element is among the strengths iff it is one of them and its condition holds. */
  lemma StrengthsMember(matched: seq<string>, ratio: real, experiences: nat, richContent: bool, x: Strength)
    ensures x in StrengthsOf(matched, ratio, experiences, richContent) <==>
      (|matched| > 0 && x == SkillsHeld(matched)) || (ratio >= 0.7 && x == HighSkillMatch)
      || (experiences >= 2 && x == ExtensiveExperience) || (experiences == 1 && x == SomeExperience)
      || (richContent && x == RichContent)
  {
    var skills, high, extensive, some, rich :=
      When(|matched| > 0, SkillsHeld(matched)), When(ratio >= 0.7, HighSkillMatch),
      When(experiences >= 2, ExtensiveExperience), When(experiences == 1, SomeExperience),
      When(richContent, RichContent);
    assert StrengthsOf(matched, ratio, experiences, richContent) == skills + high + extensive + some + rich;
    WhenMember(|matched| > 0, SkillsHeld(matched), x);
    WhenMember(ratio >= 0.7, HighSkillMatch, x);
    WhenMember(experiences >= 2, ExtensiveExperience, x);
    WhenMember(experiences == 1, SomeExperience, x);
    WhenMember(richContent, RichContent, x);
  }

  /**
    The weaknesses: the missing-skills weakness is present iff some skill is missing, and names
    exactly the missing skills; the experience weakness iff there is no experience entry.
   */
  lemma WeaknessesSpec(missing: seq<string>, ratio: real, experiences: nat)
    ensures var r := WeaknessesOf(missing, ratio, experiences);
      && (SkillsLacking(missing) in r <==> |missing| > 0)
      && (forall ss :: SkillsLacking(ss) in r ==> ss == missing)
      && (LowSkillMatch in r <==> ratio < 0.4)
      && (LittleExperience in r <==> experiences == 0)
  {
  }

  /**
    The high-match strength and the low-match weakness are never both reported, and with at
    least one experience entry the experience weakness is not reported.
   */
  lemma AssessmentSpec(jdText: string, jd: JdInfo, resume: ResumeData)
    ensures var r := Assessment(jdText, jd, resume);
      && !(HighSkillMatch in r.strengths && LowSkillMatch in r.weaknesses)
      && (|resume.experiences| >= 1 ==> LittleExperience !in r.weaknesses)
  {
    var matched := MatchedSkills(jd.skills, resume.skills);
    var ratio := SkillRatio(|matched|, |jd.skills|);
    var rich := |jdText| > 200 && HasLongDescription(resume.experiences);
    StrengthsSpec(matched, ratio, |resume.experiences|, rich);
    WeaknessesSpec(MissingSkills(jd.skills, resume.skills), ratio, |resume.experiences|);
  }

  /**
    When every job-description skill is also a resume skill, the skills strength names all of
    them and no missing-skills weakness is reported.
   */
  lemma AllSkillsHeld(jdText: string, jd: JdInfo, resume: ResumeData)
    requires |jd.skills| > 0
    requires forall s :: s in jd.skills ==> s in resume.skills
    ensures SkillsHeld(jd.skills) in Assessment(jdText, jd, resume).strengths
    ensures forall ss :: SkillsLacking(ss) !in Assessment(jdText, jd, resume).weaknesses
  {
    forall i | 0 <= i < |jd.skills|
      ensures HeldBy(resume.skills)(jd.skills[i])
    {
      var s := jd.skills[i];
      assert s in jd.skills;
      assert s in resume.skills;
      var j :| 0 <= j < |resume.skills| && resume.skills[j] == s;
      assert StartsWith(Lower(s), Lower(s));
      assert Related(resume.skills[j], s);
    }
    FilterAll(jd.skills, HeldBy(resume.skills));
    MatchedMissingPartition(jd.skills, resume.skills);
    var ratio := SkillRatio(|jd.skills|, |jd.skills|);
    StrengthsSpec(jd.skills, ratio, |resume.experiences|, |jdText| > 200 && HasLongDescription(resume.experiences));
    WeaknessesSpec(MissingSkills(jd.skills, resume.skills), ratio, |resume.experiences|);
  }

  /**
    When no job-description skill is held by the resume, the missing-skills weakness names all
    of them and no skills strength is reported.
   */
  lemma NoSkillsHeld(jdText: string, jd: JdInfo, resume: ResumeData)
    requires |jd.skills| > 0
    requires forall s :: s in jd.skills ==> !Held(resume.skills, s)
    ensures SkillsLacking(jd.skills) in Assessment(jdText, jd, resume).weaknesses
    ensures forall ss :: SkillsHeld(ss) !in Assessment(jdText, jd, resume).strengths
  {
    forall i | 0 <= i < |jd.skills|
      ensures LackedBy(resume.skills)(jd.skills[i])
    {
      assert jd.skills[i] in jd.skills;
    }
    FilterAll(jd.skills, LackedBy(resume.skills));
    MatchedMissingPartition(jd.skills, resume.skills);
    var matched := MatchedSkills(jd.skills, resume.skills);
    var ratio := SkillRatio(|matched|, |jd.skills|);
    StrengthsSpec(matched, ratio, |resume.experiences|, |jdText| > 200 && HasLongDescription(resume.experiences));
    WeaknessesSpec(jd.skills, ratio, |resume.experiences|);
  }
}
