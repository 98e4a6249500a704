/**
  `extractResumeInfo` of the analyze-jd route: the skills named in a resume (case-insensitive
  vocabulary lookup), up to three experience entries built from experience lines (or one
  default entry), and the education fields. The regular expressions are not modelled:
  the experience lines they match and the education captures are inputs.
 */
module ResumeExtraction {
  import opened Wrappers
  import opened Seqs
  import opened Strings

  /** The skill vocabulary searched in a resume, in declaration order. */
  const ResumeVocabulary: seq<string> := [
    "React", "Vue", "Angular", "TypeScript", "JavaScript", "Node.js",
    "Python", "Java", "Go", "PHP", "C++", "SQL", "MongoDB", "MySQL",
    "Docker", "Kubernetes", "AWS", "Git", "Linux", "HTML", "CSS",
    "Next.js", "Express", "Spring", "Django", "Flask", "Vue.js",
    "Tailwind", "Bootstrap", "Redux", "Webpack", "Nginx", "Redis"]

  const ExtractedFromResume := "从简历中提取"
  const Unspecified := "未指定"
  const UnknownCompany := "未知公司"
  const ExperienceLabel := "工作经历"

  /** At most this many experience lines become entries. */
  const MaxExperiences := 3
  /** At most this many skills are listed per experience entry. */
  const MaxEntrySkills := 4
  /** Description lengths: of an entry built from a line, and of the default entry. */
  const LineDescriptionLength := 100
  const DefaultDescriptionLength := 150

  datatype Experience = Experience(title: string, company: string, duration: string, skills: seq<string>, description: string)
  datatype Education = Education(degree: string, university: string, year: string)
  datatype ResumeData = ResumeData(experiences: seq<Experience>, skills: seq<string>, education: Education)

  /**
    What the regular expressions find in a resume: every line matched by the
    "公司/就职/任职/工作" pattern (in order), and capture group 1 of the education,
    university and year patterns when they match.
   */
  datatype ResumeMatches = ResumeMatches(
    experienceLines: seq<string>,
    educationCapture: Option<string>,
    universityCapture: Option<string>,
    yearCapture: Option<string>)

  /** `raw.includes(w) || lowerText.includes(w.toLowerCase())`. */
  function FoundIn(raw: string, lowerText: string): string -> bool
  {
    w => Contains(raw, w) || Contains(lowerText, Lower(w))
  }

  function ResumeSkillsFound(resumeText: string): seq<string>
  {
    Filter(ResumeVocabulary, FoundIn(resumeText, Lower(resumeText)))
  }

  function ResumeSkills(resumeText: string): seq<string>
  {
    WithFallback(ResumeSkillsFound(resumeText), ExtractedFromResume)
  }

  predicate IsColon(c: char)
  {
    c == ':' || c == '：'
  }

  predicate NoLineTerminator(s: string)
  {
    forall k :: 0 <= k < |s| ==> !IsLineTerminator(s[k])
  }

  /**
    Whether `/[:：].*$/` can match at index `j` of `s`: a colon after which no line terminator
    occurs (`.` stops at one and `$` is the end of the input).
   */
  predicate TailColonAt(s: string, j: nat)
    requires j < |s|
  {
    IsColon(s[j]) && NoLineTerminator(s[j + 1..])
  }

  /** Where `/[:：].*$/` first matches in `s`, searching from `from`; `|s|` when it nowhere does. */
  function ColonTailStart(s: string, from: nat): (r: nat)
    requires from <= |s|
    ensures from <= r <= |s|
    ensures r < |s| ==> TailColonAt(s, r)
    ensures forall j :: from <= j < r ==> !TailColonAt(s, j)
    decreases |s| - from
  {
    if from == |s| then |s|
    else if TailColonAt(s, from) then from
    else ColonTailStart(s, from + 1)
  }

  /** `line.replace(/[:：].*$/, '').trim() || '未知公司'`. */
  function CompanyOf(line: string): string
  {
    var c := Trim(line[..ColonTailStart(line, 0)]);
    if c == "" then UnknownCompany else c
  }

  /** The entry pushed for the line at position `index` of the first three. */
  function LineExperience(index: nat, line: string, found: seq<string>, lowerText: string): Experience
  {
    Experience(
      ExperienceLabel + DecimalString(index + 1),
      CompanyOf(line),
      Unspecified,
      Take(Filter(found, FoundIn(line, lowerText)), MaxEntrySkills),
      Prefix(line, LineDescriptionLength))
  }

  function LineExperiences(lines: seq<string>, found: seq<string>, lowerText: string): (r: seq<Experience>)
    ensures |r| == |lines|
  {
    if |lines| == 0 then []
    else
      var last := |lines| - 1;
      LineExperiences(lines[..last], found, lowerText) + [LineExperience(last, lines[last], found, lowerText)]
  }

  /** The single entry used when no experience line matched. */
  function DefaultExperience(resumeText: string, found: seq<string>): Experience
  {
    Experience(ExperienceLabel, ExtractedFromResume, Unspecified, Take(found, MaxEntrySkills),
      Prefix(resumeText, DefaultDescriptionLength))
  }

  function Experiences(resumeText: string, lines: seq<string>): seq<Experience>
  {
    var found := ResumeSkillsFound(resumeText);
    if |lines| > 0 then LineExperiences(Take(lines, MaxExperiences), found, Lower(resumeText))
    else [DefaultExperience(resumeText, found)]
  }

  /**
    The degree is the trimmed capture (even when that is empty); the university falls back to
    the placeholder also when its capture trims to nothing; the year when it is empty.
   */
  function EducationOf(m: ResumeMatches): Education
  {
    Education(
      match m.educationCapture
        case Some(c) => Trim(c)
        case None => Unspecified,
      match m.universityCapture
        case Some(c) => if Trim(c) != "" then Trim(c) else Unspecified
        case None => Unspecified,
      match m.yearCapture
        case Some(y) => if y != "" then y else Unspecified
        case None => Unspecified)
  }

  function ResumeDataOf(resumeText: string, m: ResumeMatches): ResumeData
  {
    ResumeData(Experiences(resumeText, m.experienceLines), ResumeSkills(resumeText), EducationOf(m))
  }

  /** `extractResumeInfo`: the vocabulary scan, the experience entries and the education record. */
  method ExtractResumeInfo(resumeText: string, m: ResumeMatches) returns (data: ResumeData)
    ensures data == ResumeDataOf(resumeText, m)
  {
    var text := Lower(resumeText);
    var foundSkills := CollectResumeSkills(resumeText, text);
    var experiences := CollectExperiences(m.experienceLines, foundSkills, text);
    if |experiences| == 0 {
      experiences := experiences + [DefaultExperience(resumeText, foundSkills)];
    }
    data := ResumeData(
      experiences,
      if |foundSkills| > 0 then foundSkills else [ExtractedFromResume],
      EducationOf(m));
  }

  /** The `skillKeywords.forEach` loop: push every vocabulary word found in either case. */
  method CollectResumeSkills(resumeText: string, text: string) returns (foundSkills: seq<string>)
    requires text == Lower(resumeText)
    ensures foundSkills == ResumeSkillsFound(resumeText)
  {
    foundSkills := [];
    for i := 0 to |ResumeVocabulary|
      invariant foundSkills == Filter(ResumeVocabulary[..i], FoundIn(resumeText, text))
    {
      var skill := ResumeVocabulary[i];
      FilterSnoc(ResumeVocabulary, FoundIn(resumeText, text), i);
      if Contains(resumeText, skill) || Contains(text, Lower(skill)) {
        foundSkills := foundSkills + [skill];
      }
    }
    assert ResumeVocabulary[..|ResumeVocabulary|] == ResumeVocabulary;
  }

  /** The `expMatches.slice(0, 3).forEach` loop: one entry per line, numbered from 1. */
  method CollectExperiences(lines: seq<string>, foundSkills: seq<string>, text: string)
    returns (experiences: seq<Experience>)
    ensures experiences == if |lines| > 0 then LineExperiences(Take(lines, MaxExperiences), foundSkills, text) else []
  {
    experiences := [];
    if |lines| > 0 {
      var first := Take(lines, MaxExperiences);
      for index := 0 to |first|
        invariant experiences == LineExperiences(first[..index], foundSkills, text)
      {
        var line := first[index];
        assert first[..index + 1][..index] == first[..index];
        var expSkills := Filter(foundSkills, FoundIn(line, text));
        experiences := experiences + [Experience(
          ExperienceLabel + DecimalString(index + 1),
          CompanyOf(line),
          Unspecified,
          Take(expSkills, MaxEntrySkills),
          Prefix(line, LineDescriptionLength))];
      }
      assert first[..|first|] == first;
    }
  }

  lemma PlaceholderNotInResumeVocabulary()
    ensures ExtractedFromResume !in ResumeVocabulary
  {
  }

  lemma {:induction false} ResumeVocabularyDistinct()
    ensures Distinct(ResumeVocabulary)
  {
  }

  /**
    The resume test is case-insensitive: the case-sensitive disjunct adds nothing, since
    `raw.includes(w)` implies `raw.toLowerCase().includes(w.toLowerCase())`.
   */
  lemma FoundInIsCaseInsensitive(raw: string, w: string)
    ensures FoundIn(raw, Lower(raw))(w) <==> Contains(Lower(raw), Lower(w))
  {
    if Contains(raw, w) {
      ContainsLower(raw, w);
    }
  }

  /**
    The skills of a resume: a vocabulary word is listed iff the lower-cased text contains the
    lower-cased word; the list is never empty and is the placeholder exactly when no
    vocabulary word occurs.
   */
  lemma ResumeSkillsSpec(resumeText: string)
    ensures |ResumeSkills(resumeText)| >= 1
    ensures forall w :: w in ResumeVocabulary ==>
      (w in ResumeSkills(resumeText) <==> Contains(Lower(resumeText), Lower(w)))
    ensures ResumeSkills(resumeText) == [ExtractedFromResume] <==>
      forall w :: w in ResumeVocabulary ==> !Contains(Lower(resumeText), Lower(w))
  {
    var p := FoundIn(resumeText, Lower(resumeText));
    PlaceholderNotInResumeVocabulary();
    FilterWithFallback(ResumeVocabulary, p, ExtractedFromResume);
    forall w | w in ResumeVocabulary
      ensures p(w) <==> Contains(Lower(resumeText), Lower(w))
    {
      FoundInIsCaseInsensitive(resumeText, w);
    }
  }

  /** The found skills keep vocabulary order, and the listed skills have no duplicates. */
  lemma ResumeSkillsOrder(resumeText: string)
    ensures Subseq(ResumeSkillsFound(resumeText), ResumeVocabulary)
    ensures Distinct(ResumeSkills(resumeText))
  {
    var p := FoundIn(resumeText, Lower(resumeText));
    FilterSubseq(ResumeVocabulary, p);
    ResumeVocabularyDistinct();
    FilterDistinct(ResumeVocabulary, p);
  }

  /**
    Every skill found in the resume passes the per-entry test, whatever the line, so each
    entry lists the first (at most four) found skills.
   */
  lemma EntrySkillsAreFoundSkills(resumeText: string, line: string)
    ensures Filter(ResumeSkillsFound(resumeText), FoundIn(line, Lower(resumeText))) == ResumeSkillsFound(resumeText)
  {
    var found := ResumeSkillsFound(resumeText);
    var p := FoundIn(resumeText, Lower(resumeText));
    forall i | 0 <= i < |found|
      ensures FoundIn(line, Lower(resumeText))(found[i])
    {
      assert p(found[i]);
      FoundInIsCaseInsensitive(resumeText, found[i]);
    }
    FilterAll(found, FoundIn(line, Lower(resumeText)));
  }

  /**
    The experience entries: one to three of them (one per matched line, up to three, or the
    single default entry); every company is non-empty, no duration is known, and every entry
    lists the first (at most four) found skills. Entries from lines carry the line's first 100
    characters; the default entry the resume's first 150.
   */
  lemma ExperiencesSpec(resumeText: string, lines: seq<string>)
    ensures 1 <= |Experiences(resumeText, lines)| <= MaxExperiences
    ensures |lines| > 0 ==> |Experiences(resumeText, lines)| == Min(MaxExperiences, |lines|)
    ensures forall e :: e in Experiences(resumeText, lines) ==>
      e.company != "" && e.duration == Unspecified && e.skills == Take(ResumeSkillsFound(resumeText), MaxEntrySkills)
    ensures forall i :: 0 <= i < |lines| && i < MaxExperiences ==>
      var e := Experiences(resumeText, lines)[i];
      e.description == lines[i][..Min(LineDescriptionLength, |lines[i]|)]
      && e.title == ExperienceLabel + DecimalString(i + 1)
    ensures |lines| == 0 ==> (
      Experiences(resumeText, lines) == [Experience(ExperienceLabel, ExtractedFromResume, Unspecified,
        Take(ResumeSkillsFound(resumeText), MaxEntrySkills), Prefix(resumeText, DefaultDescriptionLength))])
  {
    var found := ResumeSkillsFound(resumeText);
    var lower := Lower(resumeText);
    if |lines| > 0 {
      var first := Take(lines, MaxExperiences);
      forall i | 0 <= i < |first|
        ensures LineExperiences(first, found, lower)[i] == LineExperience(i, first[i], found, lower)
      {
        LineExperiencesAt(first, found, lower, i);
      }
      forall i | 0 <= i < |first|
        ensures LineExperience(i, first[i], found, lower).skills == Take(found, MaxEntrySkills)
      {
        EntrySkillsAreFoundSkills(resumeText, first[i]);
      }
    }
  }

  lemma {:induction false} LineExperiencesAt(lines: seq<string>, found: seq<string>, lowerText: string, i: nat)
    requires i < |lines|
    ensures LineExperiences(lines, found, lowerText)[i] == LineExperience(i, lines[i], found, lowerText)
    decreases |lines|
  {
    if i < |lines| - 1 {
      LineExperiencesAt(lines[..|lines| - 1], found, lowerText, i);
    }
  }

  /**
    For a line "head：rest" whose head has no colon and whose rest has no line terminator,
    the company is the trimmed head (the text before the colon), not the text after it.
   */
  lemma CompanyIsTextBeforeColon(head: string, colon: char, rest: string)
    requires forall k :: 0 <= k < |head| ==> !IsColon(head[k])
    requires IsColon(colon) && NoLineTerminator(rest)
    ensures CompanyOf(head + [colon] + rest) == if Trim(head) == "" then UnknownCompany else Trim(head)
  {
    var line := head + [colon] + rest;
    assert line[|head| + 1..] == rest;
    assert TailColonAt(line, |head|);
    ColonTailStartFinds(line, 0, |head|);
    assert line[..|head|] == head;
  }

  lemma {:induction false} ColonTailStartFinds(s: string, from: nat, k: nat)
    requires from <= k < |s|
    requires forall j :: from <= j < k ==> !TailColonAt(s, j)
    requires TailColonAt(s, k)
    ensures ColonTailStart(s, from) == k
    decreases k - from
  {
    if from < k {
      ColonTailStartFinds(s, from + 1, k);
    }
  }

  /**
    The company is the trimmed text before the first colon at which the pattern matches, even
    when earlier colons are followed by a line terminator (as in `公司:A\r…时间：B`).
   */
  lemma CompanyIsTextBeforeFirstTailColon(line: string, k: nat)
    requires k < |line| && TailColonAt(line, k)
    requires forall j :: 0 <= j < k ==> !TailColonAt(line, j)
    ensures CompanyOf(line) == if Trim(line[..k]) == "" then UnknownCompany else Trim(line[..k])
  {
    ColonTailStartFinds(line, 0, k);
  }

  /**
    The education record: the degree is the trimmed capture or `未指定`; the university is the
    trimmed capture when that is non-empty and `未指定` otherwise; the year is the capture when
    non-empty and `未指定` otherwise; so university and year are never empty.
   */
  lemma EducationSpec(m: ResumeMatches)
    ensures EducationOf(m).degree == if m.educationCapture.Some? then Trim(m.educationCapture.value) else Unspecified
    ensures EducationOf(m).university ==
      if m.universityCapture.Some? && Trim(m.universityCapture.value) != "" then Trim(m.universityCapture.value) else Unspecified
    ensures EducationOf(m).year ==
      if m.yearCapture.Some? && m.yearCapture.value != "" then m.yearCapture.value else Unspecified
    ensures EducationOf(m).university != "" && EducationOf(m).year != ""
  {
  }

  /**
    When a carriage return follows every colon (a line of a Windows-style text), the pattern
    never matches and the company is the whole trimmed line.
   */
  lemma CompanyKeepsLineWithCarriageReturn(line: string)
    requires forall k :: 0 <= k < |line| && IsColon(line[k]) ==> !NoLineTerminator(line[k + 1..])
    ensures CompanyOf(line) == if Trim(line) == "" then UnknownCompany else Trim(line)
  {
    assert ColonTailStart(line, 0) == |line|;
    assert line[..|line|] == line;
  }
}
