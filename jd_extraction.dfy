/**
  `extractJDInfo` of the analyze-jd route: the job title, the skills named in the job
  description (case-sensitive vocabulary lookup) and up to five requirement phrases.
  The regular expressions themselves are not modelled: their captures are inputs.
 */
module JdExtraction {
  import opened Wrappers
  import opened Seqs
  import opened Strings

  /** The skill vocabulary searched in a job description, in declaration order. */
  const JdVocabulary: seq<string> := [
    "React", "Vue", "Angular", "TypeScript", "JavaScript", "Node.js",
    "Python", "Java", "Go", "PHP", "C++", "SQL", "MongoDB", "MySQL",
    "Docker", "Kubernetes", "AWS", "Git", "Linux", "HTML", "CSS",
    "Next.js", "Express", "Spring", "Django", "Flask"]

  const UnknownTitle := "未知岗位"
  const UnspecifiedSkills := "未明确指定"
  const SeeFullJd := "请参考完整JD内容"

  /** Requirement captures are kept when present (non-empty) and shorter than this. */
  const MaxCaptureLength := 50
  /** At most this many requirement phrases are reported. */
  const MaxRequirements := 5

  /** `jdText.includes(w)`: the case-sensitive test used for skills and experience keywords. */
  function InJd(jdText: string): string -> bool
  {
    w => Contains(jdText, w)
  }

  /**
    Capture group 1 of every match of the three requirement patterns, each list in match order:
    a labelled requirement ("要求：…"), "熟悉/掌握/精通 …" and "具备/拥有 …".
   */
  datatype RequirementMatches = RequirementMatches(labelled: seq<string>, familiar: seq<string>, possessed: seq<string>)

  /**
    What the regular expressions find in a job description: the capture of the "岗位/职位/招聘"
    pattern, the capture of the "…工程师/开发/经理/专员" pattern, and the requirement captures.
   */
  datatype JdMatches = JdMatches(position: Option<string>, roleSuffix: Option<string>, requirements: RequirementMatches)

  datatype JdInfo = JdInfo(title: string, skills: seq<string>, keyRequirements: seq<string>)

  /** The first title pattern that matched wins; its capture is trimmed (and may trim to ""). */
  function JdTitle(m: JdMatches): string
  {
    var capture := if m.position.Some? then m.position else m.roleSuffix;
    match capture
    case Some(c) => Trim(c)
    case None => UnknownTitle
  }

  function JdSkillsFound(jdText: string): seq<string>
  {
    Filter(JdVocabulary, InJd(jdText))
  }

  function JdSkills(jdText: string): seq<string>
  {
    WithFallback(JdSkillsFound(jdText), UnspecifiedSkills)
  }

  /** `match[1] && match[1].length < 50`. */
  predicate KeptCapture(c: string)
  {
    |c| > 0 && |c| < MaxCaptureLength
  }

  /** All requirement captures: pattern order first, then match order. */
  function Captures(m: RequirementMatches): seq<string>
  {
    m.labelled + m.familiar + m.possessed
  }

  function TrimAll(cs: seq<string>): (r: seq<string>)
    ensures |r| == |cs|
  {
    if |cs| == 0 then [] else TrimAll(cs[..|cs| - 1]) + [Trim(cs[|cs| - 1])]
  }

  /** The `requirements` array: every kept capture, trimmed, in order. */
  function Requirements(m: RequirementMatches): seq<string>
  {
    TrimAll(Filter(Captures(m), KeptCapture))
  }

  function KeyRequirements(m: RequirementMatches): seq<string>
  {
    WithFallback(Take(Requirements(m), MaxRequirements), SeeFullJd)
  }

  function JdInfoOf(jdText: string, m: JdMatches): JdInfo
  {
    JdInfo(JdTitle(m), JdSkills(jdText), KeyRequirements(m.requirements))
  }

  /** `extractJDInfo`: the title, the vocabulary scan and the requirement collection. */
  method ExtractJdInfo(jdText: string, m: JdMatches) returns (info: JdInfo)
    ensures info == JdInfoOf(jdText, m)
  {
    var title := match (if m.position.Some? then m.position else m.roleSuffix)
      case Some(c) => Trim(c)
      case None => UnknownTitle;
    var foundSkills := CollectJdSkills(jdText);
    var requirements := CollectRequirements(m.requirements);
    var kept := Take(requirements, MaxRequirements);
    info := JdInfo(
      title,
      if |foundSkills| > 0 then foundSkills else [UnspecifiedSkills],
      if |kept| > 0 then kept else [SeeFullJd]);
  }

  /** The `skillKeywords.forEach` loop: push every vocabulary word the text contains. */
  method CollectJdSkills(jdText: string) returns (foundSkills: seq<string>)
    ensures foundSkills == JdSkillsFound(jdText)
  {
    foundSkills := [];
    for i := 0 to |JdVocabulary|
      invariant foundSkills == Filter(JdVocabulary[..i], InJd(jdText))
    {
      var skill := JdVocabulary[i];
      FilterSnoc(JdVocabulary, InJd(jdText), i);
      if Contains(jdText, skill) {
        foundSkills := foundSkills + [skill];
      }
    }
    assert JdVocabulary[..|JdVocabulary|] == JdVocabulary;
  }

  /** The `requirementPatterns.forEach` loop: for each pattern in turn, push its kept captures. */
  method CollectRequirements(m: RequirementMatches) returns (requirements: seq<string>)
    ensures requirements == Requirements(m)
  {
    requirements := [];
    var patterns := [m.labelled, m.familiar, m.possessed];
    for p := 0 to |patterns|
      invariant requirements == TrimAll(Filter(Flatten(patterns[..p]), KeptCapture))
    {
      requirements := PushKeptCaptures(requirements, patterns[p]);
      FlattenSnoc(patterns, p);
      FilterAppend(Flatten(patterns[..p]), patterns[p], KeptCapture);
      TrimAllAppend(Filter(Flatten(patterns[..p]), KeptCapture), Filter(patterns[p], KeptCapture));
    }
    FlattenThree(patterns);
  }

  /** The inner `matches.forEach` loop: push each capture that is present and shorter than 50, trimmed. */
  method PushKeptCaptures(requirements: seq<string>, matches: seq<string>) returns (r: seq<string>)
    ensures r == requirements + TrimAll(Filter(matches, KeptCapture))
  {
    r := requirements;
    for j := 0 to |matches|
      invariant r == requirements + TrimAll(Filter(matches[..j], KeptCapture))
    {
      var capture := matches[j];
      KeptTrimmedStep(matches, j);
      ghost var done := TrimAll(Filter(matches[..j], KeptCapture));
      if KeptCapture(capture) {
        r := r + [Trim(capture)];
        assert r == requirements + (done + [Trim(capture)]);
      }
    }
    assert matches[..|matches|] == matches;
  }

  lemma {:induction false} TrimAllAppend(a: seq<string>, b: seq<string>)
    ensures TrimAll(a + b) == TrimAll(a) + TrimAll(b)
    decreases |b|
  {
    if |b| == 0 {
      assert a + b == a;
    } else {
      var ab := a + b;
      assert ab[..|ab| - 1] == a + b[..|b| - 1];
      TrimAllAppend(a, b[..|b| - 1]);
    }
  }

  /** One more capture considered by the inner loop. */
  lemma KeptTrimmedStep(matches: seq<string>, j: nat)
    requires j < |matches|
    ensures TrimAll(Filter(matches[..j + 1], KeptCapture))
      == TrimAll(Filter(matches[..j], KeptCapture)) + (if KeptCapture(matches[j]) then [Trim(matches[j])] else [])
  {
    FilterSnoc(matches, KeptCapture, j);
    var f := Filter(matches[..j], KeptCapture);
    if KeptCapture(matches[j]) {
      var g := f + [matches[j]];
      assert Filter(matches[..j + 1], KeptCapture) == g;
      assert g[..|g| - 1] == f && g[|g| - 1] == matches[j];
      assert TrimAll(g) == TrimAll(f) + [Trim(matches[j])];
    } else {
      assert Filter(matches[..j + 1], KeptCapture) == f;
    }
  }

  lemma FlattenSnoc(patterns: seq<seq<string>>, p: nat)
    requires p < |patterns|
    ensures Flatten(patterns[..p + 1]) == Flatten(patterns[..p]) + patterns[p]
  {
    assert patterns[..p + 1][..p] == patterns[..p];
  }

  lemma FlattenThree(patterns: seq<seq<string>>)
    requires |patterns| == 3
    ensures Flatten(patterns[..3]) == patterns[0] + patterns[1] + patterns[2]
  {
    var p1, p2, p3 := patterns[..1], patterns[..2], patterns[..3];
    assert p1[..0] == [] && p2[..1] == p1 && p3[..2] == p2;
    assert Flatten(p1) == patterns[0];
    assert Flatten(p2) == patterns[0] + patterns[1];
    assert Flatten(p3) == Flatten(p2) + patterns[2];
  }

  lemma PlaceholderNotInJdVocabulary()
    ensures UnspecifiedSkills !in JdVocabulary
  {
  }

  lemma {:induction false} JdVocabularyDistinct()
    ensures Distinct(JdVocabulary)
  {
  }

  /**
    The skills of a job description: a vocabulary word is listed iff the text contains it
    (case-sensitively); the list is never empty and is the placeholder exactly when no
    vocabulary word occurs.
   */
  lemma JdSkillsSpec(jdText: string)
    ensures |JdSkills(jdText)| >= 1
    ensures forall w :: w in JdVocabulary ==> (w in JdSkills(jdText) <==> Contains(jdText, w))
    ensures JdSkills(jdText) == [UnspecifiedSkills] <==> forall w :: w in JdVocabulary ==> !Contains(jdText, w)
  {
    PlaceholderNotInJdVocabulary();
    FilterWithFallback(JdVocabulary, InJd(jdText), UnspecifiedSkills);
  }

  /** The found skills keep vocabulary order, and the listed skills have no duplicates. */
  lemma JdSkillsOrder(jdText: string)
    ensures Subseq(JdSkillsFound(jdText), JdVocabulary)
    ensures Distinct(JdSkills(jdText))
  {
    FilterSubseq(JdVocabulary, InJd(jdText));
    JdVocabularyDistinct();
    FilterDistinct(JdVocabulary, InJd(jdText));
  }

  /** Each requirement is the trimmed text of a kept capture, and every kept capture contributes one. */
  lemma RequirementsSpec(m: RequirementMatches)
    ensures forall r :: r in Requirements(m) ==> exists c :: c in Captures(m) && KeptCapture(c) && r == Trim(c)
    ensures forall c :: c in Captures(m) && KeptCapture(c) ==> Trim(c) in Requirements(m)
    ensures forall r :: r in Requirements(m) ==> |r| < MaxCaptureLength
  {
    var kept := Filter(Captures(m), KeptCapture);
    forall r | r in Requirements(m)
      ensures exists c :: c in Captures(m) && KeptCapture(c) && r == Trim(c)
    {
      var i := TrimAllIndex(kept, r);
      FilterMember(Captures(m), KeptCapture, kept[i]);
    }
    forall c | c in Captures(m) && KeptCapture(c)
      ensures Trim(c) in Requirements(m)
    {
      FilterMember(Captures(m), KeptCapture, c);
      TrimAllMember(kept, c);
    }
  }

  lemma {:induction false} TrimAllIndex(cs: seq<string>, r: string) returns (i: nat)
    requires r in TrimAll(cs)
    ensures i < |cs| && r == Trim(cs[i])
    decreases |cs|
  {
    var init := cs[..|cs| - 1];
    if r in TrimAll(init) {
      i := TrimAllIndex(init, r);
    } else {
      i := |cs| - 1;
    }
  }

  lemma {:induction false} TrimAllMember(cs: seq<string>, c: string)
    requires c in cs
    ensures Trim(c) in TrimAll(cs)
    decreases |cs|
  {
    var init := cs[..|cs| - 1];
    if c != cs[|cs| - 1] {
      assert cs == init + [cs[|cs| - 1]];
      TrimAllMember(init, c);
    }
  }

  /**
    The key requirements: one to five entries; the placeholder alone when no capture is kept;
    otherwise the first (at most five) trimmed kept captures, each shorter than 50 characters.
   */
  lemma KeyRequirementsSpec(m: RequirementMatches)
    ensures 1 <= |KeyRequirements(m)| <= MaxRequirements
    ensures (forall c :: c in Captures(m) ==> !KeptCapture(c)) ==> KeyRequirements(m) == [SeeFullJd]
    ensures (exists c :: c in Captures(m) && KeptCapture(c)) ==>
      forall r :: r in KeyRequirements(m) ==> exists c :: c in Captures(m) && KeptCapture(c) && r == Trim(c) && |r| < MaxCaptureLength
  {
    RequirementsSpec(m);
    var reqs := Requirements(m);
    assert reqs != [] ==> reqs[0] in reqs;
    if exists c :: c in Captures(m) && KeptCapture(c) {
      var c :| c in Captures(m) && KeptCapture(c);
      assert Trim(c) in reqs;
      forall r | r in KeyRequirements(m)
        ensures r in reqs
      {
      }
    }
  }
}
