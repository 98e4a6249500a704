# JD match analysis — a Dafny model

This project models the server side of a résumé/job-description (JD) matching web app: two HTTP routes written in TypeScript.

- **`POST /api/analyze-jd`** takes a JD text and a résumé text.
  - It rejects either one when it is too short.
  - It extracts a JD summary (title, technology skills, key requirements) and résumé data (skills, up to three work entries, education).
  - It scores the match between 30 and 95.
  - It lists strengths and weaknesses, and returns recommendations and résumé suggestions.
- **`POST /api/upload-resume`** takes an uploaded file.
  - It checks the file's presence, its format (by MIME type or extension) and its size (at most 10 MiB).
  - It dispatches to a PDF or DOCX text extractor and refuses legacy `.doc` files.
  - It returns the trimmed text when at least ten characters remain.

The model follows the source's form. Each loop of the source (`forEach` with `push`) becomes a `method` with a `for` loop and its invariants. Each method is proved equal to a pure specification function, and the promised properties are proved as lemmas about those functions. The pieces that only decide (validation chains, message choice) are functions.

Modules:

- `Wrappers`: `Option`.
- `Seqs`: `Take` (`slice(0, n)`), a generic `Filter` with its membership, order, distinctness and complement lemmas, and `Flatten`.
- `Strings`: models the JavaScript string built-ins the routes use.
  - `includes` becomes `Contains`, proved equivalent to "occurs at some index".
  - `toLowerCase` becomes `Lower`.
  - `trim` becomes `Trim`. It uses the ECMAScript whitespace and line-terminator set, and `TrimSpec` proves what it removes.
  - `substring(0, n)` becomes `Prefix`, and `join` becomes `Join`.
  - Decimal rendering of an index becomes `DecimalString`.
- `JdExtraction`: `extractJDInfo`.
- `ResumeExtraction`: `extractResumeInfo`.
- `Scoring`: `calculateMatchScore`.
  - The score uses exact rationals and `Round(x) = floor(x + 1/2)`, which is `Math.round`.
  - Messages are a datatype whose `Text()` is the exact Chinese string.
- `Advice`: `generateRecommendations` and `generateResumeSuggestions`.
- `AnalyzeRoute`: the `POST` handler of analyze-jd.
- `UploadRoute`: the `POST` handler of upload-resume.

Regular-expression matching is not modelled as a regex engine. The captures each `match`/`matchAll` call would return are inputs to the model, in the records `JdMatches` and `ResumeMatches`. The one exception is the replacement `/[:：].*$/` that derives a company name: it is modelled exactly by `ColonTailStart`.

## Model

| member | source | states |
|---|---|---|
| Strings.ContainsIffOccurs | app/api/analyze-jd/route.ts:115 | `includes(word)` holds iff `word` occurs at some index of the text |
| Strings.ContainsLower | app/api/analyze-jd/route.ts:32 | a word contained in a text is contained, lower-cased, in the lower-cased text |
| Strings.TrimSpec | app/api/analyze-jd/route.ts:132 | `trim()` returns a contiguous slice with no whitespace at either end, and everything it dropped is whitespace |
| Strings.Prefix | app/api/analyze-jd/route.ts:56 | `substring(0, n)` returns the first min(n, length) chars of the string: a prefix of exactly that length, the whole string when it is no longer than n |
| Strings.JoinNamesEveryPart | app/api/analyze-jd/route.ts:177 | every part joined with `、` appears in the joined text |
| JdExtraction.ExtractJdInfo | app/api/analyze-jd/route.ts:102-142 | returns exactly the JD summary specified by `JdInfoOf`: the trimmed title capture or `未知岗位`, the skills, and the key requirements |
| JdExtraction.CollectJdSkills | app/api/analyze-jd/route.ts:113-118 | the loop collects exactly the vocabulary words the JD contains (case-sensitive), in vocabulary order |
| JdExtraction.CollectRequirements | app/api/analyze-jd/route.ts:121-135 | the nested loops collect the trimmed captures of the three patterns, in pattern order then match order, keeping only non-empty captures shorter than 50 |
| JdExtraction.PushKeptCaptures | app/api/analyze-jd/route.ts:130-134 | appends to the list, in order, the trimmed form of each capture of one pattern that is non-empty and shorter than 50 |
| Seqs.FilterWithFallback | app/api/analyze-jd/route.ts:139 | a filtered vocabulary with a placeholder outside it: a word is listed iff it passes, and the placeholder alone iff no word passes |
| JdExtraction.JdSkillsSpec | app/api/analyze-jd/route.ts:108-118 | at least one skill; a vocabulary word is listed iff the JD contains it; the list is `[未明确指定]` iff no vocabulary word occurs |
| JdExtraction.JdSkillsOrder | app/api/analyze-jd/route.ts:113-118 | the found skills keep vocabulary order and the listed skills have no duplicates |
| JdExtraction.RequirementsSpec | app/api/analyze-jd/route.ts:128-135 | every requirement is the trimmed form of a kept capture, every kept capture's trimmed form is a requirement, and each is shorter than 50 |
| JdExtraction.KeyRequirementsSpec | app/api/analyze-jd/route.ts:140 | 1 to 5 key requirements; `[请参考完整JD内容]` when no capture is kept; otherwise each is a trimmed kept capture shorter than 50 |
| JdExtraction.TrimAllAppend | app/api/analyze-jd/route.ts:128-135 | trimming the captures of consecutive patterns distributes over concatenation |
| ResumeExtraction.ExtractResumeInfo | app/api/analyze-jd/route.ts:20-85 | returns exactly the résumé data specified by `ResumeDataOf`: the skills with fallback, the work entries and the education |
| ResumeExtraction.CollectResumeSkills | app/api/analyze-jd/route.ts:30-35 | the loop collects exactly the vocabulary words found case-sensitively in the raw text or lower-cased in the lower-cased text, in vocabulary order |
| ResumeExtraction.CollectExperiences | app/api/analyze-jd/route.ts:46-59 | one entry per matched line among the first three, built by `LineExperience`; none when no line matched |
| ResumeExtraction.LineExperiences | app/api/analyze-jd/route.ts:47-58 | one work entry per matched line |
| ResumeExtraction.ColonTailStart | app/api/analyze-jd/route.ts:53 | returns the first index at which `/[:：].*$/` matches (a colon followed by no line terminator up to the end); no earlier index qualifies, and the result is the string's length iff no index does |
| ResumeExtraction.FoundInIsCaseInsensitive | app/api/analyze-jd/route.ts:32 | the résumé skill test holds iff the lower-cased text contains the lower-cased word |
| ResumeExtraction.ResumeSkillsSpec | app/api/analyze-jd/route.ts:24-35 | at least one skill; a vocabulary word is listed iff the lower-cased résumé contains it lower-cased; `[从简历中提取]` iff none occurs |
| ResumeExtraction.ResumeSkillsOrder | app/api/analyze-jd/route.ts:30-35 | the found skills keep vocabulary order and the listed skills have no duplicates |
| ResumeExtraction.EntrySkillsAreFoundSkills | app/api/analyze-jd/route.ts:48-50 | the per-entry skill filter keeps every found skill, whatever the line |
| ResumeExtraction.ExperiencesSpec | app/api/analyze-jd/route.ts:45-70 | 1 to 3 entries, as many as matched lines up to 3; each has a non-empty company, duration `未指定` and the first four found skills; entry i is titled `工作经历i+1` and its description is exactly the first min(100, length) chars of its line (`substring(0, 100)`); with no line, the single default entry holds the first 150 chars of the résumé |
| ResumeExtraction.CompanyIsTextBeforeColon | app/api/analyze-jd/route.ts:53 | on a line with a colon and no later line break, the company is the trimmed text before the first colon, or `未知公司` when that is blank |
| ResumeExtraction.CompanyKeepsLineWithCarriageReturn | app/api/analyze-jd/route.ts:53 | when every colon is followed by a line terminator (such as the `\r` of a CRLF line), nothing is stripped and the company is the trimmed whole line |
| ResumeExtraction.ColonTailStartFinds | app/api/analyze-jd/route.ts:53 | when index k qualifies and no index before it does (earlier colons followed by a line terminator are allowed), the replacement strips from k |
| ResumeExtraction.CompanyIsTextBeforeFirstTailColon | app/api/analyze-jd/route.ts:53 | the company is the trimmed text before the first colon at which the pattern matches, or `未知公司` when that is blank, even with earlier colons followed by a line terminator |
| ResumeExtraction.EducationSpec | app/api/analyze-jd/route.ts:73-78 | the degree is the trimmed capture or `未指定`; the university the trimmed capture when non-empty, else `未指定`; the year the capture when non-empty, else `未指定`; so university and year are never empty |
| Scoring.CalculateMatchScore | app/api/analyze-jd/route.ts:145-209 | returns exactly the score, strengths and weaknesses specified by `Assessment` |
| Scoring.Score | app/api/analyze-jd/route.ts:170 | the score is always within [30, 95] |
| Scoring.MatchedMissingPartition | app/api/analyze-jd/route.ts:158-183 | matched and missing skills partition the JD skills: a skill is matched iff some résumé skill is related to it in either direction, and missing iff not |
| Scoring.BaseScoreFormula | app/api/analyze-jd/route.ts:162-169 | the unrounded score is 60·matched/total + 40·keywords/6 |
| Scoring.ScoreFormula | app/api/analyze-jd/route.ts:162-170 | with n > 0 job skills, the score is `min(95, max(30, round(60·m/n + 40·k/6)))` |
| Scoring.AssessmentScore | app/api/analyze-jd/route.ts:154-170 | with at least one job skill, the assessed score is that formula over the matched-skill count, the job-skill count and the keyword count |
| Scoring.ScoreMonotone | app/api/analyze-jd/route.ts:162-170 | more matched skills or more experience keywords never lower the score |
| Scoring.ScoreExtremes | app/api/analyze-jd/route.ts:170 | all skills and all six keywords give 95; none of either gives 30; all skills and no keyword give 60 |
| Scoring.ScoreExample | app/api/analyze-jd/route.ts:162-170 | 2 of 2 skills and 1 keyword give 67 |
| Scoring.SkillMessagesNameEverySkill | app/api/analyze-jd/route.ts:176-186 | the matched-skills strength and the missing-skills weakness name every skill they list |
| Scoring.StrengthsMember | app/api/analyze-jd/route.ts:176-206 | an element is a strength iff it is one of the five and its condition holds |
| Scoring.StrengthsSpec | app/api/analyze-jd/route.ts:176-206 | each strength appears iff its condition holds: matched skills non-empty, ratio ≥ 0.7, two or more entries, exactly one entry (so neither experience strength with no entry), rich content |
| Scoring.WeaknessesSpec | app/api/analyze-jd/route.ts:180-201 | each weakness appears iff its condition holds: missing skills non-empty, ratio < 0.4, no entries |
| Scoring.AssessmentSpec | app/api/analyze-jd/route.ts:188-201 | never both the high-match strength and the low-match weakness; no little-experience weakness once there is an entry |
| Scoring.AllSkillsHeld | app/api/analyze-jd/route.ts:158-186 | when every JD skill is a résumé skill, the strengths name all JD skills and there is no missing-skills weakness |
| Scoring.NoSkillsHeld | app/api/analyze-jd/route.ts:158-186 | when no JD skill is held, the weaknesses name all JD skills as missing and there is no matched-skills strength |
| Advice.GenerateRecommendations | app/api/analyze-jd/route.ts:212-253 | returns exactly the recommendations specified by `Recommendations` |
| Advice.GenerateResumeSuggestions | app/api/analyze-jd/route.ts:256-294 | returns exactly the suggestions specified by `Suggestions` |
| Advice.RecommendationsMember | app/api/analyze-jd/route.ts:218-252 | an element is a recommendation iff it is one of the five and its condition holds (the keyword and quantify entries unconditionally) |
| Advice.RecommendationsSpec | app/api/analyze-jd/route.ts:218-252 | 2 to 5 recommendations; the keyword and quantify advice always; refocus iff score < 70; teamwork iff the JD mentions `团队` or `协作`; the missing-skills advice iff some skill is missing, naming exactly the missing skills |
| Advice.SuggestionsSpec | app/api/analyze-jd/route.ts:261-293 | 3 to 5 suggestions ending with the layout advice; the project and keyword advice always; training iff score < 60; the highlight advice iff some skill matched, naming exactly those |
| Advice.SuggestionsMember | app/api/analyze-jd/route.ts:261-293 | an element is a suggestion iff it is one of the five and its condition holds (the project, keyword and layout entries unconditionally) |
| Advice.TrainingImpliesRefocus | app/api/analyze-jd/route.ts:232-287 | whenever training is suggested, refocusing is recommended too |
| Advice.AdviceAgreesWithAssessment | app/api/analyze-jd/route.ts:176-273 | the missing-skills recommendation appears iff the missing-skills weakness does, and the highlight suggestion iff the matched-skills strength does |
| AnalyzeRoute.Analyze | app/api/analyze-jd/route.ts:296-340 | a JD that is absent, not a string, empty or shorter than 50 chars once trimmed is rejected first; then a résumé shorter than 30; a report is returned iff both pass, and it is `ReportOf` |
| AnalyzeRoute.ReportScoreSpec | app/api/analyze-jd/route.ts:158-170 | through the route the JD always has at least one skill, and the score is `min(95, max(30, round(60·m/n + 40·k/6)))` |
| AnalyzeRoute.ReportSummarySpec | app/api/analyze-jd/route.ts:327-338 | the report carries the given id and the extracted JD summary, with at least one skill and 1 to 5 key requirements |
| AnalyzeRoute.ReportExperienceSpec | app/api/analyze-jd/route.ts:195-201 | through the route the little-experience weakness never appears; the extensive-experience strength appears iff two or more lines matched, otherwise the some-experience strength |
| AnalyzeRoute.ReportAdviceSpec | app/api/analyze-jd/route.ts:324-325 | the report has 2 to 5 recommendations and 3 to 5 suggestions |
| UploadRoute.HandleUpload | app/api/upload-resume/route.ts:16-112 | the handler: no file → `未找到文件`; neither MIME type nor extension accepted → the format message; over 10 MiB → the size message; then PDF, DOCX, DOC by precedence, a parser failure giving its branch's message and DOC the conversion message; a text under 10 chars once trimmed → the no-text message; otherwise the trimmed text with the file's name and size. Its contract: every rejection carries one of these seven messages, and an acceptance implies a present, accepted file of at most 10 MiB, its own name and size, and a text of at least 10 chars |
| UploadRoute.LastIndexOf | app/api/upload-resume/route.ts:36 | `lastIndexOf` returns -1 or an index holding the character, with no occurrence after it |
| UploadRoute.ExtensionSpec | app/api/upload-resume/route.ts:36 | with a `.` in the name, the extension is the lower-cased name from its last `.`, containing no other `.`; without one, it is the whole lower-cased name |
| UploadRoute.NoDotNeedsMime | app/api/upload-resume/route.ts:36-44 | a name without `.` passes the format check iff its MIME type is one of the three accepted types |
| UploadRoute.AcceptedIffDispatched | app/api/upload-resume/route.ts:39-90 | a file passes the format check iff the PDF, DOCX or DOC branch takes it |
| UploadRoute.DispatchPrecedence | app/api/upload-resume/route.ts:61-90 | the DOC branch is taken iff the DOC test holds and neither the PDF nor the DOCX test does; the PDF branch iff its own test holds |
| UploadRoute.ValidationOrder | app/api/upload-resume/route.ts:23-52 | a missing file is refused first, then an unsupported format (whatever the size), then a size above 10 MiB, and exactly then |
| UploadRoute.DocIsRefused | app/api/upload-resume/route.ts:83-90 | a file taken by the DOC branch is refused with the conversion message whatever the parsers would return |
| UploadRoute.DocNameWithPdfTypeIsParsed | app/api/upload-resume/route.ts:61-71 | `resume.doc` sent as `application/pdf` is parsed as a PDF and accepted |
| UploadRoute.AcceptedSpec | app/api/upload-resume/route.ts:61-104 | a response is accepted iff the file passes all checks, goes to the PDF or DOCX branch, and that parser's text is at least 10 chars once trimmed; it then carries that trimmed text and the file's name and size |
| UploadRoute.ParserOutcomes | app/api/upload-resume/route.ts:61-82 | a parser failure gives its own branch's message, and the parser of the branch not taken never affects the response |

## Left out

- Regular expressions: the captures of the title, requirement, experience-line and education patterns (app/api/analyze-jd/route.ts:45, 73-77, 103-104, 123-125) are inputs to the model, not computed from the text. Only the replacement `/[:：].*$/` is modelled.
- `experiencePatterns` (app/api/analyze-jd/route.ts:39-42) is declared but never used by the source, so it is not modelled.
- The parsers (`pdf-parse`, `mammoth`), their dynamic loading, the reading of the request body and multipart form, and the file bytes are foreign code. What each parser returns is a parameter (`ParseOutcome`).
- The route-level `catch` that answers 500 (`分析失败，请稍后重试`, `文件处理失败，请稍后重试`) covers exceptions from that foreign code and is not modelled.
- `reportId` is built from `Date.now()` and `Math.random()`; it is a parameter of `AnalyzeRoute.Analyze`.
- JSON serialisation and HTTP status plumbing are reduced to a response datatype with a `Status()` of 200 or 400.
- Strings are sequences of Dafny `char`s, which are Unicode scalar values, while JavaScript strings are sequences of UTF-16 code units. Lengths (`< 50`, `>= 50`, `substring(0, 100)`) therefore agree with JavaScript's only for text in the Basic Multilingual Plane: a character outside it counts 1 here and 2 in JavaScript, and a lone surrogate cannot be represented.
- Strings.Lower: lower-cases ASCII `A`–`Z` only, not the full Unicode `toLowerCase` mapping. The vocabulary is ASCII, so skill detection is exact for ASCII text.
- Scoring.Round: computes on exact rationals; the floating-point error of `0.6`/`0.4` products at exact `.5` boundaries is not modelled.
- Scoring.SkillRatio: keeps the source's 0.5 ratio for an empty JD skill list, although the route can never reach it. The JD skill list always holds at least its placeholder, as `AnalyzeRoute.ReportScoreSpec` proves.
- A parser result is modelled as a string. Falsy results (`undefined`, `null`, `""`), which `!text` rejects, behave like the empty text. A truthy non-string result would throw at `text.trim()` and reach the 500 handler; that path is not modelled.
- The user interface pages are not part of this model.

Behaviours of the code that the model keeps as written:

- A `.doc` name is not always refused. The PDF and DOCX tests run first and also accept by MIME type, so `resume.doc` sent as `application/pdf` is parsed as a PDF (`UploadRoute.DocNameWithPdfTypeIsParsed`). Only a file that reaches the DOC test gets the conversion message; the upload page itself advertises only PDF and DOCX (app/jd-match/page.tsx:243).
- A PDF or DOCX parser failure is caught in its branch and answered with a 400 and a branch-specific message (app/api/upload-resume/route.ts:65-71, 76-82), not by the route's 500 handler.
- The score is `Math.round((ratio·0.6 + experience·0.4)·100)`: the multiplication by 100 happens before rounding (app/api/analyze-jd/route.ts:169-170).
- The JD vocabulary test is case-sensitive only (app/api/analyze-jd/route.ts:115). Only the résumé test also compares lower-cased text (app/api/analyze-jd/route.ts:32).
