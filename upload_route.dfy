/**
  `POST` of the upload-resume route: a chain of early-return checks (file present, accepted
  format, size) followed by a dispatch on the format. The PDF and DOCX parsers are foreign
  code; what each would return for the uploaded bytes is a parameter.
 */
module UploadRoute {
  import opened Wrappers
  import opened Strings

  const PdfMime := "application/pdf"
  const DocxMime := "application/vnd.openxmlformats-officedocument.wordprocessingml.document"
  const DocMime := "application/msword"
  const ValidTypes: seq<string> := [PdfMime, DocxMime, DocMime]
  const ValidExtensions: seq<string> := [".pdf", ".docx", ".doc"]
  /** 10 MiB; a file of exactly this size is accepted. */
  const MaxFileSize := 10 * 1024 * 1024
  /** Extracted text must have at least this many characters once trimmed. */
  const MinTextLength := 10

  const NoFile := "未找到文件"
  const UnsupportedFormat := "不支持的文件格式，请上传PDF或DOCX文件"
  const TooLarge := "文件大小不能超过10MB"
  const PdfFailed := "PDF文件解析失败，请确保文件未损坏"
  const DocxFailed := "DOCX文件解析失败，请确保文件未损坏"
  const DocUnsupported := "不支持.doc格式，请将文件转换为.docx或.pdf格式"
  const NoText := "无法从文件中提取文本内容，请确保文件包含可读文本"

  datatype UploadedFile = UploadedFile(name: string, mimeType: string, size: nat)

  /** What a parser returns: the extracted text, or a thrown error. */
  datatype ParseOutcome = Parsed(text: string) | ParseFailed

  datatype Format = Pdf | Docx | Doc

  /** The trimmed text with the file's name and size (status 200), or a 400 with its message. */
  datatype UploadResponse = Accepted(text: string, fileName: string, fileSize: nat) | Rejected(error: string)
  {
    function Status(): int
    {
      if Rejected? then 400 else 200
    }
  }

  /** `s.lastIndexOf(c)`: the index of the last `c` in `s`, or -1 when there is none. */
  function LastIndexOf(s: string, c: char): (r: int)
    ensures -1 <= r < |s|
    ensures r >= 0 ==> s[r] == c
    ensures forall j :: r < j < |s| ==> s[j] != c
    decreases |s|
  {
    if |s| == 0 then -1
    else if s[|s| - 1] == c then |s| - 1
    else LastIndexOf(s[..|s| - 1], c)
  }

  /** `s.substring(start)`: a negative start counts as 0 and one past the end gives "". */
  function SubstringFrom(s: string, start: int): string
  {
    if start <= 0 then s else if start >= |s| then "" else s[start..]
  }

  /** `file.name.toLowerCase().substring(file.name.lastIndexOf('.'))`. */
  function Extension(name: string): string
  {
    SubstringFrom(Lower(name), LastIndexOf(name, '.'))
  }

  predicate FormatAccepted(f: UploadedFile)
  {
    f.mimeType in ValidTypes || Extension(f.name) in ValidExtensions
  }

  /** The parsing branch taken: PDF first, then DOCX, then DOC, each by extension or MIME type. */
  function Dispatch(f: UploadedFile): Option<Format>
  {
    var ext := Extension(f.name);
    if ext == ".pdf" || f.mimeType == PdfMime then Some(Pdf)
    else if ext == ".docx" || f.mimeType == DocxMime then Some(Docx)
    else if ext == ".doc" || f.mimeType == DocMime then Some(Doc)
    else None
  }

  /** `!text || text.trim().length < 10` rejects; otherwise the trimmed text is returned. */
  function CheckText(text: string, f: UploadedFile): UploadResponse
  {
    if text == "" || |Trim(text)| < MinTextLength then Rejected(NoText)
    else Accepted(Trim(text), f.name, f.size)
  }

  /**
    `POST`: the early returns in source order, then the branch for the format; a branch that
    assigns no text (none is left once the format check has passed) falls to the text check.
   */
  function HandleUpload(file: Option<UploadedFile>, pdf: ParseOutcome, docx: ParseOutcome): (r: UploadResponse)
    ensures r.Rejected? ==>
      r.error in [NoFile, UnsupportedFormat, TooLarge, PdfFailed, DocxFailed, DocUnsupported, NoText]
    ensures r.Accepted? ==>
      file.Some? && FormatAccepted(file.value) && file.value.size <= MaxFileSize
      && r.fileName == file.value.name && r.fileSize == file.value.size && |r.text| >= MinTextLength
  {
    match file
    case None => Rejected(NoFile)
    case Some(f) =>
      if !FormatAccepted(f) then Rejected(UnsupportedFormat)
      else if f.size > MaxFileSize then Rejected(TooLarge)
      else
        match Dispatch(f)
        case Some(Pdf) => (match pdf case Parsed(t) => CheckText(t, f) case ParseFailed => Rejected(PdfFailed))
        case Some(Docx) => (match docx case Parsed(t) => CheckText(t, f) case ParseFailed => Rejected(DocxFailed))
        case Some(Doc) => Rejected(DocUnsupported)
        case None => CheckText("", f)
  }

  lemma LowerKeepsDots(s: string)
    ensures forall k :: 0 <= k < |s| ==> (Lower(s)[k] == '.' <==> s[k] == '.')
  {
  }

  /**
    The extension: with a '.' in the name, the lower-cased name from its last '.', which then
    holds no other '.'; without one, `lastIndexOf` gives -1 and the whole lower-cased name.
   */
  lemma ExtensionSpec(name: string)
    ensures '.' !in name ==> Extension(name) == Lower(name)
    ensures '.' in name ==>
      var i := LastIndexOf(name, '.');
      0 <= i && Extension(name) == Lower(name[i..]) && Extension(name)[0] == '.'
      && '.' !in Extension(name)[1..]
  {
    var i := LastIndexOf(name, '.');
    LowerKeepsDots(name);
    if '.' in name {
      var k :| 0 <= k < |name| && name[k] == '.';
      assert 0 <= i;
      assert Lower(name)[i..] == Lower(name[i..]);
      var ext := Extension(name);
      forall j | 0 <= j < |ext| - 1
        ensures ext[1..][j] != '.'
      {
        assert ext[1..][j] == Lower(name)[i + 1 + j];
      }
    } else {
      assert i < 0;
    }
  }

  /** A name without a '.' is accepted by its MIME type only. */
  lemma NoDotNeedsMime(f: UploadedFile)
    requires '.' !in f.name
    ensures FormatAccepted(f) <==> f.mimeType in ValidTypes
  {
    ExtensionSpec(f.name);
    LowerKeepsDots(f.name);
    var ext := Extension(f.name);
    assert '.' !in ext;
    assert ".pdf"[0] == '.' && ".docx"[0] == '.' && ".doc"[0] == '.';
  }

  /** A file passes the format check iff one of the three parsing branches takes it. */
  lemma AcceptedIffDispatched(f: UploadedFile)
    ensures FormatAccepted(f) <==> Dispatch(f).Some?
  {
  }

  /**
    The dispatch precedence: DOC is chosen only when neither the PDF nor the DOCX test holds,
    so a '.doc' name sent with the PDF MIME type is parsed as a PDF.
   */
  lemma DispatchPrecedence(f: UploadedFile)
    ensures Dispatch(f) == Some(Doc) <==>
      (Extension(f.name) == ".doc" || f.mimeType == DocMime)
      && Extension(f.name) != ".pdf" && f.mimeType != PdfMime
      && Extension(f.name) != ".docx" && f.mimeType != DocxMime
    ensures Dispatch(f) == Some(Pdf) <==> Extension(f.name) == ".pdf" || f.mimeType == PdfMime
  {
  }

  /**
    The checks run in order and the first failing one decides: no file, then the format,
    then the size (a file of exactly 10 MiB passes).
   */
  lemma ValidationOrder(file: Option<UploadedFile>, pdf: ParseOutcome, docx: ParseOutcome)
    ensures file.None? ==> HandleUpload(file, pdf, docx) == Rejected(NoFile)
    ensures file.Some? && !FormatAccepted(file.value) ==> HandleUpload(file, pdf, docx) == Rejected(UnsupportedFormat)
    ensures file.Some? && FormatAccepted(file.value) ==>
      (HandleUpload(file, pdf, docx) == Rejected(TooLarge) <==> file.value.size > MaxFileSize)
  {
    if file.Some? && FormatAccepted(file.value) && file.value.size <= MaxFileSize {
      var r := HandleUpload(file, pdf, docx);
      assert r != Rejected(TooLarge) by {
        assert TooLarge != NoText && TooLarge != PdfFailed && TooLarge != DocxFailed && TooLarge != DocUnsupported;
      }
    }
  }

  /** A DOC file that gets past the size check is always refused with the conversion message. */
  lemma DocIsRefused(f: UploadedFile, pdf: ParseOutcome, docx: ParseOutcome)
    requires Dispatch(f) == Some(Doc) && f.size <= MaxFileSize
    ensures HandleUpload(Some(f), pdf, docx) == Rejected(DocUnsupported)
  {
    AcceptedIffDispatched(f);
  }

  /** A '.doc' file sent as application/pdf is not refused as DOC: it is parsed as a PDF. */
  lemma DocNameWithPdfTypeIsParsed()
    ensures HandleUpload(Some(UploadedFile("resume.doc", PdfMime, 1000)), Parsed("精通React和Node.js开发"), ParseFailed)
      == Accepted("精通React和Node.js开发", "resume.doc", 1000)
  {
    var f := UploadedFile("resume.doc", PdfMime, 1000);
    assert f.mimeType in ValidTypes;
    assert Dispatch(f) == Some(Pdf);
    var t := "精通React和Node.js开发";
    assert !IsWhitespace(t[0]) && !IsWhitespace(t[|t| - 1]);
    assert TrimStart(t) == t;
    assert TrimEnd(t) == t;
  }

  /**
    Success: the response is accepted exactly when a file is present, passes the format and
    size checks, goes to the PDF or DOCX branch, and that branch's parser returns a text of at
    least ten characters once trimmed; the response carries that trimmed text and the file's
    own name and size.
   */
  lemma AcceptedSpec(file: Option<UploadedFile>, pdf: ParseOutcome, docx: ParseOutcome)
    ensures HandleUpload(file, pdf, docx).Accepted? <==>
      file.Some? && FormatAccepted(file.value) && file.value.size <= MaxFileSize
      && var outcome := if Dispatch(file.value) == Some(Pdf) then pdf else docx;
      (Dispatch(file.value) == Some(Pdf) || Dispatch(file.value) == Some(Docx))
      && outcome.Parsed? && |Trim(outcome.text)| >= MinTextLength
    ensures HandleUpload(file, pdf, docx).Accepted? ==>
      var r := HandleUpload(file, pdf, docx);
      var outcome := if Dispatch(file.value) == Some(Pdf) then pdf else docx;
      r.text == Trim(outcome.text) && r.fileName == file.value.name && r.fileSize == file.value.size
      && |r.text| >= MinTextLength
  {
    if file.Some? {
      var f := file.value;
      if FormatAccepted(f) && f.size <= MaxFileSize {
        AcceptedIffDispatched(f);
      }
    }
  }

  /**
    A parser's failure is reported for its own branch, and the branch not taken never
    influences the response.
   */
  lemma ParserOutcomes(f: UploadedFile, pdf: ParseOutcome, docx: ParseOutcome, other: ParseOutcome)
    requires FormatAccepted(f) && f.size <= MaxFileSize
    ensures Dispatch(f) == Some(Pdf) ==>
      HandleUpload(Some(f), pdf, docx) == HandleUpload(Some(f), pdf, other)
      && (pdf.ParseFailed? ==> HandleUpload(Some(f), pdf, docx) == Rejected(PdfFailed))
    ensures Dispatch(f) == Some(Docx) ==>
      HandleUpload(Some(f), pdf, docx) == HandleUpload(Some(f), other, docx)
      && (docx.ParseFailed? ==> HandleUpload(Some(f), pdf, docx) == Rejected(DocxFailed))
  {
  }
}
