/** The project-report upload route: it validates the uploaded file, builds a
    sanitised file name from the project title, the student id, a timestamp
    and the file's extension, writes the file and answers with its public URL. */
module UploadRoute {
  import opened Common

  const PdfMime := "application/pdf"
  const DocxMime := "application/vnd.openxmlformats-officedocument.wordprocessingml.document"
  const PublicPrefix := "/uploads/projects/"
  const MaxTitleLength := 50
  const DefaultTitle := "project"
  const DefaultStudentId := "unknown"

  const NoFileError := "No file was uploaded"
  const FileTypeError := "Only PDF and DOCX files are allowed"
  const UploadError := "An error occurred while uploading the file"
  const MethodNotAllowed := "Method not allowed"

  /** The `File` part of the form; only its MIME type is inspected. */
  datatype UploadedFile = UploadedFile(mimeType: string)

  /** The multipart form: each field may be absent. */
  datatype UploadForm = UploadForm(
    file: Option<UploadedFile>,
    projectTitle: Option<string>,
    studentId: Option<string>)

  /** File-system operations that the handler carries out, in order. */
  datatype Effect = MakeUploadDir | WriteFile(name: string)

  /** What one request produces: the JSON response (the public URL on
      success) and the file-system operations performed. */
  datatype Upload = Upload(response: Response<string>, effects: seq<Effect>)

  // ---------------------------------------------------------------------
  // The title sanitiser: lower-case, replace /[^a-z0-9]/g by '-', cut at 50.
  // ---------------------------------------------------------------------

  /** The characters that the regular expression `[a-z0-9]` matches. */
  predicate IsSafeChar(c: char) {
    'a' <= c <= 'z' || '0' <= c <= '9'
  }

  /** A character that may appear in a sanitised title. */
  predicate IsTitleChar(c: char) {
    IsSafeChar(c) || c == '-'
  }

  /** ASCII lower-casing of one character. */
  function LowerChar(c: char): char {
    if 'A' <= c <= 'Z' then (c as int + 32) as char else c
  }

  /** `s.toLowerCase()`, restricted to the ASCII letters. */
  function Lower(s: string): (r: string)
    ensures |r| == |s|
    ensures forall i :: 0 <= i < |s| ==> r[i] == LowerChar(s[i])
  {
    if s == [] then [] else [LowerChar(s[0])] + Lower(s[1..])
  }

  /** What the replacement makes of one character: itself when `[a-z0-9]`
      matches it, otherwise one dash per UTF-16 code unit. */
  function ReplaceChar(c: char): (r: string)
    ensures |r| == CodeUnits(c)
    ensures forall i :: 0 <= i < |r| ==> IsTitleChar(r[i])
    ensures !IsAstral(c) ==> r == [if IsSafeChar(c) then c else '-']
  {
    if IsSafeChar(c) then [c] else if IsAstral(c) then "--" else "-"
  }

  /** `s.replace(/[^a-z0-9]/g, '-')`. The regular expression has no `u` flag,
      so it scans UTF-16 code units: a character outside the Basic Multilingual
      Plane is two unmatched code units and becomes two dashes. */
  function ReplaceUnsafe(s: string): (r: string)
    ensures |r| == Utf16Length(s)
    ensures forall i :: 0 <= i < |r| ==> IsTitleChar(r[i])
  {
    if s == [] then []
    else
      assert s == [s[0]] + s[1..];
      Utf16LengthCons(s[0], s[1..]);
      var head, rest := ReplaceChar(s[0]), ReplaceUnsafe(s[1..]);
      assert forall i :: |head| <= i < |head| + |rest| ==> (head + rest)[i] == rest[i - |head|];
      head + rest
  }

  /** On a string inside the Basic Multilingual Plane the replacement works
      character by character. */
  lemma {:induction false} ReplaceUnsafeOnBmp(s: string)
    requires IsBmp(s)
    ensures |ReplaceUnsafe(s)| == |s|
    ensures forall i :: 0 <= i < |s| ==>
      ReplaceUnsafe(s)[i] == (if IsSafeChar(s[i]) then s[i] else '-')
  {
    if s != [] {
      assert IsBmp(s[1..]) by {
        forall i | 0 <= i < |s| - 1 ensures !IsAstral(s[1..][i]) {
          assert s[1..][i] == s[i + 1];
        }
      }
      ReplaceUnsafeOnBmp(s[1..]);
      var r, rest := ReplaceUnsafe(s), ReplaceUnsafe(s[1..]);
      assert !IsAstral(s[0]);
      assert r == ReplaceChar(s[0]) + rest;
      forall i | 1 <= i < |s| ensures r[i] == (if IsSafeChar(s[i]) then s[i] else '-') {
        assert r[i] == rest[i - 1] && s[1..][i - 1] == s[i];
      }
    }
  }

  /** `s.substring(0, n)` for a non-negative `n`. */
  function Prefix(s: string, n: nat): (r: string)
    ensures |r| == if |s| < n then |s| else n
    ensures r <= s
  {
    if |s| <= n then s else s[..n]
  }

  /** The sanitised title of a (possibly missing) project title. */
  function SafeTitle(projectTitle: Option<string>): (r: string)
    ensures 1 <= |r| <= MaxTitleLength
    ensures forall i :: 0 <= i < |r| ==> IsTitleChar(r[i])
  {
    Prefix(ReplaceUnsafe(Lower(OrElse(projectTitle, DefaultTitle))), MaxTitleLength)
  }

  /** The sanitised title is as long as the title in UTF-16 code units, cut at
      50; for a title inside the Basic Multilingual Plane the i-th output
      character depends on the i-th input character only. */
  lemma SafeTitleIsPerCharacter(title: string)
    requires title != ""
    ensures |SafeTitle(Some(title))| ==
      if Utf16Length(title) < MaxTitleLength then Utf16Length(title) else MaxTitleLength
    ensures IsBmp(title) ==> forall i :: 0 <= i < |SafeTitle(Some(title))| ==>
      SafeTitle(Some(title))[i] == (if IsSafeChar(LowerChar(title[i])) then LowerChar(title[i]) else '-')
  {
    var lowered := Lower(title);
    AstralsBelowAlike(lowered, title, |title|);
    var replaced := ReplaceUnsafe(lowered);
    assert SafeTitle(Some(title)) == Prefix(replaced, MaxTitleLength);
    if IsBmp(title) {
      assert IsBmp(lowered) by {
        forall i | 0 <= i < |lowered| ensures !IsAstral(lowered[i]) {
          assert lowered[i] == LowerChar(title[i]);
        }
      }
      ReplaceUnsafeOnBmp(lowered);
    }
  }

  /** An emoji is one character but two UTF-16 code units: it sanitises to two
      dashes. */
  lemma EmojiTitleIsTwoDashes()
    ensures SafeTitle(Some("\U{1F600}")) == "--"
  {
    assert ReplaceUnsafe(Lower("\U{1F600}")) == "--";
  }

  /** A missing or empty title sanitises to "project". */
  lemma MissingTitleIsProject(projectTitle: Option<string>)
    requires !Truthy(projectTitle)
    ensures SafeTitle(projectTitle) == "project"
  {
    SanitisedTitleIsItself(DefaultTitle);
  }

  /** A string of title characters is left alone by lower-casing and by the
      replacement. */
  lemma TitleCharsAreFixed(t: string)
    requires forall i :: 0 <= i < |t| ==> IsTitleChar(t[i])
    ensures Lower(t) == t
    ensures ReplaceUnsafe(t) == t
  {
    LowerKeepsTitleChars(t);
    ReplaceKeepsTitleChars(t);
  }

  lemma LowerKeepsTitleChars(t: string)
    requires forall i :: 0 <= i < |t| ==> IsTitleChar(t[i])
    ensures Lower(t) == t
  {
    var lowered := Lower(t);
    forall i | 0 <= i < |t| ensures lowered[i] == t[i] {
      assert IsTitleChar(t[i]);
    }
  }

  lemma ReplaceKeepsTitleChars(t: string)
    requires forall i :: 0 <= i < |t| ==> IsTitleChar(t[i])
    ensures ReplaceUnsafe(t) == t
  {
    TitleCharsAreBmp(t);
    ReplaceUnsafeOnBmp(t);
    var replaced := ReplaceUnsafe(t);
    forall i | 0 <= i < |t| ensures replaced[i] == t[i] {
      assert IsTitleChar(t[i]);
    }
  }

  /** A string of at most 50 title characters is its own sanitised title. */
  lemma SanitisedTitleIsItself(t: string)
    requires t != "" && |t| <= MaxTitleLength
    requires forall i :: 0 <= i < |t| ==> IsTitleChar(t[i])
    ensures SafeTitle(Some(t)) == t
  {
    TitleCharsAreFixed(t);
  }

  lemma TitleCharsAreBmp(t: string)
    requires forall i :: 0 <= i < |t| ==> IsTitleChar(t[i])
    ensures IsBmp(t)
  {
    forall i | 0 <= i < |t| ensures !IsAstral(t[i]) {
      assert IsTitleChar(t[i]);
    }
  }

  /** Sanitising an already sanitised title gives it back. */
  lemma SafeTitleIdempotent(title: Option<string>)
    ensures SafeTitle(Some(SafeTitle(title))) == SafeTitle(title)
  {
    SanitisedTitleIsItself(SafeTitle(title));
  }

  // ---------------------------------------------------------------------
  // The timestamp: `${Date.now()}` renders a natural number in decimal.
  // ---------------------------------------------------------------------

  predicate IsDigit(c: char) {
    '0' <= c <= '9'
  }

  function DigitChar(d: nat): (c: char)
    requires d < 10
    ensures IsDigit(c)
  {
    ('0' as int + d) as char
  }

  /** The decimal rendering of `n`, without leading zeros. */
  function DecimalString(n: nat): (r: string)
    ensures |r| >= 1
    ensures forall i :: 0 <= i < |r| ==> IsDigit(r[i])
    ensures r[0] == '0' ==> n == 0
  {
    if n < 10 then [DigitChar(n)] else DecimalString(n / 10) + [DigitChar(n % 10)]
  }

  function DigitValue(c: char): nat
    requires IsDigit(c)
  {
    c as int - '0' as int
  }

  /** The number a string of decimal digits denotes. */
  function DecimalValue(s: string): nat
    requires forall i :: 0 <= i < |s| ==> IsDigit(s[i])
  {
    if s == [] then 0 else 10 * DecimalValue(s[..|s| - 1]) + DigitValue(s[|s| - 1])
  }

  /** Reading the rendered timestamp back gives the timestamp. */
  lemma {:induction false} DecimalRoundTrip(n: nat)
    ensures DecimalValue(DecimalString(n)) == n
  {
    var r := DecimalString(n);
    if n >= 10 {
      DecimalRoundTrip(n / 10);
      assert r[..|r| - 1] == DecimalString(n / 10);
    }
  }

  // ---------------------------------------------------------------------
  // File name and public URL.
  // ---------------------------------------------------------------------

  /** `${safeTitle}-${studentId || 'unknown'}-${timestamp}${ext}`. */
  function FileName(form: UploadForm, timestamp: nat, ext: string): (name: string)
    ensures |name| >= |SafeTitle(form.projectTitle)| + 3 + |ext|
    ensures name[..|SafeTitle(form.projectTitle)|] == SafeTitle(form.projectTitle)
    ensures name[|SafeTitle(form.projectTitle)|] == '-'
    ensures name[|name| - |ext|..] == ext
  {
    SafeTitle(form.projectTitle) + "-" + OrElse(form.studentId, DefaultStudentId) + "-"
      + DecimalString(timestamp) + ext
  }

  /** Every part can be read back from the file name: the sanitised title, the
      student id (or "unknown") between the first two dashes after it, and the
      timestamp, whose digits just before the extension denote it again. */
  lemma {:induction false} FileNameRecovers(form: UploadForm, timestamp: nat, ext: string)
    ensures var name := FileName(form, timestamp, ext);
      var t := SafeTitle(form.projectTitle);
      var sid := if Truthy(form.studentId) then form.studentId.value else "unknown";
      var digits := |name| - |ext| - (|t| + |sid| + 2);
      digits >= 1
      && name[..|t|] == t
      && name[|t|] == '-'
      && name[|t| + 1..|t| + 1 + |sid|] == sid
      && name[|t| + 1 + |sid|] == '-'
      && (forall i :: |t| + 2 + |sid| <= i < |name| - |ext| ==> IsDigit(name[i]))
      && DecimalValue(name[|t| + 2 + |sid|..|name| - |ext|]) == timestamp
      && name[|name| - |ext|..] == ext
  {
    var name := FileName(form, timestamp, ext);
    var t := SafeTitle(form.projectTitle);
    var sid := OrElse(form.studentId, DefaultStudentId);
    var d := DecimalString(timestamp);
    DashJoinParts(t, sid, d, ext);
    DecimalRoundTrip(timestamp);
  }

  /** Where each part of `a-b-c` followed by `ext` sits. */
  lemma DashJoinParts(a: string, b: string, c: string, ext: string)
    ensures var name := a + "-" + b + "-" + c + ext;
      |name| == |a| + |b| + |c| + |ext| + 2
      && name[..|a|] == a
      && name[|a|] == '-'
      && name[|a| + 1..|a| + 1 + |b|] == b
      && name[|a| + 1 + |b|] == '-'
      && name[|a| + 2 + |b|..|name| - |ext|] == c
      && name[|name| - |ext|..] == ext
  {
    var name := a + "-" + b + "-" + c + ext;
    var head := a + "-" + b + "-";
    assert name == head + c + ext;
    assert name[..|head|] == head;
    assert head[|a| + 1..|a| + 1 + |b|] == b;
    assert name[|head|..|name| - |ext|] == c;
  }

  /** The file's public URL. */
  function PublicUrl(name: string): (url: string)
    ensures |url| == |name| + 18
    ensures url[..18] == "/uploads/projects/" && url[18..] == name
  {
    PublicPrefix + name
  }

  /** The allow-list of MIME types: a PDF or a Word (DOCX) document. */
  predicate AllowedType(file: UploadedFile): (b: bool)
    ensures b <==> file.mimeType in {"application/pdf",
      "application/vnd.openxmlformats-officedocument.wordprocessingml.document"}
  {
    file.mimeType == PdfMime || file.mimeType == DocxMime
  }

  // ---------------------------------------------------------------------
  // The handlers.
  // ---------------------------------------------------------------------

  /** `POST`. `form` is None when reading the form data throws; `dirExists`
      says whether the upload directory is already there; `mkdirOk` and
      `writeOk` say whether creating it and writing the file succeed;
      `timestamp` is `Date.now()` and `ext` is the extension of the file name. */
  function Post(form: Option<UploadForm>, dirExists: bool, mkdirOk: bool, writeOk: bool,
                timestamp: nat, ext: string): (u: Upload)
    // a missing file is rejected first, and nothing touches the file system
    ensures form.Some? && form.value.file.None? ==>
      u == Upload(Fail(400, "No file was uploaded"), [])
    // then a file of another type
    ensures form.Some? && form.value.file.Some? && !AllowedType(form.value.file.value) ==>
      u == Upload(Fail(400, "Only PDF and DOCX files are allowed"), [])
    // no file is written unless the form holds a PDF or DOCX file
    ensures !(form.Some? && form.value.file.Some? && AllowedType(form.value.file.value)) ==>
      u.effects == [] && u.response.Fail?
    // the directory is created only when it is missing
    ensures MakeUploadDir in u.effects ==> !dirExists
    ensures u.response.Ok? <==>
      form.Some? && form.value.file.Some? && AllowedType(form.value.file.value)
      && (dirExists || mkdirOk) && writeOk
    ensures u.response.Ok? ==>
      u.response.body == "/uploads/projects/" + FileName(form.value, timestamp, ext)
      && u.effects == (if dirExists then [] else [MakeUploadDir])
                      + [WriteFile(FileName(form.value, timestamp, ext))]
    ensures u.response.Fail? ==> u.response.status in {400, 500}
    ensures form.None? ==> u == Upload(Fail(500, UploadError), [])
  {
    if form.None? then Upload(Fail(500, UploadError), [])
    else if form.value.file.None? then Upload(Fail(400, NoFileError), [])
    else if !AllowedType(form.value.file.value) then Upload(Fail(400, FileTypeError), [])
    else
      var made := if dirExists then [] else [MakeUploadDir];
      if !dirExists && !mkdirOk then Upload(Fail(500, UploadError), [])
      else
        var name := FileName(form.value, timestamp, ext);
        if !writeOk then Upload(Fail(500, UploadError), made)
        else Upload(Ok(PublicUrl(name)), made + [WriteFile(name)])
  }

  /** Only a PDF or DOCX file is ever written, and it is written under the
      name the URL in the response points to. */
  lemma OnlyAllowedFilesWritten(form: Option<UploadForm>, dirExists: bool, mkdirOk: bool,
                                writeOk: bool, timestamp: nat, ext: string, name: string)
    requires WriteFile(name) in Post(form, dirExists, mkdirOk, writeOk, timestamp, ext).effects
    ensures form.Some? && form.value.file.Some?
    ensures form.value.file.value.mimeType == "application/pdf"
      || form.value.file.value.mimeType
         == "application/vnd.openxmlformats-officedocument.wordprocessingml.document"
    ensures Post(form, dirExists, mkdirOk, writeOk, timestamp, ext).response == Ok("/uploads/projects/" + name)
  {
  }

  /** `GET`, `PUT` and `DELETE` are declared and always refuse. */
  function NotAllowed(): (r: Response<string>)
    ensures r.Status() == 405 && r.Fail? && r.error == "Method not allowed"
  {
    Fail(405, MethodNotAllowed)
  }

  /** The route as a whole: POST is handled, every other verb is refused. */
  function Route(m: HttpMethod, form: Option<UploadForm>, dirExists: bool, mkdirOk: bool,
                 writeOk: bool, timestamp: nat, ext: string): (u: Upload)
    ensures !m.Post? ==> u.response == Fail(405, "Method not allowed") && u.effects == []
    ensures m.Post? ==> u == Post(form, dirExists, mkdirOk, writeOk, timestamp, ext)
  {
    if m.Post? then Post(form, dirExists, mkdirOk, writeOk, timestamp, ext)
    else Upload(NotAllowed(), [])
  }
}
