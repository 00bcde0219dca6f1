/**
 * The upload handler in front of `POST /api/projects`: which files are
 * accepted, and the file name and URL an accepted file is stored under.
 * Writing the file to disk is not modelled; `Date.now()` and the random
 * suffix are parameters.
 */
module Upload {
  import opened Base

  /** The only multipart field that may carry a file (`upload.single('image')`). */
  const FieldName := "image"

  /** The size cap: 5 MiB. */
  const MaxFileSize: nat := 5 * 1024 * 1024

  /** The URL prefix the upload directory is served under. */
  const UploadsPrefix := "/uploads/"

  /**
   * One file part of a multipart request as the multipart parser delivers
   * it: its field name, its file name (the last path segment of the name
   * the client declared, with `.` and `..` delivered as empty), the
   * Content-Type the client declared, and its size in bytes.
   */
  datatype UploadFile = UploadFile(fieldname: string, originalname: string, mimetype: string, size: nat)

  /** Why the upload middleware refused a request. */
  datatype Rejection = UnexpectedField | InvalidFileType | FileTooLarge

  /** ASCII lower-casing; media type names are ASCII tokens. */
  function AsciiLower(s: string): (r: string)
    ensures |r| == |s|
    ensures forall i :: 0 <= i < |s| ==>
              r[i] == if 'A' <= s[i] <= 'Z' then (s[i] as int + 32) as char else s[i]
  {
    if |s| == 0 then []
    else [if 'A' <= s[0] <= 'Z' then (s[0] as int + 32) as char else s[0]] + AsciiLower(s[1..])
  }

  /** The MIME type the file filter sees: the multipart parser lower-cases the declared type. */
  function MimeType(f: UploadFile): string {
    AsciiLower(f.mimetype)
  }

  /** The file filter: the MIME type starts with `image/`. */
  predicate IsImage(mimetype: string) {
    "image/" <= mimetype
  }

  /**
   * The checks applied to one file part, in the order the middleware applies
   * them: the field name (and the one-file allowance), then the filter, then
   * the size while the file streams in.
   */
  function CheckFile(f: UploadFile, alreadyHaveOne: bool): (r: Result<UploadFile, Rejection>)
    ensures r.Ok? <==>
              !alreadyHaveOne && f.fieldname == FieldName && IsImage(MimeType(f)) && f.size <= MaxFileSize
    ensures r.Ok? ==> r.value == f
    ensures (alreadyHaveOne || f.fieldname != FieldName) ==> r == Err(UnexpectedField)
    ensures (!alreadyHaveOne && f.fieldname == FieldName && !IsImage(MimeType(f))) ==> r == Err(InvalidFileType)
    ensures (!alreadyHaveOne && f.fieldname == FieldName && IsImage(MimeType(f)) && f.size > MaxFileSize)
              ==> r == Err(FileTooLarge)
  {
    if alreadyHaveOne || f.fieldname != FieldName then Err(UnexpectedField)
    else if !IsImage(MimeType(f)) then Err(InvalidFileType)
    else if f.size > MaxFileSize then Err(FileTooLarge)
    else Ok(f)
  }

  /** A declared type in capitals passes the filter, since the filter sees it lower-cased. */
  lemma UpperCaseTypeAccepted()
    ensures CheckFile(UploadFile(FieldName, "a.png", "IMAGE/PNG", 10), false).Ok?
  {
    var m := AsciiLower("IMAGE/PNG");
    assert m[0] == 'i' && m[1] == 'm' && m[2] == 'a' && m[3] == 'g' && m[4] == 'e' && m[5] == '/';
    assert m[..6] == "image/";
  }

  /** A part with an empty file name is not a file: the middleware skips it unchecked. */
  function FileParts(parts: seq<UploadFile>): (r: seq<UploadFile>)
    ensures forall f :: f in r <==> f in parts && f.originalname != ""
    ensures (forall i :: 0 <= i < |parts| ==> parts[i].originalname != "") ==> r == parts
    ensures |parts| == 1 ==> r == (if parts[0].originalname == "" then [] else parts)
    ensures |r| <= |parts|
  {
    if |parts| == 0 then []
    else
      var tail := FileParts(parts[1..]);
      assert parts == [parts[0]] + parts[1..];
      if parts[0].originalname == "" then tail else [parts[0]] + tail
  }

  /** Skipping nameless parts keeps the named ones in arrival order, each as often as it arrived. */
  lemma {:induction false} FilePartsAppend(a: seq<UploadFile>, b: seq<UploadFile>)
    ensures FileParts(a + b) == FileParts(a) + FileParts(b)
    decreases |a|
  {
    if |a| == 0 {
      assert a + b == b;
    } else {
      assert (a + b)[0] == a[0];
      assert (a + b)[1..] == a[1..] + b;
      FilePartsAppend(a[1..], b);
    }
  }

  /**
   * Runs the middleware over the file parts of a request, in order, stopping
   * at the first refusal. `Ok(None)` means the request carried no file.
   */
  function ReceiveFiles(files: seq<UploadFile>, have: Option<UploadFile>): (r: Result<Option<UploadFile>, Rejection>)
    decreases |files|
    ensures have.Some? && |files| > 0 ==> r.Err?
    ensures r.Ok? ==> (r.value.Some? <==> have.Some? || |files| > 0)
    ensures r.Ok? && have.None? && |files| > 0 ==>
              |files| == 1 && r.value == Some(files[0]) && CheckFile(files[0], false).Ok?
    ensures r == Ok(have) <==> |files| == 0
    ensures r.Err? ==>
              exists i :: 0 <= i < |files|
                && CheckFile(files[i], have.Some? || i > 0) == Err(r.error)
                && forall j :: 0 <= j < i ==> CheckFile(files[j], have.Some? || j > 0).Ok?
  {
    if |files| == 0 then Ok(have)
    else match CheckFile(files[0], have.Some?)
         case Err(e) => Err(e)
         case Ok(f) =>
           var r := ReceiveFiles(files[1..], Some(f));
           assert r.Err? ==>
                    exists i :: 0 <= i < |files|
                      && CheckFile(files[i], have.Some? || i > 0) == Err(r.error)
                      && forall j :: 0 <= j < i ==> CheckFile(files[j], have.Some? || j > 0).Ok? by {
             if r.Err? {
               assert files[1..][0] == files[1];
               assert CheckFile(files[1], true) == Err(r.error);
             }
           }
           r
  }

  /**
   * The middleware's verdict on the parts of one request: no file, the one
   * accepted file, or the reason the first refused file part was refused.
   */
  function Receive(parts: seq<UploadFile>): (r: Result<Option<UploadFile>, Rejection>)
    ensures var fs := FileParts(parts);
            && (r == Ok(None) <==> |fs| == 0)
            && ((exists f :: r == Ok(Some(f))) <==> |fs| == 1 && CheckFile(fs[0], false).Ok?)
            && (r.Ok? && r.value.Some? ==> r.value == Some(fs[0]))
            && (|fs| > 0 && CheckFile(fs[0], false).Err? ==> r == Err(CheckFile(fs[0], false).error))
            && (|fs| > 1 && CheckFile(fs[0], false).Ok? ==> r == Err(UnexpectedField))
  {
    var fs := FileParts(parts);
    assert |fs| > 1 && CheckFile(fs[0], false).Ok? ==> ReceiveFiles(fs, None) == Err(UnexpectedField) by {
      if |fs| > 1 && CheckFile(fs[0], false).Ok? {
        assert ReceiveFiles(fs, None) == ReceiveFiles(fs[1..], Some(fs[0]));
        assert fs[1..][0] == fs[1];
      }
    }
    ReceiveFiles(fs, None)
  }

  // ---------------------------------------------------------------------------
  // Decimal rendering of the numbers in a file name

  predicate IsDigit(c: char) { '0' <= c <= '9' }

  function DigitChar(d: nat): (c: char)
    requires d < 10
    ensures IsDigit(c)
    ensures c == '0' <==> d == 0
  {
    "0123456789"[d]
  }

  function DigitValue(c: char): nat
    requires IsDigit(c)
  {
    (c as int - '0' as int) as nat
  }

  lemma DigitRoundTrip(d: nat)
    requires d < 10
    ensures DigitValue(DigitChar(d)) == d
  {
  }

  /** The decimal string of `n`, as a JavaScript number renders it (no sign, no leading zeros). */
  function Decimal(n: nat): (r: string)
    ensures |r| >= 1
    ensures forall i :: 0 <= i < |r| ==> IsDigit(r[i])
    ensures r[0] == '0' <==> n == 0
    ensures n == 0 ==> r == "0"
  {
    if n < 10 then [DigitChar(n)] else Decimal(n / 10) + [DigitChar(n % 10)]
  }

  /** The number a non-empty string of digits denotes. */
  function DecimalValue(s: string): nat
    requires forall i :: 0 <= i < |s| ==> IsDigit(s[i])
  {
    if |s| == 0 then 0 else 10 * DecimalValue(s[..|s| - 1]) + DigitValue(s[|s| - 1])
  }

  /** Reading back a rendered number gives the number. */
  lemma {:induction false} DecimalRoundTrip(n: nat)
    ensures DecimalValue(Decimal(n)) == n
  {
    var d := Decimal(n);
    if n < 10 {
      DigitRoundTrip(n);
    } else {
      assert d[..|d| - 1] == Decimal(n / 10);
      DecimalRoundTrip(n / 10);
      DigitRoundTrip(n % 10);
    }
  }

  /** The number of leading digits of `s`. */
  function LeadingDigits(s: string): (k: nat)
    ensures k <= |s|
    ensures forall i :: 0 <= i < k ==> IsDigit(s[i])
    ensures k < |s| ==> !IsDigit(s[k])
  {
    if |s| == 0 || !IsDigit(s[0]) then 0 else 1 + LeadingDigits(s[1..])
  }

  lemma {:induction false} LeadingDigitsOfRun(d: string, rest: string)
    requires forall i :: 0 <= i < |d| ==> IsDigit(d[i])
    requires |rest| == 0 || !IsDigit(rest[0])
    ensures LeadingDigits(d + rest) == |d|
  {
    if |d| > 0 {
      assert (d + rest)[1..] == d[1..] + rest;
      LeadingDigitsOfRun(d[1..], rest);
    }
  }

  // ---------------------------------------------------------------------------
  // path.extname

  /** `s` ends with `suffix`. */
  predicate EndsWith(s: string, suffix: string) {
    |suffix| <= |s| && s[|s| - |suffix|..] == suffix
  }

  /** Index just past the last `/` of `s` (0 when there is none). */
  function BaseStart(s: string): (i: nat)
    ensures i <= |s|
    ensures forall j :: i <= j < |s| ==> s[j] != '/'
    ensures i > 0 ==> s[i - 1] == '/'
    ensures '/' !in s ==> i == 0
  {
    if |s| == 0 then 0
    else if s[|s| - 1] == '/' then |s|
    else BaseStart(s[..|s| - 1])
  }

  /** Index of the last `.` of `s`, if any. */
  function LastDot(s: string): (r: Option<nat>)
    ensures r.Some? ==> r.value < |s| && s[r.value] == '.'
    ensures r.Some? ==> forall j :: r.value < j < |s| ==> s[j] != '.'
    ensures r.None? ==> forall j :: 0 <= j < |s| ==> s[j] != '.'
  {
    if |s| == 0 then None
    else if s[|s| - 1] == '.' then Some(|s| - 1)
    else LastDot(s[..|s| - 1])
  }

  /**
   * The extension of a file name: from the last `.` of its final path
   * segment to the end; empty when that segment has no `.`, when its only
   * `.` is the leading one (a dot-file), or when the segment is `..`.
   */
  function Extname(name: string): (r: string)
    ensures EndsWith(name, r)
    ensures r == "" || (r[0] == '.' && '.' !in r[1..])
    ensures '.' !in name ==> r == ""
    ensures '/' !in name && |name| > 0 && name[0] == '.' && '.' !in name[1..] ==> r == ""
  {
    var base := name[BaseStart(name)..];
    assert '/' !in name ==> base == name;
    assert '/' !in name && |name| > 0 && name[0] == '.' && '.' !in name[1..] ==> LastDot(base) == Some(0) by {
      if '/' !in name && |name| > 0 && name[0] == '.' && '.' !in name[1..] {
        forall j | 0 < j < |name| ensures name[j] != '.' {
          assert name[j] == name[1..][j - 1];
        }
      }
    }
    match LastDot(base)
    case None => ""
    case Some(i) =>
      if i == 0 || base == ".." then ""
      else
        assert name[|name| - |base[i..]|..] == base[i..];
        base[i..]
  }

  /**
   * A plain file name `stem.ext` (no `/`, no `.` in `ext`, a non-empty stem,
   * not `..`) has extension `.ext`, whatever dots the stem contains.
   */
  lemma ExtnameOfPlainName(stem: string, ext: string)
    requires '/' !in stem && '/' !in ext && '.' !in ext
    requires |stem| > 0 && stem + "." + ext != ".."
    ensures Extname(stem + "." + ext) == "." + ext
  {
    var name := stem + "." + ext;
    assert '/' !in name by {
      forall j | 0 <= j < |name| ensures name[j] != '/' {
        if j < |stem| { assert name[j] == stem[j]; }
        else if j > |stem| { assert name[j] == ext[j - |stem| - 1]; }
      }
    }
    assert name[0..] == name;
    var d := LastDot(name);
    assert name[|stem|] == '.';
    forall j | |stem| < j < |name| ensures name[j] != '.' {
      assert name[j] == ext[j - |stem| - 1];
    }
    assert d == Some(|stem|);
    assert name[|stem|..] == "." + ext;
  }

  // ---------------------------------------------------------------------------
  // The stored file name

  /** The parts a stored file name is made of. */
  datatype UploadName = UploadName(field: string, millis: nat, suffix: nat, ext: string)

  /** A field name without `-` and an extension that is empty or starts with `.`. */
  predicate WellFormed(u: UploadName) {
    && '-' !in u.field
    && (u.ext == "" || u.ext[0] == '.')
  }

  /** `fieldname-<Date.now()>-<random suffix><extension>`. */
  function FileName(u: UploadName): string {
    u.field + "-" + (Decimal(u.millis) + "-" + (Decimal(u.suffix) + u.ext))
  }

  /** The name an accepted file is stored under. */
  function StoredName(f: UploadFile, millis: nat, suffix: nat): (r: string)
    ensures f.fieldname == FieldName ==> "image-" <= r
    ensures EndsWith(r, Extname(f.originalname))
  {
    var u := UploadName(f.fieldname, millis, suffix, Extname(f.originalname));
    assert FileName(u)[|FileName(u)| - |u.ext|..] == u.ext;
    FileName(u)
  }

  /** The root-relative URL the stored file is served at. */
  function ImageUrl(filename: string): (r: string)
    ensures UploadsPrefix <= r && r[|UploadsPrefix|..] == filename
  {
    UploadsPrefix + filename
  }

  /** Index of the first `-` of `s`, if any. */
  function FirstDash(s: string): (r: Option<nat>)
    ensures r.Some? ==> r.value < |s| && s[r.value] == '-' && '-' !in s[..r.value]
    ensures r.None? ==> '-' !in s
  {
    if |s| == 0 then None
    else if s[0] == '-' then Some(0)
    else match FirstDash(s[1..])
         case None => None
         case Some(i) =>
           assert s[..i + 1] == [s[0]] + s[1..][..i];
           Some(i + 1)
  }

  /** Reads `<digits><ext>`, where `ext` is empty or starts with `.`. */
  function ParseSuffix(s: string): (r: Option<(nat, string)>)
    ensures r.Some? ==> r.value.1 == "" || r.value.1[0] == '.'
  {
    var k := LeadingDigits(s);
    var ext := s[k..];
    if k == 0 || !(ext == "" || ext[0] == '.') then None
    else Some((DecimalValue(s[..k]), ext))
  }

  /** Reads `<digits>-<digits><ext>`. */
  function ParseNumbers(s: string): (r: Option<(nat, nat, string)>)
    ensures r.Some? ==> r.value.2 == "" || r.value.2[0] == '.'
  {
    var k := LeadingDigits(s);
    if k == 0 || k == |s| || s[k] != '-' then None
    else match ParseSuffix(s[k + 1..])
         case None => None
         case Some((n, ext)) => Some((DecimalValue(s[..k]), n, ext))
  }

  /** Splits a stored file name back into its parts, when it has that shape. */
  function ParseFileName(name: string): (r: Option<UploadName>)
    ensures r.Some? ==> WellFormed(r.value)
  {
    match FirstDash(name)
    case None => None
    case Some(i) =>
      match ParseNumbers(name[i + 1..])
      case None => None
      case Some((a, b, ext)) => Some(UploadName(name[..i], a, b, ext))
  }

  lemma {:induction false} FirstDashAfter(field: string, rest: string)
    requires '-' !in field
    ensures FirstDash(field + "-" + rest) == Some(|field|)
  {
    if |field| > 0 {
      assert (field + "-" + rest)[1..] == field[1..] + "-" + rest;
      FirstDashAfter(field[1..], rest);
    }
  }

  lemma ParseSuffixShape(d: string, ext: string)
    requires ext == "" || ext[0] == '.'
    requires |d| > 0 && forall i :: 0 <= i < |d| ==> IsDigit(d[i])
    ensures ParseSuffix(d + ext) == Some((DecimalValue(d), ext))
  {
    LeadingDigitsOfRun(d, ext);
    assert (d + ext)[..|d|] == d;
    assert (d + ext)[|d|..] == ext;
  }

  lemma ParseNumbersShape(d: string, rest: string)
    requires |d| > 0 && forall i :: 0 <= i < |d| ==> IsDigit(d[i])
    requires ParseSuffix(rest).Some?
    ensures ParseNumbers(d + "-" + rest)
              == Some((DecimalValue(d), ParseSuffix(rest).value.0, ParseSuffix(rest).value.1))
  {
    var s := d + "-" + rest;
    LeadingDigitsOfRun(d, "-" + rest);
    assert s == d + ("-" + rest);
    assert s[|d|] == '-';
    assert s[..|d|] == d;
    assert s[|d| + 1..] == rest;
  }

  /** A name of the stored shape splits at its first dash. */
  lemma ParseFieldShape(field: string, rest: string)
    requires '-' !in field
    requires ParseNumbers(rest).Some?
    ensures ParseFileName(field + "-" + rest)
              == Some(UploadName(field, ParseNumbers(rest).value.0, ParseNumbers(rest).value.1,
                                 ParseNumbers(rest).value.2))
  {
    var name := field + "-" + rest;
    FirstDashAfter(field, rest);
    assert name[|field| + 1..] == rest;
    assert name[..|field|] == field;
  }

  /** A well-formed name reads back as the parts it was built from. */
  lemma FileNameRoundTrip(u: UploadName)
    requires WellFormed(u)
    ensures ParseFileName(FileName(u)) == Some(u)
  {
    var d1, d2 := Decimal(u.millis), Decimal(u.suffix);
    ParseSuffixShape(d2, u.ext);
    ParseNumbersShape(d1, d2 + u.ext);
    ParseFieldShape(u.field, d1 + "-" + (d2 + u.ext));
    DecimalRoundTrip(u.millis);
    DecimalRoundTrip(u.suffix);
  }

  /** Distinct clock readings or random suffixes give distinct stored names. */
  lemma FileNameInjective(u: UploadName, v: UploadName)
    requires WellFormed(u) && WellFormed(v)
    requires FileName(u) == FileName(v)
    ensures u == v
  {
    FileNameRoundTrip(u);
    FileNameRoundTrip(v);
  }

  /** Every accepted upload's stored name reads back as its field, clock, suffix and extension. */
  lemma StoredNameRoundTrip(f: UploadFile, millis: nat, suffix: nat)
    requires f.fieldname == FieldName
    ensures ParseFileName(StoredName(f, millis, suffix))
              == Some(UploadName(FieldName, millis, suffix, Extname(f.originalname)))
  {
    FileNameRoundTrip(UploadName(FieldName, millis, suffix, Extname(f.originalname)));
  }
}
