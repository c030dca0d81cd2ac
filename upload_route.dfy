/** `POST /api/upload`: the multipart parser with its file filter and size
    limit, its error replies, and the hand-over to the S3 handler. */
module UploadRoute {
  import opened Common
  import opened Http
  import opened MediaUpload

  /** A file part of the multipart request and the form field it came in. */
  datatype FilePart = FilePart(fieldName: string, file: UploadedFile)

  const MaxUploadSize: nat := 100 * 1024 * 1024

  /** The extensions the file filter accepts, in lower case. */
  const AllowedExtensions: seq<string> := ["jpg", "jpeg", "png", "gif", "mp4", "mov", "avi", "webm"]

  function LowerAscii(c: char): char {
    if 'A' <= c <= 'Z' then (c as int + 32) as char else c
  }

  /** `s` with its ASCII capitals lowered, which is how `/i` compares these letters. */
  function LowerAll(s: string): (r: string)
    ensures |r| == |s| && forall i :: 0 <= i < |s| ==> r[i] == LowerAscii(s[i])
  {
    if s == [] then [] else [LowerAscii(s[0])] + LowerAll(s[1..])
  }

  /** `name` ends with `"." + ext`, letters compared without case. */
  predicate EndsWithExtension(name: string, ext: string) {
    |ext| + 1 <= |name| && LowerAll(name[|name| - |ext| - 1..]) == "." + ext
  }

  /** `originalname.match(/\.(jpg|jpeg|png|gif|mp4|mov|avi|webm)$/i)`. */
  predicate PassesFilter(name: string) {
    exists i :: 0 <= i < |AllowedExtensions| && EndsWithExtension(name, AllowedExtensions[i])
  }

  /** The text after the last dot of a name, or `None` when it has no dot. */
  function LastExtension(name: string): (e: Option<string>)
    ensures e.Some? ==> |e.value| < |name| && name[|name| - |e.value| - 1] == '.'
                        && e.value == name[|name| - |e.value|..]
                        && '.' !in e.value
    ensures e.None? ==> '.' !in name
  {
    if name == [] then None
    else if name[|name| - 1] == '.' then Some("")
    else
      match LastExtension(name[..|name| - 1])
      case None => None
      case Some(e) =>
        assert name[..|name| - 1][|name| - 1 - |e|..] == name[|name| - 1 - |e|..|name| - 1];
        Some(e + [name[|name| - 1]])
  }

  /** The filter accepts a name exactly when the text after its last dot is one
      of the accepted extensions, ignoring case. */
  lemma FilterIsLastExtension(name: string)
    ensures PassesFilter(name) <==>
              LastExtension(name).Some? && LowerAll(LastExtension(name).value) in AllowedExtensions
  {
    var e := LastExtension(name);
    if PassesFilter(name) {
      var i :| 0 <= i < |AllowedExtensions| && EndsWithExtension(name, AllowedExtensions[i]);
      NoDotInExtensions(i);
      FilterFindsLastDot(name, AllowedExtensions[i]);
    }
    if e.Some? && LowerAll(e.value) in AllowedExtensions {
      var i :| 0 <= i < |AllowedExtensions| && AllowedExtensions[i] == LowerAll(e.value);
      LastDotGivesSuffix(name, e.value);
      assert EndsWithExtension(name, LowerAll(e.value));
    }
  }

  lemma NoDotInExtensions(i: int)
    requires 0 <= i < |AllowedExtensions|
    ensures '.' !in AllowedExtensions[i]
  {
  }

  /** Lowering cannot make a dot out of anything but a dot. */
  lemma LowerKeepsDots(t: string)
    ensures '.' in LowerAll(t) <==> '.' in t
  {
    if '.' in t {
      var j :| 0 <= j < |t| && t[j] == '.';
      assert LowerAll(t)[j] == '.';
    }
    if '.' in LowerAll(t) {
      var j :| 0 <= j < |t| && LowerAll(t)[j] == '.';
      assert t[j] == '.';
    }
  }

  lemma FilterFindsLastDot(name: string, ext: string)
    requires '.' !in ext && EndsWithExtension(name, ext)
    ensures LastExtension(name).Some? && LowerAll(LastExtension(name).value) == ext
  {
    var p := |name| - |ext| - 1;
    var tail := name[p + 1..];
    assert name[p..] == [name[p]] + tail;
    assert LowerAll(name[p..]) == [LowerAscii(name[p])] + LowerAll(tail);
    assert LowerAll(tail) == ext;
    LowerKeepsDots(tail);
    LastDotUnique(name, p, LastExtension(name));
  }

  lemma LastDotGivesSuffix(name: string, e: string)
    requires LastExtension(name) == Some(e)
    ensures EndsWithExtension(name, LowerAll(e))
  {
    var p := |name| - |e| - 1;
    assert name[p..] == [name[p]] + name[p + 1..];
    var t := ['.'] + e;
    assert t[1..] == e;
    assert LowerAll(t) == "." + LowerAll(e);
  }

  /** A dot followed only by non-dots is the dot `LastExtension` finds. */
  lemma LastDotUnique(name: string, p: int, e: Option<string>)
    requires 0 <= p < |name| && name[p] == '.' && '.' !in name[p + 1..]
    requires e == LastExtension(name)
    ensures e.Some? && e.value == name[p + 1..]
  {
  }

  /** The error the parser passes on, and the reply the route makes of it. */
  /** A part the parser hands on as `req.file`. */
  predicate AcceptedPart(part: FilePart) {
    part.fieldName == "file" && PassesFilter(part.file.originalname) && Size(part.file) <= MaxUploadSize
  }

  datatype ParseResult = Parsed(file: Option<UploadedFile>) | MulterError(message: string) | FilterError(message: string)

  /** The parser on the request's file part, its checks in the order it runs
      them: a part in another field, a name the filter refuses, a file over the
      limit; no part leaves `req.file` unset. */
  function Parse(part: Option<FilePart>): (p: ParseResult)
    ensures part.None? ==> p == Parsed(None)
    ensures part.Some? && part.value.fieldName != "file" ==> p == MulterError("Unexpected field")
    ensures part.Some? && part.value.fieldName == "file" && !PassesFilter(part.value.file.originalname) ==>
              p == FilterError("Only image and video files are allowed!")
    ensures part.Some? && part.value.fieldName == "file" && PassesFilter(part.value.file.originalname)
            && Size(part.value.file) > MaxUploadSize ==>
              p == MulterError("File too large")
    ensures p.Parsed? <==> part.None? || AcceptedPart(part.value)
    ensures p.Parsed? && part.Some? ==> p.file == Some(part.value.file)
  {
    if part.None? then Parsed(None)
    else if part.value.fieldName != "file" then MulterError("Unexpected field")
    else if !PassesFilter(part.value.file.originalname) then FilterError("Only image and video files are allowed!")
    else if Size(part.value.file) > MaxUploadSize then MulterError("File too large")
    else Parsed(Some(part.value.file))
  }

  /** The route: parse, answer 400 on a parser error, otherwise run the S3 handler. */
  function Route(part: Option<FilePart>, env: AwsEnv, now: nat, reply: S3Reply): (a: UploadAttempt)
    ensures part.Some? && part.value.fieldName != "file" ==>
              a == UploadAttempt(None, Fail(400, "Upload error: Unexpected field"))
    ensures part.Some? && part.value.fieldName == "file" && !PassesFilter(part.value.file.originalname) ==>
              a == UploadAttempt(None, Fail(400, "Only image and video files are allowed!"))
    ensures part.Some? && part.value.fieldName == "file" && PassesFilter(part.value.file.originalname)
            && Size(part.value.file) > MaxUploadSize ==>
              a == UploadAttempt(None, Fail(400, "Upload error: File too large"))
    ensures part.None? ==> a == UploadToS3(None, env, now, reply)
    ensures part.Some? && AcceptedPart(part.value) ==> a == UploadToS3(Some(part.value.file), env, now, reply)
  {
    match Parse(part)
    case MulterError(message) => UploadAttempt(None, Fail(400, "Upload error: " + message))
    case FilterError(message) => UploadAttempt(None, Fail(400, message))
    case Parsed(file) => UploadToS3(file, env, now, reply)
  }

  /** Video files pass the filter and the 100 MB limit but the handler refuses
      them: nothing but JPEG, PNG and GIF of at most 5 MB reaches S3. */
  lemma RouteStoresOnlySmallImages(part: Option<FilePart>, env: AwsEnv, now: nat, reply: S3Reply)
    ensures var a := Route(part, env, now, reply);
            a.request.Some? ==>
              && part.Some? && part.value.fieldName == "file"
              && PassesFilter(part.value.file.originalname)
              && a.request.value.contentType in AllowedImageTypes
              && |a.request.value.body| <= MaxImageSize
  {
  }

  /** A video declared as `video/mp4` passes the parser and is refused by the handler. */
  lemma VideoRefused(env: AwsEnv, now: nat, reply: S3Reply)
    ensures var part := FilePart("file", UploadedFile("clip.MP4", "video/mp4", []));
            && PassesFilter("clip.MP4")
            && Route(Some(part), env, now, reply).response
               == Fail(400, "Invalid file type. Only JPEG, PNG, and GIF are allowed")
  {
    var file := UploadedFile("clip.MP4", "video/mp4", []);
    Mp4PassesFilter();
    assert Parse(Some(FilePart("file", file))) == Parsed(Some(file));
    assert "video/mp4" !in AllowedImageTypes;
  }

  lemma Mp4PassesFilter()
    ensures PassesFilter("clip.MP4")
  {
    var name := "clip.MP4";
    assert LowerAll(name[4..]) == ".mp4" by {
      assert name[4..] == ".MP4";
      assert LowerAll(".MP4") == [LowerAscii('.')] + LowerAll("MP4");
      assert LowerAll("MP4") == [LowerAscii('M')] + LowerAll("P4");
      assert LowerAll("P4") == [LowerAscii('P')] + LowerAll("4");
    }
    assert EndsWithExtension(name, AllowedExtensions[4]);
  }

  /** The filter looks only at the name: a file named like an image but declared
      with any allowed image type is uploaded whatever its actual content. */
  lemma FilterTrustsName(bytes: seq<bv8>, env: AwsEnv, now: nat, reply: S3Reply)
    requires |bytes| <= MaxImageSize && EnvComplete(env)
    ensures Route(Some(FilePart("file", UploadedFile("a.gif", "image/gif", bytes))), env, now, reply).request.Some?
  {
    var file := UploadedFile("a.gif", "image/gif", bytes);
    GifPassesFilter();
    assert Parse(Some(FilePart("file", file))) == Parsed(Some(file));
    assert "image/gif" in AllowedImageTypes;
  }

  lemma GifPassesFilter()
    ensures PassesFilter("a.gif")
  {
    var name := "a.gif";
    assert LowerAll(name[1..]) == ".gif" by {
      assert name[1..] == ".gif";
      assert LowerAll(".gif") == [LowerAscii('.')] + LowerAll("gif");
      assert LowerAll("gif") == [LowerAscii('g')] + LowerAll("if");
      assert LowerAll("if") == [LowerAscii('i')] + LowerAll("f");
    }
    assert EndsWithExtension(name, AllowedExtensions[3]);
  }
}
