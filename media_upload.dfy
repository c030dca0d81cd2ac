/** The S3 upload handler: checks the received file, builds the object key from
    the clock and the sanitised file name, and reports what S3 answered. */
module MediaUpload {
  import opened Common
  import opened Http

  /** A file as the multipart parser hands it over, held in memory. */
  datatype UploadedFile = UploadedFile(originalname: string, mimetype: string, buffer: seq<bv8>)

  /** `req.file.size`: the byte length of the buffered file. */
  function Size(f: UploadedFile): nat {
    |f.buffer|
  }

  /** The environment variables the handler reads. */
  datatype AwsEnv = AwsEnv(accessKeyId: Option<string>, secretAccessKey: Option<string>, bucket: Option<string>)

  /** The parameters of `s3.upload`. */
  datatype PutRequest = PutRequest(bucket: string, key: string, body: seq<bv8>, contentType: string)

  /** What S3 answers to the upload: the stored object's URL and key, or an
      error with an optional code. */
  datatype S3Reply = Stored(location: string, storedKey: string) | S3Error(code: Option<string>, message: string)

  /** What the handler sends to S3 (if anything) and what it answers. */
  datatype UploadAttempt = UploadAttempt(request: Option<PutRequest>, response: Response)

  const MaxImageSize: nat := 5 * 1024 * 1024

  const AllowedImageTypes: seq<string> := ["image/jpeg", "image/png", "image/gif"]

  // ------------------------------------------------------------ the key

  /** The characters the file-name sanitiser keeps: ASCII letters, digits and the dot. */
  predicate KeptInName(c: char) {
    'a' <= c <= 'z' || 'A' <= c <= 'Z' || '0' <= c <= '9' || c == '.'
  }

  /** `name.replace(/[^a-zA-Z0-9.]/g, '_')`. */
  function Sanitize(name: string): (r: string)
    ensures |r| == |name|
    ensures forall i :: 0 <= i < |r| ==> r[i] == (if KeptInName(name[i]) then name[i] else '_')
  {
    if name == [] then []
    else [if KeptInName(name[0]) then name[0] else '_'] + Sanitize(name[1..])
  }

  /** Every character of a sanitised name is a kept character or `_`. */
  predicate SafeName(s: string) {
    forall i :: 0 <= i < |s| ==> KeptInName(s[i]) || s[i] == '_'
  }

  /** Sanitising yields a safe name, leaves a name of kept characters unchanged,
      and sanitising twice is sanitising once. */
  lemma SanitizeLaws(name: string)
    ensures SafeName(Sanitize(name))
    ensures (forall i :: 0 <= i < |name| ==> KeptInName(name[i])) ==> Sanitize(name) == name
    ensures Sanitize(Sanitize(name)) == Sanitize(name)
  {
  }

  function DigitChar(d: nat): (c: char)
    requires d < 10
    ensures '0' <= c <= '9'
  {
    ['0', '1', '2', '3', '4', '5', '6', '7', '8', '9'][d]
  }

  /** `${n}` for a non-negative integer: its decimal digits, without leading zeros. */
  function Decimal(n: nat): (s: string)
    ensures s != []
    ensures forall i :: 0 <= i < |s| ==> '0' <= s[i] <= '9'
    ensures s[0] == '0' ==> n == 0
  {
    if n < 10 then [DigitChar(n)] else Decimal(n / 10) + [DigitChar(n % 10)]
  }

  /** The number a string of decimal digits denotes. */
  function DecimalValue(s: string): nat
    requires forall i :: 0 <= i < |s| ==> '0' <= s[i] <= '9'
  {
    if s == [] then 0 else 10 * DecimalValue(s[..|s| - 1]) + (s[|s| - 1] as int - '0' as int)
  }

  /** Reading back the digits of `n` gives `n`. */
  lemma {:induction false} DecimalRoundTrip(n: nat)
    ensures DecimalValue(Decimal(n)) == n
  {
    if n >= 10 {
      DecimalRoundTrip(n / 10);
      var s := Decimal(n);
      assert s[..|s| - 1] == Decimal(n / 10);
    }
  }

  /** `${Date.now()}_${sanitizedFileName}`. */
  function StorageKey(now: nat, name: string): (k: string)
    ensures |k| > |name|
    ensures SafeName(k)
  {
    SanitizeLaws(name);
    Decimal(now) + "_" + Sanitize(name)
  }

  /** Split a key at its first `_`: the timestamp text and the stored name. */
  function SplitKey(k: string): (parts: (string, string))
    ensures |parts.0| <= |k|
  {
    if k == [] then ("", "")
    else if k[0] == '_' then ("", k[1..])
    else var rest := SplitKey(k[1..]); ([k[0]] + rest.0, rest.1)
  }

  lemma {:induction false} SplitAfterDigits(d: string, rest: string)
    requires forall i :: 0 <= i < |d| ==> '0' <= d[i] <= '9'
    ensures SplitKey(d + "_" + rest) == (d, rest)
  {
    if d != [] {
      assert (d + "_" + rest)[1..] == d[1..] + "_" + rest;
      SplitAfterDigits(d[1..], rest);
      assert [d[0]] + d[1..] == d;
    } else {
      assert d + "_" + rest == ['_'] + rest;
    }
  }

  /** A key names its upload time and the sanitised file name, and both can be
      read back from it. */
  lemma KeyRoundTrip(now: nat, name: string)
    ensures var parts := SplitKey(StorageKey(now, name));
            && parts.1 == Sanitize(name)
            && (forall i :: 0 <= i < |parts.0| ==> '0' <= parts.0[i] <= '9')
            && DecimalValue(parts.0) == now
  {
    SplitAfterDigits(Decimal(now), Sanitize(name));
    DecimalRoundTrip(now);
  }

  // ------------------------------------------------------------ the handler

  predicate EnvComplete(env: AwsEnv) {
    Truthy(env.accessKeyId) && Truthy(env.secretAccessKey) && Truthy(env.bucket)
  }

  /** The checks before S3 is called all pass. */
  predicate Accepted(file: Option<UploadedFile>, env: AwsEnv) {
    file.Some? && Size(file.value) <= MaxImageSize && file.value.mimetype in AllowedImageTypes
    && EnvComplete(env)
  }

  /** The reply to a failed upload, by error code. */
  function S3Failure(code: Option<string>, message: string): (r: Response)
    ensures r.status == 500 && !r.success && r.body == NoBody
    ensures code == Some("NoSuchBucket") ==> r.message == "S3 bucket not found"
    ensures code == Some("AccessDenied") ==> r.message == "Access denied to S3 bucket"
    ensures code != Some("NoSuchBucket") && code != Some("AccessDenied") ==>
              r.message == "Error uploading file: " + message
  {
    if code == Some("NoSuchBucket") then Fail(500, "S3 bucket not found")
    else if code == Some("AccessDenied") then Fail(500, "Access denied to S3 bucket")
    else Fail(500, "Error uploading file: " + message)
  }

  /** `uploadToS3`, with the clock reading `now` and S3's answer `reply` as inputs. */
  function UploadToS3(file: Option<UploadedFile>, env: AwsEnv, now: nat, reply: S3Reply): (a: UploadAttempt)
    // S3 is called exactly when every check passes
    ensures a.request.Some? <==> Accepted(file, env)
    ensures file.None? ==> a.response == Fail(400, "No file uploaded")
    ensures file.Some? && Size(file.value) > MaxImageSize ==> a.response == Fail(400, "File size exceeds 5MB limit")
    ensures file.Some? && Size(file.value) <= MaxImageSize && file.value.mimetype !in AllowedImageTypes ==>
              a.response == Fail(400, "Invalid file type. Only JPEG, PNG, and GIF are allowed")
    ensures file.Some? && Size(file.value) <= MaxImageSize && file.value.mimetype in AllowedImageTypes
            && !EnvComplete(env) ==>
              a.response == Fail(500, "Server configuration error")
    // the object is the file itself, stored under its timestamped key
    ensures Accepted(file, env) ==>
              a.request == Some(PutRequest(env.bucket.value, StorageKey(now, file.value.originalname),
                                           file.value.buffer, file.value.mimetype))
    ensures a.response.success <==> Accepted(file, env) && reply.Stored?
    ensures Accepted(file, env) && reply.Stored? ==>
              a.response == Response(200, true, "", Uploaded(reply.location, reply.storedKey))
    ensures Accepted(file, env) && reply.S3Error? ==> a.response == S3Failure(reply.code, reply.message)
  {
    if file.None? then UploadAttempt(None, Fail(400, "No file uploaded"))
    else
      var f := file.value;
      if Size(f) > MaxImageSize then UploadAttempt(None, Fail(400, "File size exceeds 5MB limit"))
      else if f.mimetype !in AllowedImageTypes then
        UploadAttempt(None, Fail(400, "Invalid file type. Only JPEG, PNG, and GIF are allowed"))
      else if !EnvComplete(env) then UploadAttempt(None, Fail(500, "Server configuration error"))
      else
        var request := PutRequest(env.bucket.value, StorageKey(now, f.originalname), f.buffer, f.mimetype);
        match reply
        case Stored(location, storedKey) =>
          UploadAttempt(Some(request), Response(200, true, "", Uploaded(location, storedKey)))
        case S3Error(code, message) => UploadAttempt(Some(request), S3Failure(code, message))
  }

  /** Whatever reaches S3 is an image of at most 5 MB under a safe key. */
  lemma SentObjectsAreSmallImages(file: Option<UploadedFile>, env: AwsEnv, now: nat, reply: S3Reply)
    ensures var a := UploadToS3(file, env, now, reply);
            a.request.Some? ==>
              && a.request.value.contentType in AllowedImageTypes
              && |a.request.value.body| <= MaxImageSize
              && SafeName(a.request.value.key)
  {
  }
}
