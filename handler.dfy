/** The request handler of `api/save-json.js`: method and key checks, body
    validation with defaults, filename sanitising, content canonicalisation, hashing,
    key construction, and the upload-then-sign sequence with its error exits. */
module Handler {
  import opened Text
  import opened Wrappers
  import opened Js
  import opened Filename
  import opened Utf8
  import opened Json
  import opened ObjectKey
  import opened Storage

  /** What the handler reads of a request: its method, the `x-api-key` header (None
      when absent) and the parsed body (Undefined when there is none). */
  datatype Request = Request(httpMethod: JsString, apiKey: Option<JsString>, body: JsValue)

  /** The process configuration: ACTIONS_API_KEY (None when unset) and, when the
      storage client cannot be created from SUPABASE_URL and SUPABASE_SERVICE_ROLE,
      the message createClient throws. */
  datatype Config = Config(apiKey: Option<JsString>, clientError: Option<JsString>)

  /** Behaviour of the host runtime that the handler calls but does not define:
      Number::toString, Buffer.from on a non-string value (None when it throws), and
      the lowercase hexadecimal SHA-256 digest of node:crypto. */
  datatype Host = Host(
    numberToString: Number -> JsString,
    encodeValue: JsValue -> Option<seq<Byte>>,
    sha256Hex: seq<Byte> -> JsString)

  /** Which throw inside the `try` reached the `catch`. */
  datatype Fault =
    | FilenameNotConvertible        // String(filename) threw
    | ContentNotEncodable           // Buffer.from(data, "utf8") threw
    | ClientFailed(message: JsString)
    | FolderNotConvertible          // `${folder}` threw
    | UploadFailed(message: JsString)
    | SignFailed(message: JsString)

  datatype Response =
    | MethodNotAllowed                                   // 405, empty body
    | Unauthorized                                       // 401 { error: "unauthorized" }
    | BadRequest                                         // 400 { error: "filename & content required" }
    | ServerError(fault: Fault)                          // 500 { error: message }
    | Saved(url: JsString, size: nat, sha256: JsString, id: JsString)  // 200
  {
    function Status(): int
    {
      match this
      case MethodNotAllowed => 405
      case Unauthorized => 401
      case BadRequest => 400
      case ServerError(_) => 500
      case Saved(_, _, _, _) => 200
    }
  }

  const POST: JsString := Ascii("POST")
  const EXPORTS: JsString := Ascii("exports")
  const JSON_CONTENT_TYPE: JsString := Ascii("application/json")
  /** The validity of a signed URL: 60 * 60 * 24 * 7 seconds, seven days. */
  const SIGN_SECONDS: nat := 60 * 60 * 24 * 7

  /** The four body fields after `const { filename, content, jsonl = false,
      folder = "exports" } = req.body || {}`. */
  datatype Fields = Fields(filename: JsValue, content: JsValue, jsonl: JsValue, folder: JsValue)

  function Destructure(body: JsValue): (f: Fields)
    ensures f.jsonl != Undefined && f.folder != Undefined
  {
    var source := if Truthy(body) then body else Object([]);
    Fields(
      Get(source, Ascii("filename")),
      Get(source, Ascii("content")),
      OrDefault(Get(source, Ascii("jsonl")), Bool(false)),
      OrDefault(Get(source, Ascii("folder")), Str(EXPORTS)))
  }

  datatype Decision = Reply(response: Response) | Proceed(fields: Fields)

  /** The checks before any work is done, in their order: method, key, fields. */
  function Classify(req: Request, cfg: Config): (d: Decision)
    ensures d.Reply? ==> d.response in {MethodNotAllowed, Unauthorized, BadRequest}
    ensures d.Proceed? ==> Truthy(d.fields.filename) && d.fields.content != Undefined
  {
    if req.httpMethod != POST then Reply(MethodNotAllowed)
    else if req.apiKey != cfg.apiKey then Reply(Unauthorized)
    else
      var f := Destructure(req.body);
      if !Truthy(f.filename) || f.content.Undefined? then Reply(BadRequest)
      else Proceed(f)
  }

  /** `typeof content === "string" ? content : jsonl ? content : JSON.stringify(content, null, 2)`;
      the result is the value handed to Buffer.from. */
  function Canonicalise(numberToString: Number -> JsString, content: JsValue, jsonl: JsValue): (data: JsValue)
    ensures data.Undefined? <==> content.Undefined?
    ensures !Truthy(jsonl) ==> data.Str? || data.Undefined?
  {
    if content.Str? then content
    else if Truthy(jsonl) then content
    else match Stringify(numberToString, content)
      case Some(text) => Str(text)
      case None => Undefined
  }

  /** Buffer.from(data, "utf8"): a string is UTF-8 encoded, never throws, and its
      bytes decode back to it (lone surrogates as U+FFFD); any other value is left to
      the host, which may throw. */
  function ToBytes(host: Host, data: JsValue): (r: Option<seq<Byte>>)
    ensures data.Str? ==> r.Some? && Decode(r.value) == Some(Scrub(data.s))
    ensures data.Str? ==> |data.s| <= |r.value| <= 3 * |data.s|
    ensures !data.Str? ==> r == host.encodeValue(data)
  {
    if data.Str? then
      DecodeEncode(data.s);
      Some(Encode(data.s))
    else host.encodeValue(data)
  }

  /** What the two remote calls need: the key, the bytes and their digest. */
  datatype Upload = Upload(path: JsString, bytes: seq<Byte>, sha256: JsString)

  /** Lines 15 to 24 of the handler, each throw becoming its fault. */
  function Prepare(f: Fields, cfg: Config, host: Host, now: nat): (r: Result<Upload, Fault>)
    ensures r.Ok? ==> cfg.clientError.None? && r.value.sha256 == host.sha256Hex(r.value.bytes)
    ensures r.Err? ==> !r.error.UploadFailed? && !r.error.SignFailed?
    ensures r.Err? && r.error.ClientFailed? ==> cfg.clientError == Some(r.error.message)
  {
    match ToStr(host.numberToString, f.filename)
    case None => Err(FilenameNotConvertible)
    case Some(name) =>
      var safe := Sanitize(name);
      var data := Canonicalise(host.numberToString, f.content, f.jsonl);
      match ToBytes(host, data)
      case None => Err(ContentNotEncodable)
      case Some(bytes) =>
        var digest := host.sha256Hex(bytes);
        if cfg.clientError.Some? then Err(ClientFailed(cfg.clientError.value))
        else match ToStr(host.numberToString, f.folder)
          case None => Err(FolderNotConvertible)
          case Some(folder) => Ok(Upload(Key(folder, now, safe), bytes, digest))
  }

  /** Either the response is already decided, or the upload is ready to publish. */
  datatype Step = Respond(response: Response) | Publish(upload: Upload)

  /** The outcome of lines 6 to 24: a response, or an upload that only an authorised
      POST with a working client can reach. */
  function Plan(req: Request, cfg: Config, host: Host, now: nat): (s: Step)
    ensures s.Respond? ==> s.response.Status() in {405, 401, 400, 500}
    ensures s.Respond? && s.response.ServerError? ==> !s.response.fault.UploadFailed? && !s.response.fault.SignFailed?
    ensures s.Publish? ==> req.httpMethod == POST && req.apiKey == cfg.apiKey && cfg.clientError.None?
    ensures s.Publish? ==> s.upload.sha256 == host.sha256Hex(s.upload.bytes)
  {
    match Classify(req, cfg)
    case Reply(r) => Respond(r)
    case Proceed(f) =>
      match Prepare(f, cfg, host, now)
      case Err(fault) => Respond(ServerError(fault))
      case Ok(u) => Publish(u)
  }

  /** The handler. `now` is Date.now(). A decided response touches nothing. Otherwise
      the upload is asked for once, with upsert; a failed upload gives 500 and no
      signing. After a successful one the object is at the path and signing is asked
      for once, for seven days: a failed signing gives 500 and leaves the object in
      place, a granted one gives 200 with the signed URL, the byte count, the digest
      and the path the upload reported. */
  method Handle(bucket: Bucket, req: Request, cfg: Config, host: Host, now: nat) returns (resp: Response)
    modifies bucket
    ensures Plan(req, cfg, host, now).Respond? ==>
      resp == Plan(req, cfg, host, now).response && unchanged(bucket)
    ensures Plan(req, cfg, host, now).Publish? ==>
      var u := Plan(req, cfg, host, now).upload;
      && |bucket.uploadRequests| == |old(bucket.uploadRequests)| + 1
      && (var up := Last(bucket.uploadRequests).reply;
          && bucket.uploadRequests == old(bucket.uploadRequests) + [UploadRequest(u.path, u.bytes, JSON_CONTENT_TYPE, true, up)]
          && (up.Err? ==>
                && resp == ServerError(UploadFailed(up.error))
                && bucket.objects == old(bucket.objects)
                && bucket.signRequests == old(bucket.signRequests))
          && (up.Ok? ==>
                && bucket.objects == old(bucket.objects)[u.path := StoredObject(u.bytes, JSON_CONTENT_TYPE)]
                && |bucket.signRequests| == |old(bucket.signRequests)| + 1
                && (var signed := Last(bucket.signRequests).reply;
                    && bucket.signRequests == old(bucket.signRequests) + [SignRequest(u.path, SIGN_SECONDS, signed)]
                    && resp == (if signed.Ok? then Saved(signed.value, |u.bytes|, u.sha256, up.value)
                                else ServerError(SignFailed(signed.error))))))
  {
    match Plan(req, cfg, host, now)
    case Respond(r) =>
      resp := r;
    case Publish(u) =>
      var up := bucket.Upload(u.path, u.bytes, JSON_CONTENT_TYPE, true);
      if up.Err? {
        resp := ServerError(UploadFailed(up.error));
        return;
      }
      var signed := bucket.CreateSignedUrl(u.path, SIGN_SECONDS);
      if signed.Err? {
        resp := ServerError(SignFailed(signed.error));
        return;
      }
      resp := Saved(signed.value, |u.bytes|, u.sha256, up.value);
  }

  // ---------------------------------------------------------------------------
  // Properties of the decision pipeline.

  /** Any method other than POST is answered 405, whatever the key and the body. */
  lemma NonPostIsRejected(req: Request, cfg: Config, host: Host, now: nat)
    requires req.httpMethod != POST
    ensures Plan(req, cfg, host, now) == Respond(MethodNotAllowed)
    ensures Plan(req, cfg, host, now).response.Status() == 405
  {
  }

  /** A POST is answered 401 exactly when the header differs from the configured key
      (absent counts as a value of its own): before the body is looked at. */
  lemma UnauthorizedIffKeyDiffers(req: Request, cfg: Config, host: Host, now: nat)
    requires req.httpMethod == POST
    ensures Plan(req, cfg, host, now) == Respond(Unauthorized) <==> req.apiKey != cfg.apiKey
  {
  }

  /** Strict equality: no header and no configured key pass the check; an empty
      configured key does not accept a missing header. */
  lemma KeyCheckIsStrictEquality(body: JsValue, host: Host, now: nat, clientError: Option<JsString>)
    ensures Plan(Request(POST, None, body), Config(None, clientError), host, now) != Respond(Unauthorized)
    ensures Plan(Request(POST, None, body), Config(Some([]), clientError), host, now) == Respond(Unauthorized)
  {
  }

  /** For an authorised POST, the answer is 400 exactly when `filename` is falsy or
      `content` is undefined. */
  lemma BadRequestIffFieldsMissing(req: Request, cfg: Config, host: Host, now: nat)
    requires req.httpMethod == POST && req.apiKey == cfg.apiKey
    ensures var f := Destructure(req.body);
      Plan(req, cfg, host, now) == Respond(BadRequest) <==> !Truthy(f.filename) || f.content == Undefined
  {
  }

  /** null, false, 0 and "" are defined contents: with a truthy filename they pass
      validation and reach the upload or a 500, never a 4xx. */
  lemma DefinedContentIsAccepted(req: Request, cfg: Config, host: Host, now: nat)
    requires req.httpMethod == POST && req.apiKey == cfg.apiKey
    requires Truthy(Destructure(req.body).filename)
    requires Destructure(req.body).content in {Null, Bool(false), Num(Finite(0.0)), Str([])}
    ensures Plan(req, cfg, host, now).Publish? || Plan(req, cfg, host, now).response.Status() == 500
  {
  }

  /** A missing (or any falsy) body reads as `{}`: no filename, no content, the defaults. */
  lemma MissingBodyReadsAsEmpty(body: JsValue)
    requires !Truthy(body)
    ensures Destructure(body) == Fields(Undefined, Undefined, Bool(false), Str(EXPORTS))
  {
  }

  /** `jsonl` is false and `folder` is "exports" when absent or undefined; any other
      value, null included, is kept. */
  lemma DefaultsApplyOnlyToUndefined(ps: seq<Property>)
    ensures var f := Destructure(Object(ps));
      && f.jsonl == (if Lookup(ps, Ascii("jsonl")) == Undefined then Bool(false) else Lookup(ps, Ascii("jsonl")))
      && f.folder == (if Lookup(ps, Ascii("folder")) == Undefined then Str(EXPORTS) else Lookup(ps, Ascii("folder")))
  {
    var body := Object(ps);
    assert Truthy(body);
    var f := Destructure(body);
    assert f.jsonl == OrDefault(Get(body, Ascii("jsonl")), Bool(false));
    assert f.folder == OrDefault(Get(body, Ascii("folder")), Str(EXPORTS));
    DefaultOfMember(ps, Ascii("jsonl"), Bool(false));
    DefaultOfMember(ps, Ascii("folder"), Str(EXPORTS));
  }

  lemma DefaultOfMember(ps: seq<Property>, key: JsString, d: JsValue)
    ensures OrDefault(Get(Object(ps), key), d) == (if Lookup(ps, key) == Undefined then d else Lookup(ps, key))
  {
  }

  /** The priority of canonicalisation: a string passes verbatim even with `jsonl`; a
      non-string passes raw when `jsonl` is truthy; otherwise it becomes its indented
      JSON text, which exists for every defined content. */
  lemma CanonicalisePriority(numberToString: Number -> JsString, content: JsValue, jsonl: JsValue)
    ensures content.Str? ==> Canonicalise(numberToString, content, jsonl) == content
    ensures !content.Str? && Truthy(jsonl) ==> Canonicalise(numberToString, content, jsonl) == content
    ensures !content.Str? && !Truthy(jsonl) && content != Undefined ==>
      Canonicalise(numberToString, content, jsonl).Str?
      && Stringify(numberToString, content) == Some(Canonicalise(numberToString, content, jsonl).s)
  {
  }

  /** What a prepared upload holds: the key built from the converted folder, the
      timestamp and the sanitised name; the bytes Buffer.from gives for the canonical
      data (the UTF-8 form when it is a string); and the digest of exactly those bytes. */
  lemma PreparedUpload(f: Fields, cfg: Config, host: Host, now: nat)
    requires Prepare(f, cfg, host, now).Ok?
    ensures var u := Prepare(f, cfg, host, now).value;
      var data := Canonicalise(host.numberToString, f.content, f.jsonl);
      && ToStr(host.numberToString, f.filename).Some?
      && ToStr(host.numberToString, f.folder).Some?
      && u.path == Key(ToStr(host.numberToString, f.folder).value, now, Sanitize(ToStr(host.numberToString, f.filename).value))
      && ToBytes(host, data) == Some(u.bytes)
      && (data.Str? ==> u.bytes == Encode(data.s) && |data.s| <= |u.bytes| <= 3 * |data.s|)
      && u.sha256 == host.sha256Hex(u.bytes)
      && cfg.clientError.None?
  {
  }

  /** The stored object lies directly in the folder: the path is the converted folder,
      a "/", and then a name (the timestamp and the sanitised filename) with no "/"
      that could add a segment. */
  lemma UploadLiesInFolder(f: Fields, cfg: Config, host: Host, now: nat)
    requires Prepare(f, cfg, host, now).Ok?
    ensures var folder := ToStr(host.numberToString, f.folder);
      var p := Prepare(f, cfg, host, now).value.path;
      && folder.Some?
      && |p| > |folder.value| && p[..|folder.value|] == folder.value && p[|folder.value|] == SLASH
      && SLASH !in p[|folder.value| + 1..]
  {
    SanitizeHasNoSlash(ToStr(host.numberToString, f.filename).value);
  }

  /** Two publishing requests share a key only with equal folder, timestamp and safe
      name. */
  lemma KeysStayInFolder(
    f1: Fields, now1: nat, f2: Fields, now2: nat, cfg: Config, host: Host)
    requires Prepare(f1, cfg, host, now1).Ok? && Prepare(f2, cfg, host, now2).Ok?
    requires Prepare(f1, cfg, host, now1).value.path == Prepare(f2, cfg, host, now2).value.path
    ensures now1 == now2
    ensures ToStr(host.numberToString, f1.folder) == ToStr(host.numberToString, f2.folder)
    ensures Sanitize(ToStr(host.numberToString, f1.filename).value) == Sanitize(ToStr(host.numberToString, f2.filename).value)
  {
    var num := host.numberToString;
    var n1, n2 := Sanitize(ToStr(num, f1.filename).value), Sanitize(ToStr(num, f2.filename).value);
    SanitizeHasNoSlash(ToStr(num, f1.filename).value);
    SanitizeHasNoSlash(ToStr(num, f2.filename).value);
    KeyInjective(ToStr(num, f1.folder).value, now1, n1, ToStr(num, f2.folder).value, now2, n2);
  }

  /** The same bytes always get the same digest. */
  lemma SameBytesSameDigest(req1: Request, req2: Request, cfg: Config, host: Host, now1: nat, now2: nat)
    requires Plan(req1, cfg, host, now1).Publish? && Plan(req2, cfg, host, now2).Publish?
    requires Plan(req1, cfg, host, now1).upload.bytes == Plan(req2, cfg, host, now2).upload.bytes
    ensures Plan(req1, cfg, host, now1).upload.sha256 == Plan(req2, cfg, host, now2).upload.sha256
  {
  }
  // ---------------------------------------------------------------------------
  // Two requests end to end.

  /** The body fields a request names, read from a two-property body with keys
      "filename" and "content" in that order. */
  lemma ReadTwoFields(filename: JsValue, content: JsValue)
    ensures Destructure(Object([Property(Ascii("filename"), filename), Property(Ascii("content"), content)]))
            == Fields(filename, content, Bool(false), Str(EXPORTS))
  {
    var ps := [Property(Ascii("filename"), filename), Property(Ascii("content"), content)];
    assert |Ascii("filename")| == 8 && |Ascii("content")| == 7;
    assert |Ascii("jsonl")| == 5 && |Ascii("folder")| == 6;
    assert Lookup(ps, Ascii("filename")) == filename;
    assert Lookup(ps, Ascii("content")) == content;
    LookupFirst(ps, Ascii("jsonl"));
    LookupFirst(ps, Ascii("folder"));
  }

  /** A body of just a string filename and content whose canonical form is a text is,
      with the right key and a working client, published under
      `exports/<now>_<sanitised filename>` with the UTF-8 bytes of that text. */
  lemma PublishTwoFields(key: Option<JsString>, host: Host, now: nat, name: JsString, content: JsValue, text: JsString)
    requires name != [] && content != Undefined
    requires Canonicalise(host.numberToString, content, Bool(false)) == Str(text)
    ensures Plan(Request(POST, key, Object([Property(Ascii("filename"), Str(name)), Property(Ascii("content"), content)])),
                 Config(key, None), host, now)
            == Publish(Upload(Key(EXPORTS, now, Sanitize(name)), Encode(text), host.sha256Hex(Encode(text))))
  {
    var f := Fields(Str(name), content, Bool(false), Str(EXPORTS));
    ReadTwoFields(Str(name), content);
    var u := Upload(Key(EXPORTS, now, Sanitize(name)), Encode(text), host.sha256Hex(Encode(text)));
    assert Prepare(f, Config(key, None), host, now) == Ok(u);
  }

  /** `{ filename: "a.json", content: { x: 1 } }` with the right key is published as
      `exports/<now>_a.json`, holding the twelve bytes of `{\n  "x": 1\n}` and
      their digest. */
  lemma SaveObjectExample(key: Option<JsString>, host: Host, now: nat)
    requires host.numberToString(Finite(1.0)) == Ascii("1")
    ensures var body := Object([Property(Ascii("filename"), Str(Ascii("a.json"))),
                                Property(Ascii("content"), Object([Property(Ascii("x"), Num(Finite(1.0)))]))]);
      var text: JsString := [0x7B, LINE_FEED, SPACE, SPACE, QUOTE, 0x78, QUOTE, COLON, SPACE, 0x31, LINE_FEED, 0x7D];
      && Plan(Request(POST, key, body), Config(key, None), host, now)
         == Publish(Upload(Key(EXPORTS, now, Ascii("a.json")), Encode(text), host.sha256Hex(Encode(text))))
      && |Encode(text)| == 12
  {
    var x := Object([Property(Ascii("x"), Num(Finite(1.0)))]);
    var text: JsString := [0x7B, LINE_FEED, SPACE, SPACE, QUOTE, 0x78, QUOTE, COLON, SPACE, 0x31, LINE_FEED, 0x7D];
    ExampleName();
    ExampleCanonical(host.numberToString, x, text);
    PublishTwoFields(key, host, now, Ascii("a.json"), x, text);
    ExampleSize(text);
  }

  lemma ExampleName()
    ensures Ascii("a.json") != [] && Sanitize(Ascii("a.json")) == Ascii("a.json")
  {
    var name: JsString := [0x61, 0x2E, 0x6A, 0x73, 0x6F, 0x6E];
    assert Ascii("a.json") == name;
    assert AllSafe(name);
    SanitizeFixedPoint(name);
  }

  lemma ExampleCanonical(numberToString: Number -> JsString, x: JsValue, text: JsString)
    requires numberToString(Finite(1.0)) == Ascii("1")
    requires x == Object([Property(Ascii("x"), Num(Finite(1.0)))])
    requires text == [0x7B, LINE_FEED, SPACE, SPACE, QUOTE, 0x78, QUOTE, COLON, SPACE, 0x31, LINE_FEED, 0x7D]
    ensures Canonicalise(numberToString, x, Bool(false)) == Str(text)
  {
    StringifyExample(numberToString);
  }

  lemma ExampleSize(text: JsString)
    requires text == [0x7B, LINE_FEED, SPACE, SPACE, QUOTE, 0x78, QUOTE, COLON, SPACE, 0x31, LINE_FEED, 0x7D]
    ensures |Encode(text)| == 12
  {
    EncodeAscii(text);
  }

  /** A filename that tries to climb directories, `../../etc/passwd`, keeps its dots
      and loses its slashes: the object is `exports/<now>_.._.._etc_passwd`. */
  lemma TraversalNameExample(key: Option<JsString>, host: Host, now: nat, text: JsString)
    ensures var body := Object([Property(Ascii("filename"), Str(Ascii("../../etc/passwd"))),
                                Property(Ascii("content"), Str(text))]);
      Plan(Request(POST, key, body), Config(key, None), host, now)
      == Publish(Upload(Key(EXPORTS, now, Ascii(".._.._etc_passwd")), Encode(text), host.sha256Hex(Encode(text))))
  {
    SanitizeTraversalExample();
    PublishTwoFields(key, host, now, Ascii("../../etc/passwd"), Str(text), text);
  }
}
