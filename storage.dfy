/** The storage bucket as the handler sees it through its client: a map from object
    key to stored object, and the log of the calls it has received, each with the
    backend's reply. Whether a remote call succeeds, the error messages, the path an
    upload reports and the signed URLs are chosen by the backend; the model leaves
    them open and records them. */
module Storage {
  import opened Text
  import opened Utf8
  import opened Wrappers

  datatype StoredObject = StoredObject(bytes: seq<Byte>, contentType: JsString)

  /** An `upload(path, bytes, { contentType, upsert })` call and its reply: the path
      the backend reports (`data.path`) or the error message. */
  datatype UploadRequest = UploadRequest(
    path: JsString, bytes: seq<Byte>, contentType: JsString, upsert: bool,
    reply: Result<JsString, JsString>)

  /** A `createSignedUrl(path, expiresIn)` call and its reply: the signed URL
      (`data.signedUrl`) or the error message. */
  datatype SignRequest = SignRequest(path: JsString, expiresIn: nat, reply: Result<JsString, JsString>)

  function Last<T>(s: seq<T>): T
    requires s != []
  {
    s[|s| - 1]
  }

  class Bucket {
    var objects: map<JsString, StoredObject>
    var uploadRequests: seq<UploadRequest>
    var signRequests: seq<SignRequest>

    constructor (initial: map<JsString, StoredObject>)
      ensures objects == initial && uploadRequests == [] && signRequests == []
    {
      objects := initial;
      uploadRequests := [];
      signRequests := [];
    }

    /** `upload(path, bytes, { contentType, upsert })`. On success the object at `path`
        is the new one, whether or not one was there before when `upsert` is set, and
        no other key changes. Without `upsert` an existing key is refused. A failed
        upload stores nothing. The call and its reply are logged. */
    method Upload(path: JsString, bytes: seq<Byte>, contentType: JsString, upsert: bool)
      returns (r: Result<JsString, JsString>)
      modifies this
      ensures uploadRequests == old(uploadRequests) + [UploadRequest(path, bytes, contentType, upsert, r)]
      ensures signRequests == old(signRequests)
      ensures r.Ok? ==> objects == old(objects)[path := StoredObject(bytes, contentType)]
      ensures r.Ok? && !upsert ==> path !in old(objects)
      ensures r.Err? ==> objects == old(objects)
    {
      var accepted: bool := *;
      if accepted && (upsert || path !in objects) {
        objects := objects[path := StoredObject(bytes, contentType)];
        var reported: JsString := *;
        r := Ok(reported);
      } else {
        var message: JsString := *;
        r := Err(message);
      }
      uploadRequests := uploadRequests + [UploadRequest(path, bytes, contentType, upsert, r)];
    }

    /** `createSignedUrl(path, expiresIn)`: the call and its reply are logged, nothing
        stored changes, and a URL is granted only for a key that holds an object. */
    method CreateSignedUrl(path: JsString, expiresIn: nat) returns (r: Result<JsString, JsString>)
      modifies this
      ensures objects == old(objects) && uploadRequests == old(uploadRequests)
      ensures signRequests == old(signRequests) + [SignRequest(path, expiresIn, r)]
      ensures r.Ok? ==> path in objects
    {
      var granted: bool := *;
      if granted && path in objects {
        var url: JsString := *;
        r := Ok(url);
      } else {
        var message: JsString := *;
        r := Err(message);
      }
      signRequests := signRequests + [SignRequest(path, expiresIn, r)];
    }
  }
}
