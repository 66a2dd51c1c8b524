# save-json: a verified model of the JSON export handler

`save-json.js` is a serverless HTTP handler. It accepts a POST carrying a shared
secret in the `x-api-key` header and a body `{ filename, content, jsonl, folder }`.
It turns the content into text and stores the UTF-8 bytes in a Supabase storage
bucket under `folder/<Date.now()>_<safe filename>`. It then asks for a signed URL
valid for seven days and answers with the URL, the byte size, the SHA-256 of the
bytes and the stored path. Every failure inside the `try` becomes a 500.

The model is split as the handler's work is:

- `text.dfy` (`Text`): JavaScript strings as sequences of UTF-16 code units, with surrogate pairs.
- `js.dfy` (`Js`): the body as a JavaScript value (undefined, null, boolean, number, string, array, object). It covers ToBoolean, property reads, destructuring defaults and `String(v)`. `String(v)` is modelled as ToString and may throw.
- `filename.dfy` (`Filename`): the sanitiser `replace(/[^a-zA-Z0-9._-]/g, "_")`.
- `json.dfy` (`Json`): `JSON.stringify(v, null, 2)` with two-space indentation and ECMA-262 string escaping. It includes a reader of string literals that serves as its inverse.
- `utf8.dfy` (`Utf8`): `Buffer.from(text, "utf8")`. Lone surrogates become U+FFFD. A strict UTF-8 decoder serves as the reference.
- `objectkey.dfy` (`ObjectKey`): the decimal timestamp and the object key `folder/stamp_name`.
- `storage.dfy` (`Storage`): the bucket as a class. It holds a map from key to stored object, the log of upload requests and the log of signing requests, each logged with its reply. Upload and sign are methods on it.
- `handler.dfy` (`Handler`):
  - the checks in their order (method, key, fields);
  - the preparation of the upload;
  - the method `Handle`, which runs upload then sign on a bucket and returns the response.

Lines 6 to 24 are pure and are modelled as functions (`Classify`, `Prepare`, `Plan`).
Lines 26 to 36 change the bucket and are modelled as the method `Handle`. `Handle`
states the whole new state of the bucket for every outcome.

The host's own behaviour is passed in as parameters:

- `Date.now()` is the parameter `now`;
- the configured key and any failure of `createClient` are a `Config` value;
- number formatting, `Buffer.from` on a non-string, and the SHA-256 digest are the functions of a `Host` value.

Which remote calls succeed, their error messages, the path an upload reports and the
signed URL are left open: they are nondeterministic choices inside the `Bucket`
methods. The bucket logs every call with the reply it got, and `Handle` states its
response in terms of those replies.

Line 15 keeps every dot and replaces only the three slashes: `../../etc/passwd`
becomes `.._.._etc_passwd`, not `......_etc_passwd`
(`Filename.SanitizeTraversalExample` proves both).

`folder` is not sanitised by the source: it is used as `String(folder)` would print it.
`UploadLiesInFolder` states that the path is the converted folder, a `/` and then a
name with no `/`. It does not claim that the folder itself is safe.

With `jsonl` truthy, non-string content reaches `Buffer.from` unchanged. The model
keeps this (`Canonicalise`) and leaves the resulting bytes to `Host.encodeValue`.

## Model

| member | source | states |
|---|---|---|
| `Handler.Handle` | save-json.js:6-39 | A decided response leaves the bucket unchanged. A publish makes exactly one upload call (the path, the bytes, "application/json", upsert). If that upload fails, the answer is 500 with its message, and nothing is stored or signed. If it succeeds, the bytes are at the path and exactly one sign call is made for that path for 604800 seconds. A failed signing gives 500 with its message and keeps the object. A granted signing gives 200 with the signed URL, the byte count, the digest and the path the upload reported. |
| `Handler.Plan` | save-json.js:6-24 | Before the remote calls, the answer is only 405, 401, 400 or a 500 that is not an upload or sign failure. An upload is reached only by a POST with the configured key and a working client, and it carries the digest of its own bytes. |
| `Handler.Prepare` | save-json.js:15-24 | A ready upload means the client was created and the digest is of exactly its bytes. Its failures are never remote failures. A client failure carries createClient's message. |
| `Handler.Canonicalise` | save-json.js:16-18 | The data is undefined exactly when the content is. Without jsonl it is a string, or undefined. |
| `Handler.ToBytes` | save-json.js:20 | A string never throws. Its bytes decode back to it, with lone surrogates as U+FFFD, and number between n and 3n for n units. Any other value is the host's coercion. |
| `Handler.UploadLiesInFolder` | save-json.js:15-24 | The path is the converted folder, then `/`, then a name that holds no `/`. |
| `Handler.Classify` | save-json.js:6-13 | A reply is only 405, 401 or 400. Proceeding implies a truthy filename and defined content. |
| `Handler.NonPostIsRejected` | save-json.js:6 | Any method other than POST gets 405, whatever the key and the body. |
| `Handler.UnauthorizedIffKeyDiffers` | save-json.js:7-8 | For a POST, 401 happens exactly when the header is not strictly equal to the configured key. |
| `Handler.KeyCheckIsStrictEquality` | save-json.js:7-8 | No header and no configured key pass the check. An empty configured key rejects a missing header. |
| `Handler.BadRequestIffFieldsMissing` | save-json.js:11-13 | For an authorised POST, 400 happens exactly when the filename is falsy or the content is undefined. |
| `Handler.DefinedContentIsAccepted` | save-json.js:12-13 | Content of null, false, 0 or "" with a truthy filename never gets a 4xx. |
| `Handler.Destructure` | save-json.js:11 | After destructuring, `jsonl` and `folder` are never undefined. |
| `Handler.MissingBodyReadsAsEmpty` | save-json.js:11 | A falsy body reads as `{}`: no filename, no content, jsonl false, folder "exports". |
| `Handler.DefaultsApplyOnlyToUndefined` | save-json.js:11 | `jsonl` defaults to false and `folder` to "exports" exactly when the own property is absent or undefined. Null and other values are kept. |
| `Handler.CanonicalisePriority` | save-json.js:16-18 | String content passes verbatim even with jsonl. Non-string content passes raw when jsonl is truthy. Otherwise the result is the indented JSON text, which exists for all defined content. |
| `Handler.PreparedUpload` | save-json.js:15-24 | A ready upload has path = Key(String(folder), now, sanitised String(filename)). Its bytes are Buffer.from of the canonical data: the UTF-8 form, between n and 3n bytes, for a string of n units. Its digest is of exactly those bytes. The client was created. |
| `Handler.KeysStayInFolder` | save-json.js:15-24 | Two ready uploads share a path only when their timestamps, folders and sanitised names are all equal. |
| `Handler.SameBytesSameDigest` | save-json.js:21 | Equal bytes give equal digests. |
| `Handler.ReadTwoFields` | save-json.js:11 | A body with just filename and content gets the defaults for jsonl and folder. |
| `Handler.PublishTwoFields` | save-json.js:11-24 | With the right key and a working client, a body of a non-empty string filename and content whose canonical form is text t is published under `exports/<now>_<sanitised name>`, with the UTF-8 bytes of t and their digest. |
| `Handler.SaveObjectExample` | save-json.js:11-24 | `{filename:"a.json", content:{x:1}}` is published as `exports/<now>_a.json` with the 12 bytes of `{\n  "x": 1\n}` and their digest. |
| `Handler.TraversalNameExample` | save-json.js:15-24 | A string content with filename `../../etc/passwd` is published under `exports/<now>_.._.._etc_passwd`. |
| `Js.Truthy` | save-json.js:12 | The falsy values are exactly undefined, null, false, NaN, 0 and "". |
| `Js.Lookup` | save-json.js:11 | A defined result is the value of some own property with that key. For the first such property, see `Js.LookupFirst`. |
| `Js.LookupFirst` | save-json.js:11 | Reading a property gives the value of the first own property with that key, or undefined when there is none. |
| `Js.Get` | save-json.js:11 | A property read on a primitive, or on an object that lacks the key, gives undefined. |
| `Js.OrDefault` | save-json.js:11 | The default is the result exactly when the value is undefined or already equals the default. A defined value is kept. |
| `Js.ToStr` | save-json.js:15 | String() of a string is that string, and only arrays and objects can throw. The exact condition is in `Js.ToStrThrowsOnlyOnTrap`. |
| `Js.Join` | save-json.js:15 | Joining throws only when some element is an array or an object. |
| `Js.ToStrThrowsOnlyOnTrap` | save-json.js:15 | String(v) throws exactly when v holds, at any depth through arrays, an object with an own "toString" key. |
| `Js.JoinThrowsOnlyOnTrap` | save-json.js:15 | Joining array elements throws exactly when one of them holds such an object. |
| `Js.ToStrExamples` | save-json.js:15 | `String()` of an array joins its elements with `,`, undefined and null giving the empty string, and nested arrays are flattened the same way. A plain object gives `[object Object]`. |
| `Filename.Sanitize` | save-json.js:15 | The sanitised name has the input's length, and every unit is in `[A-Za-z0-9._-]`. |
| `Filename.SanitizeAt` | save-json.js:15 | Each allowed unit is kept, and each other unit becomes `_`. |
| `Filename.SanitizeFixedPoint` | save-json.js:15 | A name is unchanged exactly when all its units are allowed. |
| `Filename.SanitizeIdempotent` | save-json.js:15 | Sanitising twice gives the same result as sanitising once. |
| `Filename.SanitizeHasNoSlash` | save-json.js:15 | A sanitised name contains no `/`. |
| `Filename.SanitizeTraversalExample` | save-json.js:15 | `../../etc/passwd` becomes `.._.._etc_passwd`, not `......_etc_passwd`. |
| `Json.Quote` | save-json.js:18 | A string literal is enclosed in double quotes and holds no control character. `Json.UnquoteQuote` reads it back. |
| `Json.QuoteBody` | save-json.js:18 | Escaped string text holds no control unit and no lone surrogate. |
| `Json.Serialize` | save-json.js:18 | Serialisation fails exactly on undefined. A string serialises to its quoted form. An object's text is enclosed in braces and an array's in brackets. |
| `Json.ElementTexts` | save-json.js:18 | Every array element gives exactly one text: no element is dropped. |
| `Json.MemberTexts` | save-json.js:18 | There are never more member texts than properties, and there is one per property when no value is undefined. |
| `Json.Wrap` | save-json.js:18 | The text starts with the opening bracket and ends with the closing one. |
| `Json.Stringify` | save-json.js:18 | The result is missing exactly when the content is undefined. |
| `Json.StringifyExample` | save-json.js:18 | `{x: 1}` serialises to the twelve units `{\n  "x": 1\n}`. |
| `Json.NestedExample` | save-json.js:18 | `{a: [1], b: true}` serialises to `{\n  "a": [\n    1\n  ],\n  "b": true\n}`: nested values indent one level deeper, and members are separated by `,\n`. |
| `Json.UnescapeQuoteBody` | save-json.js:18 | Reading escaped text back gives the original string. |
| `Json.UnquoteQuote` | save-json.js:18 | Parsing the JSON string literal of s gives s. |
| `Json.QuoteInjective` | save-json.js:18 | Distinct strings have distinct JSON literals. |
| `Utf8.Encode` | save-json.js:20 | The byte length lies between the unit count and three times it. |
| `Utf8.Scrub` | save-json.js:20 | Replacing lone surrogates keeps the length and makes the string well formed. |
| `Utf8.Decode` | save-json.js:20 | Whatever the strict decoder accepts is well-formed text. |
| `Utf8.DecodeEncode` | save-json.js:20 | Decoding the stored bytes gives the text with its lone surrogates replaced by U+FFFD. |
| `Utf8.EncodeRoundTrip` | save-json.js:20 | Well-formed text decodes back from its bytes unchanged. |
| `Utf8.EncodeInjective` | save-json.js:20 | Distinct well-formed texts have distinct bytes. |
| `Utf8.EncodeAscii` | save-json.js:20 | ASCII text takes one byte per unit, equal to that unit, so `size` is its length. |
| `ObjectKey.Decimal` | save-json.js:24 | The timestamp text is non-empty, all digits, and has no leading zero unless the value is zero. |
| `ObjectKey.DecimalValue` | save-json.js:24 | The timestamp text reads back as the timestamp. |
| `ObjectKey.DecimalInjective` | save-json.js:24 | Distinct timestamps have distinct texts. |
| `ObjectKey.Key` | save-json.js:24 | The key starts with the folder and a `/`. When the name holds no `/`, nothing after that `/` holds one. |
| `ObjectKey.KeyInjective` | save-json.js:24 | When the names hold no `/`, equal keys imply equal folders, timestamps and names. |
| `ObjectKey.KeyExample` | save-json.js:24 | The key of `a.json` in `exports` at time 42 is the text `exports/42_a.json`. |
| `Storage.Bucket.Upload` | save-json.js:26-29 | The call is logged with its reply. A success stores the object at the requested path, replacing any earlier one, and changes no other key. Without upsert it requires the key to be new. A failure stores nothing. It makes no sign call. |
| `Storage.Bucket.CreateSignedUrl` | save-json.js:31-34 | The call is logged with its reply, and no object or upload record changes. A URL is granted only for a stored key. |

## Left out

- SHA-256 (line 21) is the host function `Host.sha256Hex`. Only its determinism is used.
- Number-to-text conversion inside `String()` and `JSON.stringify` is the host function `numberToString`, because it is floating-point formatting. `JSON.stringify` writes NaN and the infinities as `null`. This is modelled.
- `Buffer.from` on a non-string value (line 20, jsonl branch) is the host function `encodeValue`, which may throw. It is JavaScript runtime coercion.
- `toJSON` methods, replacers, functions, symbols, BigInt and cyclic values cannot occur in a parsed request body. They are not modelled.
- `String(v)` of an object whose own `toString` or `valueOf` is a function cannot occur in parsed data. An own `toString` key therefore always throws.
- `createClient` (line 23) is reduced to whether it throws, as `Config.clientError`. The bucket name and the credentials from the environment are not modelled.
- The Supabase client and network, including retries, partial writes and the form of the signed URL, are not modelled. The methods of `Bucket` choose success, messages, the reported path and the URL.
- `Storage.Bucket.Upload`: the model assumes a failed upload stores nothing, and a successful one stores at the requested path. The remote service gives no such promise in this code. The path it reports is not assumed to be the requested one.
- `Storage.Bucket.CreateSignedUrl`: the model assumes a URL is granted only for a stored key. That is the service's behaviour, not the handler's.
- `console.error` (line 38) is logging and is not modelled. How line 39 renders a thrown value (`String(e?.message || e)`) is not modelled either. The client, upload and sign faults carry the error's message as an opaque string. The three conversion faults carry none.
- `async`/`await` are not modelled. The handler is sequential, and concurrent requests are outside the model.
- The response body shapes of 401, 400 and 500 are reduced to the status and `Fault`.
- An object is its list of own properties, in enumeration order and under distinct keys. This is the object after JSON.parse has merged duplicate keys and ordered the array-index keys first. That parsing is not modelled.
- A repeated `x-api-key` header arrives as one joined string, so the header is one optional string. That joining is not modelled.
- `Date.now()` is a parameter. The model does not claim that two requests get different timestamps.
