# Sora public-generation client, modelled in Dafny

`SoraChatGPTClass` is built with the URL of one public Sora generation. It
takes the generation's identifier from that URL. Its `getData` asks the public
generations endpoint for the JSON document of that identifier. Two projections
read the document:

- `getVideoUrl($quality = 'source')` returns the download path of one quality.
- `getVideoInfo()` returns a flattened eight-key metadata record.

The model is pure, like the class. The constructor only stores the URL, so a
client is a value (`Client`). The network is a function parameter that maps an
endpoint to the response the transport would deliver. One such `server` value
stands for one state of the remote. Each PHP call fetches again, so two calls
agree only while the remote is unchanged.

Files:

- `Wrappers.dfy`: the `Option` type.
- `PhpStrings.dfy`: `explode` and `end()` on a one-character separator, with
  `implode` as their inverse. It also covers the decimal strings that PHP
  arrays turn into integer keys.
- `PhpJson.dfy`: the value `json_decode($body, true)` produces:
  - PHP truthiness (`!$data`);
  - element access under `isset` / `??`, where a missing element and a null
    element are both absent and a list answers to the decimal strings of its
    indices;
  - `array_keys`.
- `SoraChatGPT.dfy`: the class itself:
  - identifier extraction and the endpoint join;
  - the status decision of `getData`;
  - both projections;
  - their properties, including the results proved for the worked example of a
    document with an `id` and one `source` encoding.

PHP 8 raises a `TypeError` when `array_keys` receives something other than an
array. Line 95 passes `$data['encodings'] ?? []`, so a truthy document whose
`encodings` is a present, non-null scalar makes `getVideoInfo` throw. The
model gives `TypeError` there. A record with all eight keys is therefore
returned for every truthy document except those.

Line 89 lacks the comma after `'not found'`, which PHP rejects when it parses
the file. The model follows the evident intent: `url` and `title` are two
separate entries.

## Model

| member | source | states |
|---|---|---|
| `SoraChatGPT.SoraIdFromUrl` | SoraChatGPTClass.php:18-22 | the identifier has no `/`, ends the URL, and is either the whole URL or preceded by a `/` |
| `SoraChatGPT.SoraIdAfterLastSlash` | SoraChatGPTClass.php:20-21 | the identifier is exactly the text after the last `/` of the URL |
| `SoraChatGPT.SoraIdUnique` | SoraChatGPTClass.php:20-21 | any string with the three properties of the identifier is the identifier |
| `SoraChatGPT.SoraIdDegenerate` | SoraChatGPTClass.php:20-21 | without a `/` the URL is its own identifier (`""` for `""`); a URL ending in `/` gives `""` |
| `PhpStrings.ExplodeLastAfterLastSep` | SoraChatGPTClass.php:20-21 | the last piece of `explode` is the text after the last separator |
| `PhpStrings.LastPiece` | SoraChatGPTClass.php:21 | `end()` of the pieces has no separator and is the text after the last separator, the whole string when there is none |
| `SoraChatGPT.NewClient` | SoraChatGPTClass.php:8-11 | the client keeps the given URL and requests the fixed base followed by that URL's identifier |
| `PhpStrings.Explode` | SoraChatGPTClass.php:20 | `explode` yields at least one piece and no piece holds the separator |
| `PhpStrings.ImplodeExplode` | SoraChatGPTClass.php:20 | joining the pieces of a string with the separator gives the string back |
| `PhpStrings.ExplodeImplode` | SoraChatGPTClass.php:20 | separator-free pieces survive a join followed by a split |
| `PhpStrings.ExplodeAppend` | SoraChatGPTClass.php:20 | splitting `s + sep + t` is splitting `s` and `t` and concatenating the results |
| `PhpStrings.LastIndexOf` | SoraChatGPTClass.php:21 | the position found holds the separator and no separator follows it |
| `SoraChatGPT.ApiUrlEndsInSlash` | SoraChatGPTClass.php:5 | the fixed base ends in `/` |
| `SoraChatGPT.Endpoint` | SoraChatGPTClass.php:31-32 | the endpoint is the base followed by the identifier, verbatim; when the base ends in `/` the identifier becomes the endpoint's last path piece and reads back unchanged |
| `SoraChatGPT.JoinedId` | SoraChatGPTClass.php:32 | appending a `/`-free identifier to a base that ends in `/` replaces the base's empty last piece with it |
| `SoraChatGPT.FetchDependsOnlyOnId` | SoraChatGPTClass.php:29-32 | two clients whose URLs carry the same identifier request the same endpoint, so one state of the remote gives them the same document |
| `SoraChatGPT.GetData` | SoraChatGPTClass.php:46-54 | a document comes back exactly when the transport did not fail, the status is 200 and the body does not decode to null |
| `SoraChatGPT.Fetch` | SoraChatGPTClass.php:29-54 | a fetched document is never null |
| `SoraChatGPT.VideoUrlOf` | SoraChatGPTClass.php:65-71 | `false` exactly when nothing was fetched, the document is falsy, or `encodings[quality].path` is missing or null; otherwise exactly that path |
| `SoraChatGPT.GetVideoUrl` | SoraChatGPTClass.php:63-72 | `false` when the fetch fails, the document is falsy or `encodings[quality].path` is missing or null; that path otherwise |
| `SoraChatGPT.VideoUrlDefaultIsSource` | SoraChatGPTClass.php:63 | calling without a quality is calling with `"source"` |
| `SoraChatGPT.ListedQualityHasVideoUrl` | SoraChatGPTClass.php:67-71 | every member of an `encodings` object that has a path yields that path for its own name; the quality is looked up as given |
| `SoraChatGPT.VideoUrlQualityListed` | SoraChatGPTClass.php:67-95 | for a truthy document whose `encodings[quality].path` is set, `getVideoUrl` succeeds, and when the record is built the quality is among its `available_qualities` |
| `SoraChatGPT.Qualities` | SoraChatGPTClass.php:95 | no keys when `encodings` is missing or null, its keys when it is an array, a TypeError exactly when it is any other value |
| `SoraChatGPT.VideoInfoOf` | SoraChatGPTClass.php:81-96 | `false` exactly when nothing was fetched or the document is falsy; a TypeError exactly when `encodings` is a scalar; otherwise a record whose fields are the non-null values at `id`, `url`, `title`, `width`, `height`, `encodings.source.duration_secs` and `created_at`, each written out with its own literal default (`"not found"`, `"Untitled"`, null for the rest), and the keys of `encodings` |
| `SoraChatGPT.VideoInfoFields` | SoraChatGPTClass.php:88-95 | each field holds its source value when present and not null, else its own default; `available_qualities` lists the keys of `encodings` |
| `SoraChatGPT.InfoKey.SourcePath` | SoraChatGPTClass.php:88-95 | only `duration` and `available_qualities` read below `encodings`; every other field reads the top-level member of its own name |
| `SoraChatGPT.Default` | SoraChatGPTClass.php:88-94 | only `url` and `title` have a non-null default, and it is a truthy string |
| `SoraChatGPT.Pick` | SoraChatGPTClass.php:88-94 | a present, non-null value at the field's source is copied through unchanged; otherwise the field takes its default; it is null only when its default is |
| `SoraChatGPT.Record` | SoraChatGPTClass.php:87-96 | each field other than the qualities is its `Pick`, and the qualities are the ones given |
| `SoraChatGPT.AssignedFieldChanges` | SoraChatGPTClass.php:88-94 | setting the member a copied field reads to `x` sets that field to `x`, or to its default when `x` is null |
| `SoraChatGPT.OtherFieldUnchanged` | SoraChatGPTClass.php:88-95 | setting the member one copied field reads leaves any other single field as it was |
| `SoraChatGPT.FieldsIndependent` | SoraChatGPTClass.php:88-95 | fields default independently: a change to one field's source changes that field only |
| `SoraChatGPT.OtherSourcesUnchanged` | SoraChatGPTClass.php:88-95 | no field except `k` reads the member that copied field `k` reads |
| `SoraChatGPT.DurationReadsSourceOnly` | SoraChatGPTClass.php:93 | replacing the encoding of a quality other than `source` leaves `duration` unchanged |
| `SoraChatGPT.ReplacedQualityUrl` | SoraChatGPTClass.php:67-71 | after the encoding of quality `q` is replaced, the path for `q` is read from the replacement |
| `SoraChatGPT.VideoInfo.ToArray` | SoraChatGPTClass.php:87-96 | the returned array has exactly the eight keys, in order, without repeats, each holding its field |
| `SoraChatGPT.ToArrayAt` | SoraChatGPTClass.php:87-96 | reading a key of the returned array gives its field; any other key is absent |
| `SoraChatGPT.GetVideoInfo` | SoraChatGPTClass.php:79-97 | `false` and TypeError exactly as for the record; otherwise an array whose keys are the eight names in order, each holding the field `VideoInfoOf` computed |
| `SoraChatGPT.FailureIsFalse` | SoraChatGPTClass.php:46-54 | a transport error, a non-200 status or a null body makes both projections return `false` |
| `SoraChatGPT.FalsyDocumentIsFalse` | SoraChatGPTClass.php:67-85 | a falsy document makes both projections return `false` |
| `SoraChatGPT.ExampleVideoUrl` | SoraChatGPTClass.php:63-72 | on the worked example the `source` path is found and `md` gives `false` |
| `SoraChatGPT.ExampleVideoInfo` | SoraChatGPTClass.php:79-97 | on the worked example the record holds the id, the two string defaults, the duration, nulls and the one quality |
| `PhpJson.Truthy` | SoraChatGPTClass.php:67 | `!$data` holds exactly for null, `false`, `0`, a float zero, `""`, `"0"` and the empty array |
| `PhpJson.Offset` | SoraChatGPTClass.php:67 | only arrays have elements (string offsets are not modelled); an element found in an object is one of its members, one found in a list is one of its items |
| `PhpJson.Coalesce` | SoraChatGPTClass.php:88-94 | `??` gives the default when nothing non-null is found and copies a found value through unchanged; the result is null only when the default is |
| `PhpJson.Get` | SoraChatGPTClass.php:67 | a value found by `isset` / `??` is never null; a path of length zero finds exactly the non-null values |
| `PhpJson.FindField` | SoraChatGPTClass.php:88-94 | a member is found exactly when its name is present, and the found pair is a member |
| `PhpJson.FindFieldAt` | SoraChatGPTClass.php:88-94 | with unique names each member is found under its own name |
| `PhpJson.OffsetInList` | SoraChatGPTClass.php:67 | a list's elements sit at exactly the decimal strings of their indices |
| `PhpJson.ArrayKeys` | SoraChatGPTClass.php:95 | keys exist exactly for arrays: a list gives its indices, an object gives its names as PHP stores them |
| `PhpJson.OffsetKeyListed` | SoraChatGPTClass.php:95 | every key that finds an element is listed by `array_keys` |
| `PhpJson.ListedKeysFound` | SoraChatGPTClass.php:95 | every listed object member is found under its name |
| `PhpJson.ArrayKeysDistinct` | SoraChatGPTClass.php:95 | an object with unique names lists no key twice |
| `PhpJson.KeyValue` | SoraChatGPTClass.php:95 | a name is stored either as the integer it spells in decimal or, when it spells none, as itself |
| `PhpJson.KeyValueInjective` | SoraChatGPTClass.php:95 | distinct names are listed as distinct keys |
| `PhpJson.FindFieldAssign` | SoraChatGPTClass.php:88-94 | after assigning `x` to `k`, `k` finds `x` and every other name finds what it found before |
| `PhpStrings.IntKey` | SoraChatGPTClass.php:67 | an integer read from a key lies in the 64-bit range and is written back as exactly that key |
| `PhpStrings.IntKeyIff` | SoraChatGPTClass.php:67 | a string is an integer key for `n` exactly when it is `n` in decimal and `n` is in the 64-bit range |
| `PhpStrings.NatToStringOfValue` | SoraChatGPTClass.php:67 | canonical digit strings are exactly the decimal representations of their values |

## Left out

- The curl transport (SoraChatGPTClass.php:34-51) is network I/O. Handle setup, the timeout, the user agent, redirects and TLS are not modelled. Its outcome is the `server` parameter's `Response`: a failure flag, the status, and the decoded body.
- `json_decode` (SoraChatGPTClass.php:53) is a library parser. The decoded value is taken as given, and `JNull` stands for both a body that is not JSON and the JSON literal `null`.
- Floating-point numbers are opaque values: a mantissa and an exponent, copied through unchanged. The model does not capture rounding, underflow to zero, or the truthiness of a float that underflows.
- PHP integers and the integer-valued keys `array_keys` reports are unbounded. Only key parsing uses the 64-bit range, and integer overflow to float is not modelled.
- Objects are assumed to have unique member names, as `json_decode` produces them. On a duplicate name the model finds the first member, where PHP keeps the last.
- `Offset` gives no element for a string, where PHP reads a one-character string at a numeric offset (under `isset`, `"abc"["0"]` is `"a"`). Every path the client reads uses non-numeric keys (`encodings`, `path`, `id`, `duration_secs`, ...). The quality is the one exception: `encodings[quality]` with a numeric quality on a string-valued `encodings` would find a character. That character has no `path`, because its own offset `"path"` is not numeric, so no result of the client changes.
- `end()` moving the array's internal pointer is not modelled; only its return value is.
- `GetData` models only the decision of lines 46-54 on an abstract response, not the curl calls that produce it.
- PHP returns the same value, `false`, for a failure and for a JSON `false`. The model keeps these apart. A 200 body that decodes to `false` makes `GetData` return `Some(JBool(false))`, and `getVideoInfo` and `getVideoUrl` then return `false` because the document is falsy. A `path` that is JSON `false` makes `VideoUrlOf` return `Some(JBool(false))`, which a PHP caller cannot tell apart from "not found".
- `VideoInfoOf` returns a TypeError outcome where PHP 8 throws from `array_keys`. For those documents it does not return a record.
