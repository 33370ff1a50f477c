# LED matrix control API: router, config state machine and mode table

This project models the small PHP service that drives an LED matrix. It
covers three parts:

- **The front controller** (`api-T/index.php`). It normalises the request
  URI in two steps. First `trim($uri, '/')`, then `str_replace('api-T/', '',
  ...)`. The result picks one of four routes. Any other path gets a 404 that
  echoes the normalised path. Every reply carries a JSON content type and an
  open CORS header.
- **The configuration handler** (`api-T/endpoints/matrix/config.php`). A GET
  returns the stored device state. If there is none, it first writes a
  default state (mode 2, brightness 128, speed 50, the current time). A POST
  with a truthy decoded body overwrites the whole state. Each setting in the
  new state is the body's value cast to int, or a default: mode 1,
  brightness 128, speed 50. The time always comes from the server. A falsy
  body is answered with 400 and `{"error": "Invalid input"}`, and nothing is
  written.
- **The mode table** (`api-T/endpoints/matrix/modes.php`). It is a constant
  list of five display modes.

The model is functional. The state file is `Option<Json.Value>`, where
`None` means the file does not exist. The handler is a pure transition from
(method, decoded body, current time, store) to (status, body, new store).
The router is a pure function from a request and a store to a reply and a
new store.

Modules:

- `Wrappers`: `Option`.
- `Json`: the decoded value, the shape `json_decode(..., true)` yields.
- `Php`: truthiness, the `(int)` cast and the decimal form of an integer.
- `Strings`: `trim` and `str_replace`.
- `Modes`: the mode table.
- `Config`: the state machine.
- `Router`: normalisation, dispatch and the whole request.

Three PHP behaviours are followed from the code as written:

- `json_decode('{}', true)` is an empty array. An empty array is falsy, so
  a POST of `{}` is rejected with 400. It is not stored as all defaults.
- `isset` is false for a key whose value is `null`. Such a setting takes its
  default.
- `isset($input['mode'])` is false when the body decodes to a scalar or a
  list. A truthy body such as `5`, `"abc"` or `[1]` therefore stores the
  all-defaults state.

## Model

| member | source | states |
|---|---|---|
| Php.Truthy | api-T/endpoints/matrix/config.php:25 | the body test `if ($input)` fails for exactly seven decoded values: null (also a parse failure), false, 0, "", "0", the empty list and the empty object |
| Php.IntCast | api-T/endpoints/matrix/config.php:27-29 | `(int)` keeps an integer; every other value lands in the 64-bit range; the seven falsy values give 0; a truthy bool, list or object gives 1; strings follow StringToInt, whose partner is StringToIntRoundTrip |
| Php.SkipBlanks | api-T/endpoints/matrix/config.php:27-29 | the cast's first step removes a run of leading blanks and nothing else; what it returns starts with a non-blank |
| Php.DigitPrefix | api-T/endpoints/matrix/config.php:27-29 | the digits the cast reads are the longest all-digit prefix of the text |
| Php.StringToInt | api-T/endpoints/matrix/config.php:27-29 | casting a string always gives a 64-bit integer |
| Php.CastUnblanked | api-T/endpoints/matrix/config.php:27-29 | a string that does not start with a blank casts to its signed leading number, clamped |
| Php.CastDigits | api-T/endpoints/matrix/config.php:27-29 | a run of 1 to 308 digits casts to the number it spells, saturated to the 64-bit range |
| Php.CastNegatedDigits | api-T/endpoints/matrix/config.php:27-29 | a minus sign followed by at most 308 digits casts to the negated number, saturated to the 64-bit range |
| Php.Decimal | api-T/endpoints/matrix/config.php:33-34 | the decimal text of a natural number is non-empty, all digits, with no leading zero |
| Php.IntToString | api-T/endpoints/matrix/config.php:33-34 | the text written for an integer starts with '-' exactly when the integer is negative |
| Php.DecimalValue | api-T/endpoints/matrix/config.php:27-34 | reading back the written digits of n gives n |
| Php.StringToIntRoundTrip | api-T/endpoints/matrix/config.php:27-34 | every 64-bit integer sent as its decimal text is cast back to itself |
| Php.TrailingTextIgnored | api-T/endpoints/matrix/config.php:27-29 | text after the leading number is ignored: the digits of a 64-bit i followed by a character that is not a digit, '.', 'e' or 'E' cast to i |
| Php.DigitPrefixOfDigits | api-T/endpoints/matrix/config.php:27-29 | a string of digits is read whole |
| Php.DigitPrefixAppend | api-T/endpoints/matrix/config.php:27-29 | reading digits stops at the first non-digit |
| Strings.TrimStart | api-T/index.php:8 | the left trim leaves no leading '/' and keeps the last character |
| Strings.TrimEnd | api-T/index.php:8 | the right trim leaves no trailing '/' and keeps the first character |
| Strings.Trim | api-T/index.php:8 | `trim($s, '/')` is never longer than s and has no '/' at either end; TrimIsTrimmed and TrimUnique pin it down exactly |
| Strings.FirstKept | api-T/index.php:8 | the left trim stops at the first non-separator; everything before it is '/' |
| Strings.LastKept | api-T/index.php:8 | the right trim stops after the last non-separator; everything after it is '/' |
| Strings.TrimIsTrimmed | api-T/index.php:8 | `trim($s, '/')` is a slice of s; only '/' is cut before and after it, and it neither starts nor ends with '/' |
| Strings.TrimUnique | api-T/index.php:8 | conversely, any slice with that description is the trimmed string |
| Strings.FirstKeptAt | api-T/index.php:8 | the left trim point is the only index with its two properties |
| Strings.LastKeptAt | api-T/index.php:8 | the right trim point is the only index with its two properties |
| Strings.TrimBare | api-T/index.php:8 | a path without '/' at either end is left alone |
| Strings.TrimIdempotent | api-T/index.php:8 | trimming twice is trimming once |
| Strings.Delete | api-T/index.php:9 | `str_replace` never lengthens its subject; it is the identity when the pattern does not occur; otherwise it removes at least one full copy |
| Strings.DeleteChangesIffOccurs | api-T/index.php:9 | the subject changes exactly when the pattern occurs in it |
| Strings.DeleteLeading | api-T/index.php:9 | a leading copy is deleted and the scan resumes right after it |
| Strings.DeleteKeepsPrefix | api-T/index.php:9 | text before the first occurrence is kept verbatim |
| Strings.DeleteKeepsLast | api-T/index.php:9 | a last character unlike the pattern's last one survives deletion |
| Modes.ModeJson | api-T/endpoints/matrix/modes.php:4-28 | each entry is written as an object with exactly the keys id, name, description |
| Modes.ModesPayload | api-T/endpoints/matrix/modes.php:2-30 | the payload has the single key "modes", a list with one object per table entry, in table order |
| Modes.NameOf | api-T/endpoints/matrix/modes.php:5-26 | a name is found for an id exactly when the table lists that id, and it is that entry's name |
| Modes.TableIds | api-T/endpoints/matrix/modes.php:3-29 | five entries whose ids are 1 to 5 in order, so distinct and strictly increasing |
| Modes.ModeIdRange | api-T/endpoints/matrix/modes.php:5-25 | the ids that name a mode are exactly 1 to 5 |
| Modes.ModeNames | api-T/endpoints/matrix/modes.php:6-26 | the names by id are pulse, spiral, fire, wave, cloudmist |
| Config.Encode | api-T/endpoints/matrix/config.php:26-31 | a written state is an object with exactly the keys mode, brightness, speed, lastUpdate |
| Config.Decode | api-T/endpoints/matrix/config.php:6-7 | a stored value that reads as a state is exactly that state's encoding |
| Config.DecodeEncode | api-T/endpoints/matrix/config.php:6-7 | every written state reads back as itself |
| Config.InitialState | api-T/endpoints/matrix/config.php:10-15 | the lazily created state has a listed mode, the current time, and apart from the mode equals what a POST with no usable settings builds |
| Config.Isset | api-T/endpoints/matrix/config.php:27-29 | a setting is set only in an object body that holds its key, so only in a body that passed the truthiness test |
| Config.Setting | api-T/endpoints/matrix/config.php:27-29 | a missing or null setting takes its default; an integer passes through unchanged; any other set value is cast into the 64-bit range |
| Config.Build | api-T/endpoints/matrix/config.php:26-31 | the new state is stamped with the server time; each setting the body does not set takes its default, and each it sets to an integer takes that integer |
| Config.Handle | api-T/endpoints/matrix/config.php:5-39 | whatever is written is echoed; 400 happens exactly for a falsy POST body, writes nothing and answers the fixed error; every other status is 200; GET always leaves a file and echoes it; other methods answer nothing and write nothing; a well-formed file stays well-formed |
| Config.GetInitialises | api-T/endpoints/matrix/config.php:6-17 | a GET with no file writes and returns the same default object |
| Config.GetVerbatim | api-T/endpoints/matrix/config.php:6-7 | a GET with a file returns its content verbatim and writes nothing |
| Config.GetIdempotent | api-T/endpoints/matrix/config.php:5-18 | a second GET returns the first one's body and changes nothing |
| Config.PostRejectsFalsy | api-T/endpoints/matrix/config.php:25-37 | a falsy body is answered 400 with the fixed error, and the file is unchanged |
| Config.PostEmptyObjectRejected | api-T/endpoints/matrix/config.php:23-25 | a body of `{}` is rejected |
| Config.PostOverwrites | api-T/endpoints/matrix/config.php:26-34 | a truthy body replaces the whole file with the built state and echoes it; the previous content plays no part |
| Config.PostExactKeys | api-T/endpoints/matrix/config.php:26-31 | the written object has exactly the four state keys whatever the body held, and lastUpdate is the server's time |
| Config.PostDefaults | api-T/endpoints/matrix/config.php:27-30 | each setting is the cast body value when set, else 1, 128 or 50 |
| Config.PostNullIsAbsent | api-T/endpoints/matrix/config.php:27-29 | a setting sent as null takes its default, whatever else the body holds |
| Config.PostNonObjectDefaults | api-T/endpoints/matrix/config.php:25-29 | a truthy body that is not an object yields the all-defaults state |
| Config.PostEchoRoundTrip | api-T/endpoints/matrix/config.php:26-31 | posting back a state that was read yields that state with only the time renewed |
| Config.PostNumericStrings | api-T/endpoints/matrix/config.php:27-29 | settings sent as decimal strings are read as the numbers they spell |
| Config.PostModeUnchecked | api-T/endpoints/matrix/config.php:27 | any integer mode is stored as given; it names a table entry only when it is 1 to 5, and it is not checked |
| Config.ReadAfterWrite | api-T/endpoints/matrix/config.php:5-34 | after a successful POST, a GET returns exactly the state the POST built |
| Config.OtherMethodsInert | api-T/endpoints/matrix/config.php:5-22 | a method other than GET or POST answers no body and writes nothing |
| Config.DefaultModesListed | api-T/endpoints/matrix/config.php:11-27 | both default modes, 2 on GET and 1 on POST, are ids in the mode table |
| Router.Dispatch | api-T/index.php:12-31 | a path is not found exactly when it is none of the four case labels; DispatchRoutes gives each endpoint's paths |
| Router.NotFoundBody | api-T/index.php:28-31 | the 404 body has exactly the keys error and path, with the fixed message and the given path |
| Router.Normalise | api-T/index.php:8-9 | the normalised path is no longer than the URI and never ends with '/' |
| Router.Serve | api-T/index.php:2-32 | every reply carries both headers; the status is 404 exactly for an unknown path; outside the config route nothing is written and there is a body; a well-formed file stays well-formed |
| Router.DispatchRoutes | api-T/index.php:12-31 | each endpoint is chosen by exactly its paths, and every other path is not found |
| Router.NotFoundEchoesPath | api-T/index.php:26-31 | an unknown path gets 404 with the normalised path echoed, and nothing is written |
| Router.RoutingIgnoresMethod | api-T/index.php:12-31 | two requests for the same URI reach the same handler; outside the config route they get the same reply |
| Router.ModesConstant | api-T/index.php:22-24 | the mode list is the same whatever the request and the stored state |
| Router.MountedPath | api-T/index.php:8-9 | a route under the mount prefix, with any separators around it, normalises to the bare route |
| Router.LeadingSepOnly | api-T/index.php:8-9 | a bare path without the prefix, behind one '/', normalises to itself |
| Router.PlainPath | api-T/index.php:8-9 | a bare path free of '-' normalises to itself with or without the mount prefix |
| Router.PlainRoutes | api-T/index.php:8-24 | the three named routes reach their handlers with or without the mount prefix |
| Router.DeleteInside | api-T/index.php:9 | the prefix is deleted wherever it stands, not only at the front |
| Router.PrefixInsidePath | api-T/index.php:8-9 | a copy of the prefix in the middle of a path is deleted too |
| Router.PrefixInsideExample | api-T/index.php:8-20 | `/matrix/api-T/config` reaches the config handler |
| Router.TrimBeforeReplace | api-T/index.php:8-31 | trimming comes first, so `api-T//q` normalises to `/q`, which is not found |
| Router.MountRootNotFound | api-T/index.php:8-31 | the mount root `/api-T/` normalises to `api-T` and is not found |
| Router.SinglePass | api-T/index.php:9 | the scan is one pass: `api-api-T/T/` becomes `api-T/` |
| Router.QueryStringNotFound | api-T/index.php:12-31 | a path holding a query string is never a known route |
| Router.QueryStringExample | api-T/index.php:8-31 | `/api-T/matrix/config?x=1` is not found |
| Router.ReadAfterWrite | api-T/index.php:18-20 | through the router, a successful POST is what the next GET returns, whichever spelling of the route each uses |

## Left out

- File I/O: `file_exists`, `file_get_contents` and `file_put_contents` on the state file become the `Option` store. The data directory set-up in `api-T/config.php` (its constants and `mkdir`) is not modelled.
- The store holds a JSON value. A file whose bytes are not JSON is not modelled; the program echoes such bytes verbatim with 200.
- `time()` is the parameter `now`.
- The byte-level output of `json_encode`, its key order and its escaping are not modelled. Bodies are compared as structured values.
- The request body arrives already decoded. `json_decode` itself is not modelled; a parse failure is `JNull`.
- JSON numbers with a fraction or exponent (PHP floats) are not modelled, nor is the cast of a float.
- Php.IntCast: integers in a body beyond the 64-bit range, which PHP decodes as floats, are not modelled. `JInt` carries any integer and the cast returns it unchanged; Config.Setting inherits this.
- Php.CastUnblanked: states the model's reading (signed leading digits, saturated), so it shares the gaps of Php.StringToInt below for fraction and exponent forms and for digit runs too long for a double.
- Php.StringToInt: does not model the fraction and exponent forms of a numeric string ("1.5", "1e3"). It also does not model digit strings too long for a double, which PHP casts to 0. It reads the signed leading integer only.
- `endpoints/status.php` is not part of this model. The status route answers 200 with a body passed in as a parameter.
- Router.Serve: the URI is a sequence of characters; a URI that is not valid UTF-8 (json_encode fails, empty 404 body) is not modelled.
- Router.NotFoundEchoesPath: the same gap; for a URI that is not valid UTF-8 the program sends an empty body, not the echo.
- Headers are fields of the modelled response. They are not sent.
- Concurrency: two requests racing on the state file are not modelled. Requests are served one at a time.
- The method is a string compared exactly with "GET" and "POST", as `===` does.
