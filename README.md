# FAQ server core in Dafny

This project models the core of a small C++ FAQ web server built on Crow. Visitors
read the published questions and answers, which are stored in a Google spreadsheet.
From the same page they can submit a new question: one per address per cooldown
period, behind a CAPTCHA and a length limit. There is also an administrator session.

The model has four modules, one per source unit, plus `Outcomes`:

- `Outcomes`: the `Option` and `Result` datatypes.
- `Tools` (include/Tools.hpp):
  - the clock with a minute offset;
  - the lowercase hex text of a SHA-256 digest;
  - the time-ordered session identifier (a version-1-style UUID);
  - `std::stoi` with strtol semantics, and `extractInteger` built on it.
- `Security` (include/SecurityManager.hpp): class `SecurityManager`, holding:
  - the session map from token to expiry;
  - the cooldown map from address fingerprint to unlock time;
  - the CAPTCHA verdict.
- `GoogleSheet` (include/GoogleSheetDataAccess.hpp): class `GoogleSheetDataAccess`:
  - decoding the sheet's value matrix into `FAQRow`s, and the validated-row filter;
  - the cached OAuth2 bearer token;
  - the append request that stores a new question.
- `Routes` (main.cpp): the `POST /question` handler, and `populateTemplate`, which
  builds the FAQ page's mustache context.

Nothing external is computed:

- Every clock reading is a parameter in system-clock ticks.
- The random bytes are a parameter.
- The OpenSSL digest is a function given to the `SecurityManager` constructor.
- Each HTTP reply is a parameter: the CAPTCHA provider's, the token endpoint's and
  the spreadsheet's. Each carries the JSON fields the code reads from its body.

Facts the model fixes:

- The clock counts nanoseconds, as libstdc++'s `system_clock` does. A minute is
  therefore 60 000 000 000 ticks.
- A question's `std::string::length()` is the byte count of its UTF-8 encoding.
- `numQuestion + 1` is `unsigned int` arithmetic, so it wraps modulo 2^32.

Behaviour of the code that the model states outright:

- `validateCaptcha` reads the provider's reply without checking for `nullptr`, and
  parses its body outside any `try`. The model's reply is therefore always present
  and well formed.
- `getAll` catches only the two `stoi` exceptions. Indexing a row past its end pads
  it with null, so a missing status column simply reads as "not validated". Turning
  a null cell into `std::string` throws `type_error`, and nothing catches it. That
  happens for an empty row, and for a row whose id parses but that has fewer than
  three cells. `DecodeSheet` and `GetAll` therefore require every data row to avoid
  those cases (`SheetDecodable`).
- `majAccessToken` reads the clock twice: once to test the cached token, and once
  after the token endpoint has answered, to date the new token. Both readings are
  parameters.
- The code comment calls `currentTimestamp` milliseconds. It returns
  `system_clock` ticks.
- main.cpp passes the administrator password "poissword". The constructor's default
  is "poiessword". The model keeps the default, and the password is a constructor
  argument.

## Model

| member | source | states |
|---|---|---|
| Tools.CurrentTimestamp | include/Tools.hpp:54-59 | the clock reading moved by the given minutes; never earlier for a non-negative offset, strictly later for a positive one |
| Tools.CurrentTimestampOffset | include/Tools.hpp:54-59 | the offset is exactly minutes × ticks per minute on top of the plain reading |
| Tools.CurrentTimestampMonotone | include/Tools.hpp:54-59 | more minutes added never gives an earlier timestamp |
| Tools.HexDigitValue | include/Tools.hpp:78-86 | inverse of the hex digit: reading a lowercase hex digit and writing it back gives the same character |
| Tools.HexByte | include/Tools.hpp:82 | `%02x` of a byte: exactly two characters, both lowercase hex digits |
| Tools.Hex | include/Tools.hpp:78-86 | the `%02x` text of a byte sequence has two characters per byte |
| Tools.HexAt | include/Tools.hpp:78-86 | characters 2k and 2k+1 of the text are the two hex digits of byte k |
| Tools.HexIsLowerHex | include/Tools.hpp:78-86 | the text consists of lowercase hex digits only |
| Tools.UnhexHex | include/Tools.hpp:78-86 | round trip: decoding the hex text gives back the bytes |
| Tools.UnhexByteHexByte | include/Tools.hpp:82 | reading back the two digits of a byte, high nibble first, gives the byte |
| Tools.UnhexAppendByte | include/Tools.hpp:78-86 | appending one byte's two digits to a hex text appends that byte to its decoding |
| Tools.HexInjective | include/Tools.hpp:78-86 | distinct byte sequences give distinct hex texts |
| Tools.Sha256Hex | include/Tools.hpp:66-87 | the SHA-256 string is 64 lowercase hex characters |
| Tools.Sha256 | include/Tools.hpp:66-87 | the loop appending one `%02x` per digest byte yields exactly the hex text of the 32-byte digest |
| Tools.Sha256HexShape | include/Tools.hpp:66-87 | 64 lowercase hex characters; characters 2i..2i+1 are the `%02x` of digest byte i; equal strings come only from equal digests |
| Tools.BigEndian | include/Tools.hpp:101-105 | a byte string of length n denotes a number below 256^n |
| Tools.TimestampBytes | include/Tools.hpp:101-105 | the fill loop writes eight bytes, byte i being the clock's byte i from the most significant |
| Tools.TimestampBytesBigEndian | include/Tools.hpp:101-105 | the eight clock bytes, read most significant first, denote the nanosecond count modulo 2^64: its 64-bit two's-complement encoding |
| Tools.UuidBytes | include/Tools.hpp:101-117 | 16 bytes; bytes 0-5 and 7 are the clock's big-endian bytes; the high nibble of byte 6 is the version 1 and the top two bits of byte 8 are the variant 10; bytes 9-15 are random bytes 1-7 |
| Tools.UuidFromTimestamp | include/Tools.hpp:92-132 | the array fill, the version and variant masks and the streaming loop yield the dashed text of the masked 16 bytes |
| Tools.StreamedIsUuidText | include/Tools.hpp:119-131 | writing two hex digits per byte with a dash after bytes 3, 5, 7 and 9 gives groups of 8-4-4-4-12 digits |
| Tools.UuidTextShape | include/Tools.hpp:119-131 | 36 characters; dashes at exactly 8, 13, 18 and 23; lowercase hex everywhere else; characters 14 and 19 are the high nibbles of bytes 6 and 8 |
| Tools.UuidVersionVariant | include/Tools.hpp:111-117 | the version digit is '1' and the variant digit is one of 8, 9, a, b |
| Tools.UuidBytesLayout | include/Tools.hpp:101-117 | bytes 0-7 except 6 are the big-endian clock bytes; byte 6 keeps its low nibble under version 1; byte 8 keeps the low six bits of the first random byte under variant 10; bytes 9-15 are the other random bytes |
| Tools.LeadingSpaces | include/Tools.hpp:171-187 | the white-space prefix `strtol` skips: every character in it is white space and the next is not |
| Tools.LeadingDigits | include/Tools.hpp:171-187 | the longest digit prefix that `strtol` reads |
| Tools.StoiAfterSpaces | include/Tools.hpp:176 | once the white space is skipped, a successful read lies in the `int` range |
| Tools.Stoi | include/Tools.hpp:176 | a successful `stoi` value lies in the `int` range |
| Tools.StoiIntToString | include/Tools.hpp:176 | round trip: white space, a decimal integer, then text not starting with a digit reads back the integer; out_of_range exactly when it does not fit an `int` |
| Tools.StoiNoDigit | include/Tools.hpp:176-181 | text without any digit gives invalid_argument |
| Tools.DigitsValueDecimal | include/Tools.hpp:176 | reading the decimal digits of n gives n |
| Tools.ExtractInteger | include/Tools.hpp:171-187 | 0 when `stoi` throws; otherwise the `stoi` value modulo 2^32 |
| Tools.ExtractIntegerIntToString | include/Tools.hpp:171-187 | for a decimal integer followed by non-digit text: 0 outside the `int` range, the value itself when non-negative, value + 2^32 when negative |
| Tools.ExtractIntegerExamples | include/Tools.hpp:171-187 | "12abc" gives 12, "-1" gives 4294967295, "abc" gives 0 |
| Security.PurgeExpired | include/SecurityManager.hpp:82 | the sessions kept are exactly those whose expiry is not before now, with their expiries unchanged |
| Security.PurgeExpiredTwice | include/SecurityManager.hpp:77-87 | purging at t1 and then at a later t2 equals purging once at t2; in particular `checkToken`'s purge is idempotent |
| Security.SessionWindow | include/SecurityManager.hpp:53-87 | a session issued at t survives a check exactly up to and including t + 30 minutes; a token never issued never passes |
| Security.CanSubmit | include/SecurityManager.hpp:118-120 | allowed when protection is off or no cooldown is recorded; otherwise exactly when the unlock time is reached |
| Security.CooldownWindow | include/SecurityManager.hpp:93-121 | after registering at t with delay d, the address is refused before t + d minutes and allowed from then on; other fingerprints are unaffected |
| Security.SecurityManager.constructor | include/SecurityManager.hpp:25-31 | stores the settings, defaults "oiedmin", "poiessword", 1440 minutes, form hidden, protection on; no sessions and no cooldowns; the fingerprint invariant holds |
| Security.SecurityManager.Fingerprint | include/SecurityManager.hpp:99 | an address is recorded under 64 lowercase hex characters |
| Security.SecurityManager.Valid | include/SecurityManager.hpp:99-101 | the cooldown map is keyed by the fingerprints of exactly the registered addresses, so no key is a raw address: every key is 64 lowercase hex characters |
| Security.SecurityManager.CaptchaQuery | include/SecurityManager.hpp:37 | the verification query is the endpoint path, this server's secret, then the form's token |
| Security.SecurityManager.ValidateCaptcha | include/SecurityManager.hpp:32-46 | false unless the provider answers HTTP 200; with 200, the body's `success` field |
| Security.SecurityManager.Authenticate | include/SecurityManager.hpp:53-71 | a token exactly on an exact login and password match; the token is the uuid text and is recorded with expiry now + 30 minutes; otherwise nothing changes |
| Security.SecurityManager.CheckToken | include/SecurityManager.hpp:77-87 | the session map becomes its purge at now; valid exactly when the token was recorded with an expiry not before now |
| Security.SecurityManager.RegisterIp | include/SecurityManager.hpp:93-103 | with protection on, the fingerprint's unlock time becomes now + delay and nothing else changes; with protection off nothing changes; the map keys stay fingerprints of registered addresses |
| Security.SecurityManager.CheckIp | include/SecurityManager.hpp:110-121 | allowed exactly when protection is off, the fingerprint is absent, or now has reached its unlock time |
| Security.SecurityManager.ShowAskQuestion | include/SecurityManager.hpp:129-132 | the form is shown exactly when the master switch is on and `checkIp` holds; never when the switch is off |
| GoogleSheet.DecodeLine | include/GoogleSheetDataAccess.hpp:114-134 | one row gives at most one `FAQRow`; a missing status column reads as not validated |
| GoogleSheet.DecodeRows | include/GoogleSheetDataAccess.hpp:110-135 | no more rows come out than go in |
| GoogleSheet.DecodeRowsAppend | include/GoogleSheetDataAccess.hpp:110-135 | decoding respects concatenation: order is kept, and one row never affects whether another is kept |
| GoogleSheet.DecodeRowsSource | include/GoogleSheetDataAccess.hpp:110-135 | every decoded row comes from an input row that decodes to it |
| GoogleSheet.DecodeRowsKeeps | include/GoogleSheetDataAccess.hpp:110-135 | what any input row decodes to is in the output, whatever rows surround it |
| GoogleSheet.DecodeRowsKeepsParsed | include/GoogleSheetDataAccess.hpp:114-124 | every line whose id parses gives a returned row: that id, columns 1 and 2, validated exactly when a column 3 exists and is "Validé" |
| GoogleSheet.DecodeRowsFromParsed | include/GoogleSheetDataAccess.hpp:114-124 | every returned row is the row of some line whose id parses |
| GoogleSheet.DecodeRowsMembership | include/GoogleSheetDataAccess.hpp:110-135 | a row is returned exactly when some line's id parses and the row is that line's id, question, answer and status test |
| GoogleSheet.DecodeSheet | include/GoogleSheetDataAccess.hpp:90-142 | `nullopt` exactly for an empty body; an empty list when the value matrix has no data row |
| GoogleSheet.StoiOne | include/GoogleSheetDataAccess.hpp:120 | the id column "1" parses to 1 |
| GoogleSheet.DecodeLinesExample | include/GoogleSheetDataAccess.hpp:114-134 | a row with id "1" and status "Validé" becomes a validated `FAQRow`; a row with id "x" is skipped; a three-cell row with id "1" is kept as not validated; a two-cell row with id "1" is not decodable |
| GoogleSheet.DecodeRowsPair | include/GoogleSheetDataAccess.hpp:110-135 | two decodable lines give what each gives, in order |
| GoogleSheet.DecodeTwoRows | include/GoogleSheetDataAccess.hpp:90-142 | a sheet with a header and two decodable lines gives what the two lines give |
| GoogleSheet.DecodeSheetExample | include/GoogleSheetDataAccess.hpp:90-142 | below the header, those two rows decode to the single row with id 1 |
| GoogleSheet.OnlyValidated | include/GoogleSheetDataAccess.hpp:85 | every row kept is validated, and no rows are added |
| GoogleSheet.OnlyValidatedMembership | include/GoogleSheetDataAccess.hpp:85 | a row is kept exactly when it is present and validated |
| GoogleSheet.OnlyValidatedAppend | include/GoogleSheetDataAccess.hpp:85 | the filter keeps the order: it respects concatenation |
| GoogleSheet.OnlyValidatedIdempotent | include/GoogleSheetDataAccess.hpp:85 | filtering twice equals filtering once |
| GoogleSheet.UnescapeSpaces | include/GoogleSheetDataAccess.hpp:42-43 | the result is never longer than the input; it is empty exactly when the input is; it starts with a space when the input starts with "%20", otherwise with the input's first character |
| GoogleSheet.UnescapeSpacesComplete | include/GoogleSheetDataAccess.hpp:42-43 | no "%20" is left after the replacement |
| GoogleSheet.UnescapeSpacesIdentity | include/GoogleSheetDataAccess.hpp:42-43 | a tab name without "%20" is left unchanged |
| GoogleSheet.UnescapeSpacesSplit | include/GoogleSheetDataAccess.hpp:42-43 | each "%20" becomes exactly one space, and the text before and after it is replaced independently |
| GoogleSheet.UnescapeSpacesIdempotent | include/GoogleSheetDataAccess.hpp:42-43 | replacing twice equals replacing once |
| GoogleSheet.AppendRange | include/GoogleSheetDataAccess.hpp:42-43 | the range is the unescaped tab name, "!" and the cell range |
| GoogleSheet.AppendRangeTab | include/GoogleSheetDataAccess.hpp:42-43 | the tab part holds no "%20"; a tab name without one gives tab + "!" + fields |
| GoogleSheet.NewQuestionRow | include/GoogleSheetDataAccess.hpp:47-48 | six cells: the number, the question, an empty answer, "Rédaction", "Question issue du site", empty |
| GoogleSheet.ValidatedSheet | include/GoogleSheetDataAccess.hpp:77-89 | `nullopt` exactly for an empty body; otherwise only validated rows |
| GoogleSheet.NeedsRefresh | include/GoogleSheetDataAccess.hpp:151 | an empty token always needs a refresh; a non-empty one exactly once the clock reaches its expiry |
| GoogleSheet.AfterRefresh | include/GoogleSheetDataAccess.hpp:148-171 | a token that is fresh and non-empty is kept; an empty reply body keeps the cache; otherwise the new token, expiring 30 minutes after the second clock reading, taken once the endpoint has answered |
| GoogleSheet.RefreshThenReuse | include/GoogleSheetDataAccess.hpp:148-171 | the initial empty cache always refreshes; after a refresh that obtained a token, no call earlier than 30 minutes after the endpoint answered requests another or changes the cache |
| GoogleSheet.GoogleSheetDataAccess.constructor | include/GoogleSheetDataAccess.hpp:25-31 | stores the settings; no token, expiry 0 |
| GoogleSheet.GoogleSheetDataAccess.MajAccessToken | include/GoogleSheetDataAccess.hpp:148-171 | requests a token exactly when the cached one is expired or empty at the first clock reading; the cache becomes that refresh's result, dated by the second reading |
| GoogleSheet.GoogleSheetDataAccess.AppendPath | include/GoogleSheetDataAccess.hpp:54-55 | the path carries the configured tab text as is; for a tab name without "%20" its range segment is the JSON range text |
| GoogleSheet.GoogleSheetDataAccess.CreateQuestion | include/GoogleSheetDataAccess.hpp:33-61 | refreshes the token as `majAccessToken` does, then sends the append of the new row to the raw-tab path, with the unescaped-tab range and the current bearer token; success exactly on HTTP 200 |
| GoogleSheet.GoogleSheetDataAccess.UpdateQuestion | include/GoogleSheetDataAccess.hpp:65-68 | always fails and changes nothing |
| GoogleSheet.GoogleSheetDataAccess.DeleteQuestion | include/GoogleSheetDataAccess.hpp:72-75 | always fails and changes nothing |
| GoogleSheet.GoogleSheetDataAccess.GetAll | include/GoogleSheetDataAccess.hpp:90-142 | the header-dropping, row-skipping loop returns exactly the decoded sheet |
| GoogleSheet.GoogleSheetDataAccess.GetAllValidated | include/GoogleSheetDataAccess.hpp:77-89 | `nullopt` propagates; otherwise the validated rows of the decoded sheet, which is `ValidatedSheet` |
| Routes.CharBytes | main.cpp:115-116 | a character takes one to four UTF-8 bytes, one exactly for ASCII |
| Routes.ByteLength | main.cpp:115-116 | the byte length is 0 exactly for the empty question |
| Routes.ByteLengthAtLeastChars | main.cpp:115-116 | never fewer bytes than characters, so more than 200 characters is always refused |
| Routes.ByteLengthAscii | main.cpp:115-116 | bytes equal characters exactly for ASCII text |
| Routes.NextQuestionNumber | main.cpp:113-118 | the number sent is the extracted count plus one, except that the largest `unsigned int` wraps around to 0, and only it gives 0 |
| Routes.NextQuestionNumberOfCount | main.cpp:113-118 | a rendered count n below `INT_MAX` leads to the number n + 1 |
| Routes.NextQuestionNumberEdgeCases | main.cpp:113-118 | an unreadable count gives 1; "-1" wraps around to 0 |
| Routes.QuestionReply | main.cpp:102-146 | when every test before storage passes, thanks exactly on a stored question and the storage error otherwise; when one fails, one of the three refusals, whatever the storage outcome |
| Routes.QuestionReplyDecides | main.cpp:101-147 | the five answers are pairwise distinct; thanks exactly when all four tests pass; each failure message exactly for its first failing test; never the initial "Erreur." |
| Routes.RepeatQuestionRefused | main.cpp:105-122 | after a stored question registers the address, every submission before the cooldown ends is answered "already asked" |
| Routes.PostQuestion | main.cpp:101-147 | the answer follows the tests in their order; the CAPTCHA provider is asked, with the form's token, exactly when `checkIp` passes; the append is sent exactly when the address, the CAPTCHA and the length pass; the row carries the next number; the token cache changes only then; the cooldown is recorded only after a stored question |
| Routes.TemplateContext | main.cpp:12-31 | the context always holds the CAPTCHA site key, and holds the list exactly when the sheet could be read |
| Routes.TemplateContextKeys | main.cpp:9-35 | the context always holds the CAPTCHA site key; "askQuestion" = "true" exactly when the form is shown; "allQr" and "numQuestion" together, exactly when the sheet was read, the count being the number of rows listed |
| Routes.ListedRowsAreValidated | main.cpp:22-30 | the page lists exactly the validated rows of the decoded sheet |
| Routes.PopulateTemplate | main.cpp:9-35 | the context built from the site key, the `showAskQuestion` verdict and `getAllValidated` |

## Left out

- HTTP is not modelled. The CAPTCHA provider, the token endpoint and the spreadsheet
  enter only as their replies.
- JSON parsing and serialisation are not modelled. The batchGet reply is given as its
  string matrix, and the append body as an `AppendRequest` value.
- The OpenSSL SHA-256 computation is a function parameter, because hashing is not part
  of this program's logic. So is the random engine (`std::mt19937`), which supplies the
  eight random UUID bytes.
- `Tools::JWTToken` is not modelled. The JWT assertion only travels to the token
  endpoint, whose reply is a parameter.
- `Tools::convertToWValue` and `Tools::convertListToWValue` are not modelled. Inside
  `populateTemplate` (main.cpp:28) they turn the listed rows into Crow JSON values;
  the model keeps those rows in the page context as `FAQRow` values.
- `Tools::tokenizeString` is not modelled. It lies on none of the modelled paths.
- Mustache rendering of the page (`crow::mustache::load` and `render`) is not
  modelled. `populateTemplate`'s unused `route` argument is left out.
- SqliteDataAccess.hpp is not part of this model. It is the unused storage variant.
- IDataAccess.hpp is not modelled as its own type. The route works against the
  Google Sheet class that main.cpp binds to the interface.
- FAQRow.hpp is not part of this model. `FAQRow` carries only the four fields the
  sheet fills.
- main.cpp's configuration file parsing, the `/faq` and `/dynamic` routes
  (`/dynamic` loads a shared library) and server start-up are not modelled.
  `/faq` is a direct call of `populateTemplate`.
- Console logging is not modelled.
- Concurrency is not modelled. The server runs multithreaded over unsynchronised maps,
  and the model runs one handler at a time.
- Tools.CurrentTimestamp: does not model `int64_t` overflow. Timestamps are unbounded
  integers.
- Security.SecurityManager.ValidateCaptcha: does not model a missing reply (a null
  `res`) or a body without a boolean `success`. In the source the first is undefined
  behaviour and the second throws.
- GoogleSheet.GoogleSheetDataAccess.MajAccessToken: does not model a missing reply
  (the source dereferences `res` without a `nullptr` check at line 162), nor a reply
  body that is not JSON or lacks `access_token`, a case in which the source throws.
- GoogleSheet.DecodeSheet: requires every data row to be decodable. An empty row,
  or a row whose id parses but that has fewer than three cells, makes the source
  convert a null cell to `std::string`, which throws an uncaught `type_error`. So
  does a cell that is not a string. Such rows are outside the model.
- GoogleSheet.GoogleSheetDataAccess.CreateQuestion: does not model a missing reply.
  The source dereferences `res` without a `nullptr` check (line 57), as `getAll`
  does (line 96).
- GoogleSheet.GoogleSheetDataAccess.GetAll: does not model a non-empty batchGet body
  that is not JSON. There `json::parse` throws, where the model returns `Some`.
- GoogleSheet.GoogleSheetDataAccess.AppendPath: the server's percent-decoding of the
  URL path is not modelled. The model states the path text, not the cells it names.
- Routes.PostQuestion: a body parameter missing from the form is not modelled. In the
  source, Crow returns `nullptr`, which is then turned into a `std::string`. The
  form is a value with its three fields.
- Routes.ByteLength: counts UTF-8 bytes of Unicode scalar values. Invalid byte
  sequences in the request body are not modelled.
