# rust-iss data collector: a Dafny model of its deterministic core

The `rust-iss` service polls NASA and ISS endpoints, stores what it gets in
PostgreSQL, and answers HTTP requests with a JSON envelope. Most of it is
I/O. This project models the four deterministic pieces inside that I/O and
proves what they promise:

- **OSDR ingestion** (`pick.dfy`, `osdr.dfy`).
  - `s_pick` and `t_pick` take a value from the first qualifying key of a priority list.
  - The fetched document is normalised into a list of items.
  - `fetch_and_store_osdr` writes every item into the `osdr_items` table: an upsert keyed by `dataset_id` when the item has an id, a plain insert when it has none.
  - The table is a class. Its invariant is the partial unique index: at most one row per non-null `dataset_id`.
- **Source refresh** (`space.dfy`). `space_refresh` splits the `src` list on commas, trims and lower-cases each piece, and handles the five known sources in request order.
- **Error and success envelope** (`errors.dfy`). This covers the `ApiError` codes and conversions, `Display`, the HTTP-200 response, and `ApiSuccess`/`ok`.
- **Configuration** (`config.dfy`). `Config::from_env` is modelled over an environment map, together with `parse_env_u64`.

Supporting modules:

- `wrappers.dfy`: Option and Result.
- `decimal.dfy`: decimal text and `u64::from_str`.
- `json.dfy`: the part of `serde_json::Value` the code inspects.

Outside inputs become parameters:

- The fresh UUID of a `trace_id` is a `traceId` string.
- chrono's two date parsers and `timestamp_opt` are the oracle record `DateParsers`. The first parser, `dateTimeFromStr`, is chrono's `FromStr` for `DateTime<Utc>`, a relaxed RFC 3339 reader.
- The database clock is `stamps(k)`, the `now()` of the k-th write.
- The database's answer to the k-th write is `dbFailure(k)`.
- An HTTP exchange is an `OsdrFetch` value.
- The answers of the `space_refresh` fetchers are a function `fetch`. The handler discards them; the model returns them in call order, so that which fetchers run, and in what order, is part of the contract.

## Model

| member | source | states |
|---|---|---|
| Decimal.ParseU64 | Practica_4/services/rust-iss/src/config.rs:48 | a text parses exactly when it is an optional '+' followed by at least one digit whose value fits in 64 bits, leading zeros allowed; the result is the value of those digits; a parsed text never starts with '-' |
| Decimal.ParseU64OfDecimal | Practica_4/services/rust-iss/src/config.rs:48 | every u64 written in decimal, with or without a leading '+', parses back to itself |
| Decimal.ParseU64Rejects | Practica_4/services/rust-iss/src/config.rs:48 | these are rejected: "", "+", anything starting with '-', anything with a non-digit after the optional '+', and digit strings above 2^64 - 1 |
| Decimal.DecimalTextValue | Practica_4/services/rust-iss/src/errors.rs:41 | the decimal text of n reads back as n |
| Decimal.DecimalText | Practica_4/services/rust-iss/src/errors.rs:41 | the text is non-empty, all digits, and has no leading zero unless the number is 0 |
| Decimal.DecimalTextInjective | Practica_4/services/rust-iss/src/errors.rs:41 | distinct numbers have distinct decimal texts |
| Json.Get | Practica_4/services/rust-iss/src/main.rs:649 | `get` yields a member exactly when the value is an object holding that key, and then it yields that member |
| Json.AsI64 | Practica_4/services/rust-iss/src/main.rs:672 | `as_i64` is None for floats and for integers above i64::MAX, and otherwise returns the integer |
| Json.NumberText | Practica_4/services/rust-iss/src/main.rs:655 | an unsigned integer is written as canonical decimal: digits only, denoting the number, with no leading zero unless it is 0; a negative one is '-' followed by the canonical decimal of its magnitude; a float is its own text |
| Json.NumberTextParses | Practica_4/services/rust-iss/src/main.rs:655 | an integer's text reads back through `u64::from_str`: a non-negative one as the whole text; a negative one starts with '-' and the rest reads back as its magnitude |
| Errors.ApiError.New | Practica_4/services/rust-iss/src/errors.rs:25-34 | `ok` is false; code, message and trace id are stored unchanged |
| Errors.ApiError.Database | Practica_4/services/rust-iss/src/errors.rs:36-38 | code DATABASE_ERROR, message unchanged, `ok` false |
| Errors.ApiError.Upstream | Practica_4/services/rust-iss/src/errors.rs:40-42 | the code is exactly "UPSTREAM_" followed by the status in decimal; message and trace id unchanged; `ok` false |
| Errors.UpstreamCodeReadsBack | Practica_4/services/rust-iss/src/errors.rs:40-42 | what follows "UPSTREAM_" in an upstream code parses back to the status |
| Errors.ApiError.NotFound | Practica_4/services/rust-iss/src/errors.rs:44-46 | code NOT_FOUND, message unchanged, `ok` false |
| Errors.ApiError.Internal | Practica_4/services/rust-iss/src/errors.rs:48-50 | code INTERNAL_ERROR, message unchanged, `ok` false |
| Errors.ApiError.Validation | Practica_4/services/rust-iss/src/errors.rs:52-54 | code VALIDATION_ERROR, message unchanged, `ok` false |
| Errors.UpstreamCodesDistinct | Practica_4/services/rust-iss/src/errors.rs:40-42 | distinct statuses give distinct upstream codes |
| Errors.UpstreamCodesNotFixed | Practica_4/services/rust-iss/src/errors.rs:36-54 | no upstream code equals one of the four fixed codes |
| Errors.ApiError.Display | Practica_4/services/rust-iss/src/errors.rs:57-65 | the text starts with "ApiError[" and ends with ')' |
| Errors.DisplayRoundTrip | Practica_4/services/rust-iss/src/errors.rs:57-65 | for a code without ']' and a trace id without '(', reading the display text back gives the same code, message and trace id; the message may hold any character |
| Errors.ApiError.ToJson | Practica_4/services/rust-iss/src/errors.rs:11-22 | the serialized error carries its `ok` flag under "ok" |
| Errors.ApiError.IntoResponse | Practica_4/services/rust-iss/src/errors.rs:69-74 | every error is answered with HTTP 200, and its body is the serialized error |
| Errors.ResponseBodyRoundTrip | Practica_4/services/rust-iss/src/errors.rs:69-74 | the status is 200, and decoding the response body gives back the same error (flag, code, message, trace id) |
| Errors.ApiError.FromDbError | Practica_4/services/rust-iss/src/errors.rs:77-82 | a database error becomes DATABASE_ERROR carrying the error's text |
| Errors.ApiError.FromClientError | Practica_4/services/rust-iss/src/errors.rs:85-95 | with a status, the result is exactly `upstream(status, text)`; without one, it is INTERNAL_ERROR with "HTTP client error: " before the text |
| Errors.ApiError.FromAnyError | Practica_4/services/rust-iss/src/errors.rs:98-103 | a generic error becomes INTERNAL_ERROR carrying the error's text |
| Errors.ApiSuccess.New | Practica_4/services/rust-iss/src/errors.rs:113-117 | `ok` is true and the data is stored unchanged |
| Errors.OkResult | Practica_4/services/rust-iss/src/errors.rs:122-125 | `ok(data)` is a success with `ok` true holding the data |
| Errors.OkFlagSeparates | Practica_4/services/rust-iss/src/errors.rs:9-15 | an error and a success always differ in `ok`, and an error's response body says "ok": false |
| Config.ParseEnvU64 | Practica_4/services/rust-iss/src/config.rs:45-50 | the default when the key is unset or its value does not parse; otherwise the parsed value |
| Config.ParseEnvU64Fallback | Practica_4/services/rust-iss/src/config.rs:45-50 | these values fall back to the default: empty, leading '-', a non-digit, above 2^64 - 1 |
| Config.ParseEnvU64Reads | Practica_4/services/rust-iss/src/config.rs:45-50 | a value made of digits, with or without a leading '+', gives the value of those digits when it fits in 64 bits; leading zeros are allowed ("0600" gives 600) |
| Config.VarOr | Practica_4/services/rust-iss/src/config.rs:24-33 | a set variable is taken verbatim; an unset one gives the default |
| Config.FromEnv | Practica_4/services/rust-iss/src/config.rs:18-42 | it fails exactly when DATABASE_URL is unset, with "DATABASE_URL is required"; on success `database_url` is that variable's value |
| Config.FromEnvDefaults | Practica_4/services/rust-iss/src/config.rs:18-42 | with only DATABASE_URL set, the result is the full configuration of defaults |
| Config.FromEnvStringSettings | Practica_4/services/rust-iss/src/config.rs:24-33 | NASA_API_URL, NASA_API_KEY and WHERE_ISS_URL are taken verbatim when set; otherwise they are the fixed URLs and "" |
| Config.FromEnvIntervalDefaults | Practica_4/services/rust-iss/src/config.rs:35-40 | an unset or unparsable interval is 600, 120, 43200, 7200, 3600 or 3600 respectively |
| Config.FromEnvIntervalsParsed | Practica_4/services/rust-iss/src/config.rs:35-40 | an interval variable that `u64::from_str` accepts is used as its value |
| Config.FromEnvFetchInterval | Practica_4/services/rust-iss/src/config.rs:35 | a digit string set for FETCH_EVERY_SECONDS, with or without '+', is the sync interval ("30" gives 30) |
| Config.FieldsDependOnOwnVariable | Practica_4/services/rust-iss/src/config.rs:21-40 | two environments that agree on a field's variable agree on that field |
| Pick.StrCandidate | Practica_4/services/rust-iss/src/main.rs:649-656 | a non-empty string yields itself; a number yields its `to_string` text; null, a bool, an array, an object and "" yield nothing |
| Pick.KeyCandidate | Practica_4/services/rust-iss/src/main.rs:649-656 | an absent key, or a document that is no object, gives None; otherwise the candidate of the value under the key |
| Pick.SPick | Practica_4/services/rust-iss/src/main.rs:647-660 | the result is the candidate of the earliest key that has one; it is None exactly when no key has one; it is never "" |
| Pick.SPickSkips | Practica_4/services/rust-iss/src/main.rs:649-656 | a key that is absent or holds null, a bool, an array, an object or "" is passed over |
| Pick.SPickNonObject | Practica_4/services/rust-iss/src/main.rs:659 | a value that is not an object yields None for any keys |
| Pick.SPickNumberText | Practica_4/services/rust-iss/src/main.rs:654-656 | an unsigned integer at the first key is returned as text that parses back to it |
| Pick.SPickNegativeNumberText | Practica_4/services/rust-iss/src/main.rs:654-656 | a negative integer at the first key is returned as '-' followed by text that parses back to its magnitude |
| Pick.SPickFirstString | Practica_4/services/rust-iss/src/main.rs:650-652 | a non-empty string at the first key is the result, whatever later keys hold |
| Pick.TimeProbe | Practica_4/services/rust-iss/src/main.rs:665-675 | a value stops the search exactly when it is a string that one of the two date parsers accepts, or an integer that fits in i64; the first parser is tried first; a string stops only with a parsed date; an integer stops with the timestamp conversion's answer |
| Pick.KeyProbe | Practica_4/services/rust-iss/src/main.rs:664-675 | an absent key, or a document that is no object, goes on; otherwise the value under the key decides |
| Pick.TPick | Practica_4/services/rust-iss/src/main.rs:662-678 | the result comes from the earliest key that stops the search; it is None when no key stops it |
| Pick.TPickIntegerStops | Practica_4/services/rust-iss/src/main.rs:672-673 | an i64 integer ends the search with the timestamp conversion's answer (None when out of range); later keys are never tried |
| Pick.TPickUnparsableFallsThrough | Practica_4/services/rust-iss/src/main.rs:665-671 | a string that neither date format accepts falls through to the next key |
| Pick.TPickNonI64FallsThrough | Practica_4/services/rust-iss/src/main.rs:672-675 | a float, or an integer above i64::MAX, falls through to the next key |
| Osdr.ArrayAt | Practica_4/services/rust-iss/src/main.rs:714-716 | an array is found under a key exactly when the document is an object holding an array there, and the result is that array's elements |
| Osdr.NormaliseItems | Practica_4/services/rust-iss/src/main.rs:712-720 | the item list is empty only if the document is [] or its chosen `items`/`results` array is empty |
| Osdr.NormaliseItemsArray | Practica_4/services/rust-iss/src/main.rs:714 | a document with an `items` array yields exactly that array's elements, in order |
| Osdr.NormaliseResultsArray | Practica_4/services/rust-iss/src/main.rs:716 | without an `items` array, a `results` array yields exactly its elements, in order |
| Osdr.NormalisePrecedence | Practica_4/services/rust-iss/src/main.rs:712-720 | precedence: a top-level array, then `items`, then `results`, then the document alone |
| Osdr.NormaliseScalar | Practica_4/services/rust-iss/src/main.rs:718-720 | a document that is neither array nor object is a list of one item: itself |
| Osdr.ItemFields | Practica_4/services/rust-iss/src/main.rs:725-734 | dataset_id, title and status are `s_pick` over their own key lists, updated_at is `t_pick` over its list, and `raw` is the item itself; a picked id is never empty |
| Osdr.ItemFieldsFromOwnKeys | Practica_4/services/rust-iss/src/main.rs:725-734 | a non-empty string under "dataset_id", "title" or "status" fills exactly that column, and a value under "updated" that stops `t_pick` decides updated_at |
| Osdr.ItemsFields | Practica_4/services/rust-iss/src/main.rs:724-734 | there is one set of columns per item, in item order |
| Osdr.UniqueDatasetIdsPairwise | Practica_4/services/rust-iss/src/main.rs:122-124 | the index read both ways: two rows holding the same non-null id are the same row |
| Osdr.RowOf | Practica_4/services/rust-iss/src/main.rs:122-124 | the found row holds the id and no earlier row does; None exactly when no row holds it |
| Osdr.RowOfUnique | Practica_4/services/rust-iss/src/main.rs:122-124 | under the unique index, any row holding the id is the one found |
| Osdr.Upserted | Practica_4/services/rust-iss/src/main.rs:737-750 | the table keeps its size exactly when the id is already present; otherwise one row is added, with the drawn serial, the id and the write's `now()` |
| Osdr.Inserted | Practica_4/services/rust-iss/src/main.rs:752-762 | the old rows are kept as a prefix, and the one row added holds the drawn serial, a null id, the item's title, status, updated_at and raw, and the write's `now()` |
| Osdr.Written | Practica_4/services/rust-iss/src/main.rs:736-763 | a write adds at most one row |
| Osdr.WrittenKeepsKeys | Practica_4/services/rust-iss/src/main.rs:736-763 | a write never changes an existing row's id, dataset_id or inserted_at; a row it adds carries the drawn serial, the item's id and the write's `now()` |
| Osdr.Replay | Practica_4/services/rust-iss/src/main.rs:724-766 | after the writes the table has at least its old rows and at most one more row per item |
| Osdr.ReplayKeepsKeys | Practica_4/services/rust-iss/src/main.rs:724-766 | however the writes go, each existing row keeps its id, dataset_id and inserted_at |
| Osdr.UpsertOverwrites | Practica_4/services/rust-iss/src/main.rs:737-750 | a repeated id overwrites title, status, updated_at and raw of its row; id, serial, inserted_at and every other row stay |
| Osdr.InsertAppends | Practica_4/services/rust-iss/src/main.rs:752-762 | an item without an id always appends its full row with a null id, leaving existing rows untouched |
| Osdr.UpsertNewAppends | Practica_4/services/rust-iss/src/main.rs:737-750 | an id not yet in the table appends its full row after the old rows, which stay exactly as they were |
| Osdr.WrittenKeepsUnique | Practica_4/services/rust-iss/src/main.rs:736-763 | each write keeps at most one row per non-null id |
| Osdr.WrittenSetsKey | Practica_4/services/rust-iss/src/main.rs:737-750 | after a keyed write, the row for that id holds the write's values |
| Osdr.WrittenKeepsOtherKey | Practica_4/services/rust-iss/src/main.rs:736-763 | a write for another id, or without one, leaves the row for an id in place and unchanged |
| Osdr.ReplayStep | Practica_4/services/rust-iss/src/main.rs:724-766 | replaying one more item applies that item's write to the table |
| Osdr.ReplayKeepsUnique | Practica_4/services/rust-iss/src/main.rs:724-766 | after any sequence of writes there is at most one row per non-null id |
| Osdr.WrittenKeepsRowHolds | Practica_4/services/rust-iss/src/main.rs:736-763 | a write for another id, or without one, keeps what the row for an id holds |
| Osdr.ReplayLastSets | Practica_4/services/rust-iss/src/main.rs:724-766 | when the last write is for an id, that id's row ends up holding the write's values |
| Osdr.LastWriteWins | Practica_4/services/rust-iss/src/main.rs:724-766 | the row for an id holds the values of the last item that carried that id |
| Osdr.OsdrTable.constructor | Practica_4/services/rust-iss/src/main.rs:108-127 | the new table is empty, its serial sequence starts at 1, and the invariant holds |
| Osdr.OsdrTable.Upsert | Practica_4/services/rust-iss/src/main.rs:737-750 | the rows become the keyed write applied to the old rows; one serial is drawn; the invariant is kept |
| Osdr.OsdrTable.Insert | Practica_4/services/rust-iss/src/main.rs:752-762 | the rows become the old rows plus one new row with a null id; one serial is drawn; the invariant is kept |
| Osdr.OsdrTable.Write | Practica_4/services/rust-iss/src/main.rs:736-763 | the item's write, keyed or plain as it has an id or not, is applied to the rows; one serial is drawn; the invariant is kept |
| Osdr.OsdrDocument | Practica_4/services/rust-iss/src/main.rs:698-711 | a document, the decoded body, is returned exactly when the status is 2xx and the body decoded; a send failure or a body that does not decode gives that client error's conversion; a non-2xx status gives `upstream(status, "OSDR request failed: " + status text)` |
| Osdr.WriteNext | Practica_4/services/rust-iss/src/main.rs:724-766 | one pass of the write loop moves the table from the replay of the first k items to that of the first k + 1, drawing one serial |
| Osdr.WriteItems | Practica_4/services/rust-iss/src/main.rs:722-768 | on success, `written` equals the number of items, the table is every item's write in order, and one serial was drawn per item; the first failing write ends the loop with DATABASE_ERROR, keeping the rows already written and the serials they drew |
| Osdr.FetchAndStoreOsdr | Practica_4/services/rust-iss/src/main.rs:697-768 | an HTTP or decode failure returns its error with the rows and the serial sequence untouched; otherwise the normalised items are written as WriteItems states; the invariant is kept |
| Space.Split | Practica_4/services/rust-iss/src/main.rs:452 | there is at least one piece, and no piece contains a comma |
| Space.JoinSplit | Practica_4/services/rust-iss/src/main.rs:452 | joining the pieces with commas gives back the original text |
| Space.SplitJoin | Practica_4/services/rust-iss/src/main.rs:452 | comma-free pieces, joined and split again, come back unchanged |
| Space.TrimStart | Practica_4/services/rust-iss/src/main.rs:452 | the result is a suffix; everything dropped is white space; the result does not start with white space |
| Space.TrimEnd | Practica_4/services/rust-iss/src/main.rs:452 | the result is a prefix; everything dropped is white space; the result does not end with white space |
| Space.Trim | Practica_4/services/rust-iss/src/main.rs:452 | the result neither starts nor ends with white space, and it is empty exactly when the piece is all white space |
| Space.TrimPadding | Practica_4/services/rust-iss/src/main.rs:452 | trimming removes exactly the white space around a piece and nothing inside it |
| Space.LowerChar | Practica_4/services/rust-iss/src/main.rs:452 | a capital A-Z becomes the small letter at the same place in the alphabet, the Kelvin sign becomes 'k', and any other character is left alone |
| Space.ToLower | Practica_4/services/rust-iss/src/main.rs:452 | the result has the same length, and each character is lower-cased on its own |
| Space.NormaliseIgnoresPaddingAndCase | Practica_4/services/rust-iss/src/main.rs:452 | a word padded with white space normalises to the word in lower case |
| Space.NormaliseAnyCase | Practica_4/services/rust-iss/src/main.rs:452-475 | a known name in any mix of capitals and small letters, padded with white space (" APOD ", "Neo"), normalises to that name |
| Space.IsKnown | Practica_4/services/rust-iss/src/main.rs:453-475 | the match arms are exactly the five known names |
| Space.NormalisePiece | Practica_4/services/rust-iss/src/main.rs:452 | the piece comes out trimmed and lower-cased |
| Space.Kept | Practica_4/services/rust-iss/src/main.rs:452-476 | no more names than pieces, and every name kept is one of the five |
| Space.Recognised | Practica_4/services/rust-iss/src/main.rs:452-476 | no more names than pieces, and every name reported is one of the five |
| Space.KeptStep | Practica_4/services/rust-iss/src/main.rs:452-476 | one more piece adds its name if known, and nothing otherwise |
| Space.RecognisedAppend | Practica_4/services/rust-iss/src/main.rs:452-476 | the names for two lists in a row are the names of each list, concatenated: order and duplicates are kept |
| Space.KeptMembers | Practica_4/services/rust-iss/src/main.rs:452-476 | a name is reported exactly when it is among the normalised pieces and is one of the five |
| Space.RecognisedMembers | Practica_4/services/rust-iss/src/main.rs:452-476 | only the five known names are reported, and each known name that some piece normalises to is reported |
| Space.RecognisedSingle | Practica_4/services/rust-iss/src/main.rs:452-476 | one piece reports its normalised name if known, and nothing otherwise |
| Space.KeptKnownNames | Practica_4/services/rust-iss/src/main.rs:452-476 | a list of known names is reported as it is |
| Space.DefaultSplit | Practica_4/services/rust-iss/src/main.rs:445-448 | the default list splits into apod, neo, flr, cme, spacex |
| Space.KnownNormalised | Practica_4/services/rust-iss/src/main.rs:452 | each known name is its own normal form |
| Space.DefaultRefreshesAll | Practica_4/services/rust-iss/src/main.rs:441-479 | without `src`, all five sources are refreshed, in the default order |
| Space.SourceList | Practica_4/services/rust-iss/src/main.rs:445-448 | `src` when the query has it, the default list otherwise |
| Space.RefreshedBody | Practica_4/services/rust-iss/src/main.rs:478 | the answer is an object whose only key is "refreshed", holding an array of the names as strings, in order |
| Space.RefreshedBodyRoundTrip | Practica_4/services/rust-iss/src/main.rs:478 | the names can be read back from the "refreshed" array of the answer, in order |
| Space.AnswersOfAppend | Practica_4/services/rust-iss/src/main.rs:452-476 | answers recorded for two runs of names, one after the other, are the answers for the joined run |
| Space.Dispatch | Practica_4/services/rust-iss/src/main.rs:453-475 | a known name is pushed and its own fetcher is called, its answer recorded and discarded; anything else pushes nothing and calls no fetcher |
| Space.HandlePieces | Practica_4/services/rust-iss/src/main.rs:452-476 | the names pushed are the known names among the normalised pieces, in order, and the answers recorded are those of exactly those names' fetchers, in the same order |
| Space.SpaceRefresh | Practica_4/services/rust-iss/src/main.rs:441-479 | the fetchers called, in order, are those of the known names among the normalised pieces of `src` (or of the default list); the answer is always a success reporting those names, whatever the fetches returned |

## Left out

- I/O is outside the model: HTTP requests and timeouts, SQL execution, the tokio background loops and the router. Each reaches the model only as a parameter: an `OsdrFetch` value, the `dbFailure` and `stamps` functions, and the discarded `fetch` answers.
- `haversine_km`, `extract_number` and the `iss_trend` arithmetic are floating-point numerics and are not modelled. The same goes for `last_days`, `write_cache`, `last_iss`, `space_latest`, `latest_from_cache`, `space_summary`, `fetch_and_store_iss` and the individual source fetchers.
- The telemetry generator (Python) is random float generation and file and database I/O, and is not part of this model.
- Pick.TPick: chrono's `FromStr` for `DateTime<Utc>` (relaxed RFC 3339), the "%Y-%m-%d %H:%M:%S" grammar and `timestamp_opt` are abstract oracles. The model fixes only the order in which they are tried and what each answer decides.
- Json.NumberText: a float's exact text (serde_json's shortest round-trip formatting) is an arbitrary non-empty string.
- Errors.ApiError.New: the UUID v4 `trace_id` is a parameter, not a random value.
- Errors.DisplayRoundTrip: the read-back needs a trace id without '('. The UUIDs `New` draws never hold one; a caller-built error with such a trace id is outside the lemma.
- Errors.ApiError.FromDbError: the `tracing::error!` log lines of the three `From` conversions (errors.rs:79, 87, 100) are output only and are not modelled; the same holds for FromClientError and FromAnyError.
- Errors.ApiSuccess.New: the `#[serde(flatten)]` serialization of the data beside `ok` is not modelled, only the flag and the data.
- Space.LowerChar: `to_lowercase` is modelled for ASCII capitals and the Kelvin sign; every other character is kept as it is. Apart from those, only U+0130 has a lower case holding an ASCII letter ("i" followed by U+0307), and U+0307 is no letter of a known name, so a piece holding U+0130 matches no name in either case. Whether a piece matches one of the five names is therefore decided as in Rust, but the lower-cased text of other pieces is not.
- Config.FromEnv: a variable whose value is not valid Unicode (`VarError::NotUnicode`) is treated as unset only in Rust. The environment here maps names to strings, so that case does not arise.
- Osdr.WriteItems: `written` is a `usize` in Rust. The model counts with an unbounded natural, so it does not model overflow, which would need more items than memory can hold.
- Osdr.OsdrTable.Upsert: a write that fails may still consume a serial number in PostgreSQL; the model draws no serial for a failing write. The sync runs again on the same table, from the background loop (main.rs:157-161) and from the sync handler (main.rs:369), so after a failure the model's serials can run behind the database's.
- Osdr.FetchAndStoreOsdr: the model gives `ON CONFLICT (dataset_id)` its intended upsert meaning against the partial unique index `ux_osdr_dataset_id` (main.rs:122-124). PostgreSQL may refuse to infer a partial index without a matching `WHERE dataset_id IS NOT NULL` in the conflict target. If it does, every keyed write fails at run time; in the model that is a `dbFailure` on every keyed item. This possible runtime issue is flagged, not verified.
