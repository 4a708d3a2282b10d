# URL shortener service — a Dafny model

This project models the core of the Go URL-shortening service
`github.com/gsk148/urlShorteningService`. The service turns a long URL into
a seven-character code. The code is the MD5 digest of the URL, encoded in
unpadded base64url and cut to its first seven characters. The service hands
out `BaseURL + "/" + code` and redirects that link to the original URL. It
has an HTTP API and a gRPC API, and three storage backends behind one
interface:

- an in-memory map;
- a map mirrored into a newline-delimited JSON file;
- a PostgreSQL table whose rows are soft-deleted.

The modules follow the repository's packages:

| module | file | models |
|---|---|---|
| `Results` | results.dfy | `Option` and `Result`, the Go `(value, err)` pairs |
| `Bytes` | bytes.dfy | octets, the unit of the digest and of the storage file |
| `Base64Url` | base64url.dfy | the unpadded base64url encoding of section 5 of RFC 4648, with a decoder for the round trip |
| `HashUtil` | hashutil.dfy | `hashutil.Encode`; MD5 is a function parameter |
| `Ascii` | ascii.dfy | the ASCII lower-casing behind `metadata.MD.Get` and the content-type middleware |
| `Records` | records.dfy | `api.ShortenedData`, `api.Statistic`, the batch items and the backend errors |
| `MemoryStorage` | memory.dfy | `InMemoryStorage` |
| `LineLog` | lines.dfy | how `bufio.Scanner` splits a file's bytes into lines, and what a write without truncation leaves behind |
| `FileStorage` | file.dfy | `FileStorage`: start-up replay, write-through `Store`, the stub methods |
| `DatabaseStorage` | database.dfy | `DBStorage`: the `shortener` table as a sequence of rows under its two uniqueness constraints |
| `Config` | config.dfy | `config.Load`: flags, then environment, then the JSON file |
| `StorageFactory` | storage.dfy | `NewStorage` and the `Storage` interface, as a record of functions over a backend state |
| `Http` | http.dfy | the `net/http` response-writer rules the handlers rely on |
| `Handlers` | handlers.dfy | the HTTP handlers |
| `GrpcService` | grpc.dfy | the gRPC `ShortenerService` |

The handlers and the RPCs are generic over the backend state `S`. The
interface is the record `StorageFactory.Storage<S>`, and
`StorageFactory.Db` binds it to the database backend with a healthy
connection, and `StorageFactory.FileBackend` to the file backend. End-to-end properties, such as "shorten, then follow the link"
or "delete, then follow the link", are proved over `Db`.

`internal/app/grpc/main.go` repeats the service of
`internal/app/grpchandlers/grpchandlers.go` line for line. The same members
model both files:

- `BatchShortenAPI`: main.go:38-50;
- `DeleteURLs`: main.go:52-67;
- `FindByShortLink`: main.go:69-81;
- `FindUserURLS`: main.go:83-96;
- `GetStats`: main.go:98-104;
- `Ping`: main.go:106-109;
- `ShortenAPI`: main.go:111-135;
- `Shorten`: main.go:137-165;
- the conversions: main.go:192-238;
- `getUserIDFromMD` and `GetMetadataValue`: main.go:240-265.

The table below cites the grpchandlers.go lines.

Two behaviours of the code are worth stating up front:

- **Delete that matches no row.** `DeleteByUserIDAndShort` returns the
  error of `RowsAffected`, which is nil when no row matches
  (database.go:162-165); see `DatabaseStorage.NonOwnerDeleteIsSilentNoOp`.
- **The storage snapshot.** `storage.go` declares a three-field record and a
  four-method interface, and `memory.go` stores strings. The other backends
  and the handlers use the five-field `api.ShortenedData` and a larger
  interface. The model uses the larger interface and the five-field
  record. It keeps the memory map generic in its value type.

## Model

| member | source | states |
|---|---|---|
| Base64Url.Digit | internal/app/hashutil/hashutil.go:11 | every 6-bit value is written as a character of the URL- and filename-safe alphabet (RFC 4648, table 2) |
| Base64Url.Value | internal/app/hashutil/hashutil.go:11 | a character has a 6-bit value exactly when it belongs to that alphabet |
| Base64Url.ValueOfDigit | internal/app/hashutil/hashutil.go:11 | the value of the digit of v is v, so no two values share a character |
| Base64Url.DigitInjective | internal/app/hashutil/hashutil.go:11 | two values have the same digit if and only if they are equal |
| Base64Url.EncodeRaw | internal/app/hashutil/hashutil.go:11 | the unpadded encoding of n bytes has (4n+2)/3 characters, all URL-safe; a 16-byte digest gives 22 |
| Base64Url.DecodeQuad | internal/app/hashutil/hashutil.go:11 | the four characters of one complete 3-byte group decode to exactly those three bytes |
| Base64Url.DecodeTailOf | internal/app/hashutil/hashutil.go:11 | the two or three characters of a final one- or two-byte group decode back to those bytes, the unused low bits being zero |
| Base64Url.DecodeGroupStep | internal/app/hashutil/hashutil.go:11 | a leading complete group does not disturb the decoding of what follows it |
| Base64Url.DecodeEncode | internal/app/hashutil/hashutil.go:11 | decoding the encoding of any byte string gives that byte string back, so no information is lost before the cut |
| HashUtil.Code | internal/app/hashutil/hashutil.go:11-12 | the code of a digest is exactly seven URL-safe characters |
| HashUtil.Encode | internal/app/hashutil/hashutil.go:9-13 | `Encode` is total, the empty input included; its result is seven URL-safe characters and depends only on the MD5 digest of the input |
| HashUtil.CodeIsDigits | internal/app/hashutil/hashutil.go:11-12 | character i of the code is the digit of the i-th 6-bit group of the digest |
| HashUtil.SextetsDetermineBits | internal/app/hashutil/hashutil.go:11-12 | the seven 6-bit groups agree if and only if the digests agree on their first 42 bits |
| HashUtil.CodeDeterminedBy42Bits | internal/app/hashutil/hashutil.go:11-12 | two digests give the same code if and only if they agree on the first five bytes and on the top two bits of the sixth |
| HashUtil.EncodeDependsOnDigestPrefix | internal/app/hashutil/hashutil.go:9-13 | inputs whose digests share their first six bytes get the same code, so collisions between different URLs are possible |
| Ascii.LowerChar | internal/app/grpchandlers/grpchandlers.go:224 | an upper-case ASCII letter becomes its lower-case letter; every other character is kept |
| Ascii.Lower | internal/app/grpchandlers/grpchandlers.go:224 | lower-casing keeps the length and lower-cases each character in place |
| Records.NewRecord | internal/app/handlers/handlers.go:104-109 | the record a shortening request stores carries the caller, the fresh UUID, the URL, the seven-character code of that URL, and is not deleted |
| MemoryStorage.New | internal/app/storage/memory.go:9-13 | a new storage holds no key |
| MemoryStorage.Store | internal/app/storage/memory.go:15-18 | storing never fails; afterwards the key holds the value, one key is added at most, and every other key keeps its value |
| MemoryStorage.Get | internal/app/storage/memory.go:20-26 | a lookup succeeds exactly for a stored key and returns its value; otherwise the error reads "key not found: " followed by the key |
| MemoryStorage.GetAfterStore | internal/app/storage/memory.go:15-26 | a stored value is read back unchanged |
| MemoryStorage.StoreFrame | internal/app/storage/memory.go:15-26 | storing under one key does not change what any other key reads |
| MemoryStorage.StoreLastWriteWins | internal/app/storage/memory.go:15-18 | storing twice under one key is the same as storing only the second value |
| MemoryStorage.GetFromNew | internal/app/storage/memory.go:9-26 | a new storage answers every lookup with "key not found" |
| LineLog.Join | internal/app/storage/file.go:87-97 | the bytes written for a list of lines are empty exactly when the list is, and otherwise end with a line feed |
| LineLog.LinesCons | internal/app/storage/file.go:41-44 | the scanner returns a written line in front of any bytes as its first token |
| LineLog.LinesOfJoinThen | internal/app/storage/file.go:41-44 | the scanner reads written lines followed by any bytes as those lines, then the tokens of those bytes |
| LineLog.LinesOfJoin | internal/app/storage/file.go:41-44 | reading back the written bytes gives exactly the lines that were written |
| LineLog.LinesOfNonEmpty | internal/app/storage/file.go:41-44 | a non-empty leftover always scans to at least one token |
| LineLog.Overwrite | internal/app/storage/file.go:81 | writing from offset 0 into a file that is not truncated keeps the old bytes beyond the new content, offsets and lengths counted in bytes, and the file never shrinks |
| LineLog.OverwriteCountsBytes | internal/app/storage/file.go:81 | lengths are compared in bytes: a five-byte UTF-8 log over a five-byte ASCII file leaves exactly the log, while a six-byte log over a nine-byte file of two-byte characters leaves its last three bytes as a stale line |
| FileStorage.BindingsLast | internal/app/storage/file.go:43-55 | the records a list of lines binds are keyed by exactly the codes some line decodes to, each bound to the record of the last such line |
| FileStorage.BindingsAppend | internal/app/storage/file.go:43-55 | the lines of a second part are bound over those of the first, so a later line wins |
| FileStorage.Replay | internal/app/storage/file.go:43-55 | replay succeeds if and only if every line decodes; otherwise it fails on the first line that does not decode; on success it adds the bindings of the lines, the last line with a code winning, and keeps every record keyed by its code |
| FileStorage.NewFileStorage | internal/app/storage/file.go:19-61 | an unopenable file is an error; a missing file starts empty; an existing file loads if and only if all its lines decode, and then holds, for each code, the record of the last line with that code |
| FileStorage.LogLines | internal/app/storage/file.go:87-97 | one marshalled line per map entry, in the order the map is visited |
| FileStorage.Save | internal/app/storage/file.go:80-103 | as written: the new log's bytes become a prefix of the file, which never gets shorter in bytes; fails exactly when the file cannot be opened |
| FileStorage.SaveTruncating | internal/app/storage/file.go:80-103 | with truncation: the file holds exactly the log of the current map; fails exactly when the file cannot be opened |
| FileStorage.Bind | internal/app/storage/file.go:65 | the record is bound under its code, replacing any earlier record with that code, and every other code keeps its record; records stay keyed by their codes |
| FileStorage.Store | internal/app/storage/file.go:64-68 | as written: binds the record, returns an empty record, fails exactly when the file cannot be opened, and otherwise leaves the new log as a prefix of a file that never gets shorter |
| FileStorage.StoreTruncating | internal/app/storage/file.go:64-68 | corrected: the same binding and answer, but the file then holds exactly the log of the new map |
| FileStorage.Get | internal/app/storage/file.go:71-77 | a lookup succeeds exactly for a stored code; otherwise the error reads "key not found: " followed by the code |
| FileStorage.Ping | internal/app/storage/file.go:106-108 | the file backend's ping never fails |
| FileStorage.Close | internal/app/storage/file.go:111-113 | closing is the rewrite as written: fails exactly when the file cannot be opened, and otherwise leaves the log as a prefix of a file that never gets shorter |
| FileStorage.GetBatchByUserID | internal/app/storage/file.go:116-121 | for any user, one empty record and no error |
| FileStorage.DeleteByUserIDAndShort | internal/app/storage/file.go:124-126 | every delete fails with "Error" and changes nothing |
| FileStorage.GetStatistic | internal/app/storage/file.go:129-131 | the file backend has no statistic |
| FileStorage.ReplayLog | internal/app/storage/file.go:43-55 | replaying the log lines of some entries adds exactly those entries to the map |
| FileStorage.EnumerationLength | internal/app/storage/file.go:87 | a range over a map visits as many keys as the map has |
| FileStorage.ReloadLog | internal/app/storage/file.go:19-61 | restarting on a file that holds exactly a store's log rebuilds that store |
| FileStorage.SaveTruncatingRoundTrip | internal/app/storage/file.go:80-103 | after a truncating rewrite, a restart rebuilds the same store, whatever the file held before |
| FileStorage.SaveLeavesStaleLines | internal/app/storage/file.go:81 | as written, a rewrite with fewer bytes than the old file leaves the old file's tail in place: the scanner finds the new lines, then stale ones, more lines than the map has entries |
| FileStorage.SaveRoundTripWhenNotShorter | internal/app/storage/file.go:80-103 | as written, the rewrite does round-trip when the new log has at least as many bytes as the old file |
| FileStorage.LogBindings | internal/app/storage/file.go:87-97 | every line of a store's log decodes, and the lines bind exactly the store's map |
| FileStorage.SaveThenReload | internal/app/storage/file.go:81 | as written, a restart after a rewrite with fewer bytes than the old file loads if and only if every stale line decodes, and then holds the current map with the stale records bound over it |
| FileStorage.StoreSurvivesRestart | internal/app/storage/file.go:64-68 | as written, when the new log has no fewer bytes than the old file, a restart after `Store` rebuilds the new map and finds the record under its code |
| FileStorage.StoreLeavesStaleRecords | internal/app/storage/file.go:64-81 | as written, when `Store` leaves a log with fewer bytes than the old file, a restart fails on an undecodable stale line, or loads the new map with the stale records bound over it |
| FileStorage.StoreTruncatingSurvivesRestart | internal/app/storage/file.go:64-68 | corrected: after `StoreTruncating` a restart always rebuilds the new map and finds the record |
| FileStorage.CloseThenReload | internal/app/storage/file.go:111-113 | as written, a restart after `Close` rebuilds the store when the log has no fewer bytes than the old file, and otherwise loads the stale records over it or fails on one |
| DatabaseStorage.NewDBStorage | internal/app/storage/database.go:29-55 | connecting succeeds exactly when the driver reports no error and sees the rows already in the table; otherwise the driver's error is returned |
| DatabaseStorage.Ping | internal/app/storage/database.go:58-63 | ping fails exactly when the driver does, with the driver's text |
| DatabaseStorage.Close | internal/app/storage/database.go:123-125 | close fails exactly when the driver does, with the driver's text |
| DatabaseStorage.FindOriginal | internal/app/storage/database.go:68 | finds a row holding the original URL if and only if there is one |
| DatabaseStorage.FindShort | internal/app/storage/database.go:104 | finds a row holding the short code if and only if there is one |
| DatabaseStorage.Store | internal/app/storage/database.go:66-91 | succeeds and appends the record exactly when neither its URL nor its code is in the table; a known URL leaves the table alone and returns that row with the conflict signal; a taken code is a plain error; both uniqueness constraints are kept |
| DatabaseStorage.Get | internal/app/storage/database.go:94-120 | a lookup succeeds exactly when a row holds the code, and returns that row, deleted or not; otherwise "key not found: " followed by the code |
| DatabaseStorage.OwnedLinks | internal/app/storage/database.go:133-148 | the code and URL of every row the user owns, and of no other row; empty exactly when the user owns none |
| DatabaseStorage.GetBatchByUserID | internal/app/storage/database.go:128-153 | fails with "no batches by provided userID" exactly when the user owns no row; otherwise the user's links |
| DatabaseStorage.DeleteByUserIDAndShort | internal/app/storage/database.go:156-168 | flags exactly the rows of that user with that code and changes nothing else; a healthy delete never returns an error, even when no row matched |
| DatabaseStorage.OwnersBound | internal/app/storage/database.go:173 | there are never more distinct owners than rows |
| DatabaseStorage.GetStatistic | internal/app/storage/database.go:171-180 | the counts are the number of rows, soft-deleted ones included, and of distinct owners; at least one owner when there is a row; nil when the query fails |
| DatabaseStorage.GetAfterStore | internal/app/storage/database.go:66-120 | a successfully stored record is read back whole by its code |
| DatabaseStorage.StoreTwice | internal/app/storage/database.go:66-91 | storing an already stored URL again, by any user, changes nothing and returns the first row's owner, UUID and code with the conflict signal |
| DatabaseStorage.DeleteOnlyFlagsOwnedRow | internal/app/storage/database.go:156-168 | a delete changes only the flag, and sets it exactly on the user's own row with that code |
| DatabaseStorage.NonOwnerDeleteIsSilentNoOp | internal/app/storage/database.go:156-168 | a delete that matches no row leaves the table unchanged and returns no error |
| DatabaseStorage.GetAfterOwnerDelete | internal/app/storage/database.go:94-168 | after the owner deletes a code, `Get` still finds the row, now flagged, with its URL intact |
| DatabaseStorage.DeletePreservesValid | internal/app/storage/database.go:156-168 | deletes keep both uniqueness constraints |
| DatabaseStorage.ApplyDeletesEffect | internal/app/handlers/handlers.go:344-351 | after one delete per listed code, a row is flagged exactly when it was flagged before or the user owns it and its code is listed; the table keeps its length |
| Config.ParseFlags | internal/app/config/config.go:22-32 | each field takes its flag's value when the flag is given and its default otherwise; HTTPS is on exactly when the flag says so |
| Config.ApplyEnv | internal/app/config/config.go:34-50 | each of the five variables replaces its field exactly when it is non-empty; HTTPS, the config path and the trusted subnet are untouched |
| Config.Load | internal/app/config/config.go:22-85 | an unusable file leaves the flag and environment result; the storage type is always the one decided before the file; the config path is the flag's; every field already set before the file is kept |
| Config.BeforeJson | internal/app/config/config.go:22-54 | after flags and environment, a non-empty DSN always selects "db"; otherwise the storage type is the one the flag or environment gave |
| Config.MergeJson | internal/app/config/config.go:67-85 | the file never changes the storage type or the config path; HTTPS ends up on if either side turns it on |
| Config.LoadDefaults | internal/app/config/config.go:22-32 | with no flags, no environment and no usable file: localhost:8080, http://localhost:8080, /tmp/short-url-db.json, no DSN, no HTTPS, the file backend |
| Config.EnvironmentWins | internal/app/config/config.go:34-50 | a non-empty environment variable beats its flag and the file |
| Config.EmptyEnvironmentKeepsFlag | internal/app/config/config.go:34-50 | an empty or unset variable leaves the flag's value |
| Config.DsnForcesDatabase | internal/app/config/config.go:52-54 | a DSN given by flag or environment forces the database backend, whatever the storage type said |
| Config.UnusableJsonIgnored | internal/app/config/config.go:57-65 | an unreadable or unparsable file leaves the flag and environment result as it is |
| Config.JsonFillsOnlyEmptyFields | internal/app/config/config.go:67-85 | the file only fills fields that are still empty |
| Config.HttpsIsFlagOrJson | internal/app/config/config.go:79-81 | HTTPS is on if and only if the flag or the file turns it on |
| Config.JsonOnlyDsnKeepsStorageType | internal/app/config/config.go:52-78 | a DSN that only the file supplies does not switch the backend to the database, because the switch runs before the merge |
| StorageFactory.NewStorage | internal/app/storage/storage.go:18-29 | "file" and "db" select their backend with the configured path or DSN; every other type, the empty one included, selects memory |
| StorageFactory.Open | internal/app/storage/storage.go:18-29 | memory starts empty; the file backend opens exactly when its file loads; the database backend opens on the existing table exactly when the driver reports no error, and otherwise fails with the driver's text |
| StorageFactory.Quiet | internal/app/handlers/handlers.go:344-351 | the backend as the deletion loop sees it, which ignores delete errors: the same backend in every operation except the delete |
| StorageFactory.QuietDelete | internal/app/handlers/handlers.go:344-351 | a delete whose error the loop ignores: it has the backend's effect and reports no error |
| StorageFactory.FileStore | internal/app/storage/file.go:64-68 | through the interface, the file backend binds the record, answers an empty record, and fails exactly when the file cannot be opened |
| StorageFactory.Get | internal/app/storage/storage.go:13 | through the interface, a lookup succeeds exactly when the backend holds the code; memory and file answer the record bound to it, the database a row with that code; a failed lookup reads "key not found: " followed by the code on every backend |
| StorageFactory.DsnSelectsDatabase | internal/app/storage/storage.go:18-29 | a DSN known before the file is read always runs the service on the database with that DSN |
| StorageFactory.DefaultsSelectFile | internal/app/storage/storage.go:18-29 | with no settings, the service runs on the file backend at /tmp/short-url-db.json |
| Http.FirstStatusWins | internal/app/handlers/handlers.go:156-216 | once a status is sent, later header changes and status codes are ignored, and an error reply only adds to the body |
| Http.ErrorReply | internal/app/handlers/handlers.go:80-94 | `http.Error` on a fresh response gives the code, a plain-text content type, "nosniff", and the message followed by a line feed |
| Handlers.ContainsIsSubstring | internal/app/handlers/handlers.go:157 | the content-type test finds "application/json" if and only if it occurs somewhere in the header value |
| Handlers.ContainsNotLonger | internal/app/handlers/handlers.go:157 | a header value shorter than "application/json" never passes the content-type test |
| Handlers.Shorten | internal/app/handlers/handlers.go:80-131 | 400, with nothing stored, exactly for a wrong method, an unreadable or empty body, or a failed authentication; otherwise the record is stored, and the answer is 409 with the existing code's link exactly on the conflict signal and 201 with the URL's link otherwise |
| Handlers.FindByShortLink | internal/app/handlers/handlers.go:134-153 | 307 with Location set to the original URL exactly for a known code that is not deleted; 410 exactly for a deleted one; 400 otherwise; nothing changes |
| Handlers.ShortenAPIAsWritten | internal/app/handlers/handlers.go:156-216 | as written: every decoded request is stored and answered with the JSON result, and the status is 400 when the content type or the authentication is wrong |
| Handlers.ShortenAPIStoresDespiteContentType | internal/app/handlers/handlers.go:157-159 | as written, a request whose content type does not contain "application/json" gets 400 with the error text followed by the JSON result, and its URL is stored |
| Handlers.MixedCaseJsonFailsTest | internal/app/handlers/handlers.go:48-157 | "Application/JSON" lower-cases to "application/json", so the content-type middleware lets it through, yet the handler's case-sensitive test fails on it |
| Handlers.ShortenAPIStoresDespiteAuthFailure | internal/app/handlers/handlers.go:183-186 | as written, a request whose authentication fails gets 400, yet its URL is stored |
| Handlers.ShortenAPI | internal/app/handlers/handlers.go:156-216 | corrected: 400, with nothing stored and at most one error text, exactly for a wrong content type, an undecodable body or a failed authentication; otherwise stored, and 409 on the conflict signal or 201, with the JSON result |
| Handlers.ShortenAPIAgreesWhenAccepted | internal/app/handlers/handlers.go:156-216 | on every request the corrected handler accepts, it behaves exactly as the written one |
| Handlers.Ping | internal/app/handlers/handlers.go:219-225 | 200 exactly when the backend's ping succeeds, 500 otherwise |
| Handlers.RunBatch | internal/app/handlers/handlers.go:243-262 | a completed batch answers one item per entry, in order, with the entry's correlation id and link; a failing store of the first entry ends the loop with that error |
| Handlers.RunBatchStopsAtFirstError | internal/app/handlers/handlers.go:243-262 | on any backend, the first failing store, the conflict signal included, aborts the batch with its error and the state it left: the earlier entries stay stored and no later entry is attempted |
| Handlers.RunBatchWithoutErrors | internal/app/handlers/handlers.go:243-262 | on any backend, when no store fails, the batch completes with every entry stored in order |
| Handlers.BatchShortenAPI | internal/app/handlers/handlers.go:228-276 | 400 exactly for a body that does not decode; 401 exactly for a decodable body whose authentication fails; neither stores anything; otherwise 201 with one item per entry exactly when every store succeeds, and 500 with the first error's text otherwise |
| Handlers.FindUserURLS | internal/app/handlers/handlers.go:279-315 | 401 exactly for a failed authentication; 200 exactly when the backend returns at least one record, with each record's link and URL in order; 204 otherwise |
| Handlers.DeleteURLs | internal/app/handlers/handlers.go:318-341 | 202, with the codes in request order handed to the background deleter, exactly for an authenticated, decodable request; 500 exactly for an authenticated request whose body cannot be read; 400 otherwise, with no work left behind |
| Handlers.CheckIPIsTrusted | internal/app/handlers/handlers.go:387-402 | an error exactly when the subnet does not parse; trusted exactly when the client address parses and lies in the subnet, so an unparsable address is "not trusted" and not an error |
| Handlers.GetStats | internal/app/handlers/handlers.go:354-385 | 200 with the statistic exactly when X-Real-IP is set, trusted, and the backend has a statistic; 403 exactly when the header is missing or the parsed subnet does not contain the address |
| Handlers.ShortenTwiceOnDatabase | internal/app/handlers/handlers.go:80-131 | shortening a new URL twice, by any users: 201 with its link, then 409 with the same link and no change |
| Handlers.FindAfterShortenOnDatabase | internal/app/handlers/handlers.go:80-153 | the link a 201 hands out redirects to the URL that was shortened |
| Handlers.ShortenCodeCollisionOnDatabase | internal/app/handlers/handlers.go:104-125 | a new URL whose code another URL already holds is not stored, yet gets 201 and a link that redirects to the other URL, or answers 410 |
| Handlers.MarkAsDeleted | internal/app/handlers/handlers.go:344-351 | on any backend: no codes leave the state alone, and one code is exactly that backend delete's effect |
| Handlers.MarkAsDeletedIgnoresErrors | internal/app/handlers/handlers.go:344-351 | a failing delete is only logged: the deleter ends as it would if every delete reported success |
| Handlers.MarkAsDeletedSplit | internal/app/handlers/handlers.go:344-351 | every code is attempted, in list order: deleting a list is deleting a prefix, then the rest |
| Handlers.MarkAsDeletedOnDatabase | internal/app/handlers/handlers.go:344-351 | the background deleter performs exactly the database's sequence of deletes |
| Handlers.DeletedLinkIsGone | internal/app/handlers/handlers.go:318-351 | once the owner's accepted delete has run, the link answers 410 |
| Handlers.OthersCannotDelete | internal/app/handlers/handlers.go:318-351 | another user's delete of a live code leaves the redirect working |
| Handlers.FindUserURLSOnDatabase | internal/app/handlers/handlers.go:279-315 | 200 exactly when the user owns a row, with the links of the user's rows; 204 otherwise |
| Handlers.BatchOnDatabase | internal/app/handlers/handlers.go:243-262 | a batch of new URLs with distinct codes completes and appends one row per entry, in order |
| Handlers.BatchConflictAfterStoreOnDatabase | internal/app/handlers/handlers.go:243-262 | a batch whose second URL is already stored answers 500 with "URL already exists", while its new first entry stays stored |
| Handlers.BatchConflictOnDatabase | internal/app/handlers/handlers.go:253-256 | a batch whose first URL is already stored fails with 500 and "URL already exists", storing nothing |
| Handlers.GetStatsOnDatabase | internal/app/handlers/handlers.go:354-385 | a trusted client is told the number of rows and of distinct owners |
| GrpcService.FirstNonEmpty | internal/app/grpchandlers/grpchandlers.go:229-235 | finds a value if and only if some value is non-empty, and returns the first such one |
| GrpcService.GetMetadataValue | internal/app/grpchandlers/grpchandlers.go:223-236 | finds a value if and only if some value under the lower-cased key is non-empty; the value found is non-empty and listed under that key |
| GrpcService.GetUserIDFromMD | internal/app/grpchandlers/grpchandlers.go:211-221 | no metadata is "failed to get metadata from context"; otherwise the id is found exactly when x-user-id has a non-empty value, else the "no values" error |
| GrpcService.CallerID | internal/app/grpchandlers/grpchandlers.go:211-221 | a caller that sends one non-empty user id is identified by it |
| GrpcService.LookupIgnoresCase | internal/app/grpchandlers/grpchandlers.go:224 | a lookup under any capitalisation of "x-user-id" finds the same value |
| GrpcService.FirstNonEmptyAt | internal/app/grpchandlers/grpchandlers.go:229-235 | the value found is the first non-empty one |
| GrpcService.UserIDSkipsEmptyValues | internal/app/grpchandlers/grpchandlers.go:223-236 | leading empty values are skipped, and the first non-empty one is the user id |
| GrpcService.ProtoURLInfoToModel | internal/app/grpchandlers/grpchandlers.go:163-177 | each entry is copied with a freshly generated UUID |
| GrpcService.ModelURLInfoToProto | internal/app/grpchandlers/grpchandlers.go:179-193 | each entry is copied unchanged, in order |
| GrpcService.ModelShortenedDataToProto | internal/app/grpchandlers/grpchandlers.go:195-209 | each record becomes an entry whose correlation id is its original URL |
| GrpcService.ConversionRoundTrip | internal/app/grpchandlers/grpchandlers.go:163-193 | converting entries to the model and back changes only their UUIDs |
| GrpcService.BatchShortenAPI | internal/app/grpchandlers/grpchandlers.go:34-46 | without a user id, InvalidArgument; otherwise the entities come back with fresh UUIDs and nothing is stored |
| GrpcService.DeleteAll | internal/app/grpchandlers/grpchandlers.go:56-61 | no codes, no change; a failing first delete ends the loop with its error |
| GrpcService.DeleteAllStopsAtFirstError | internal/app/grpchandlers/grpchandlers.go:56-62 | the loop returns the first failing delete's error and state: the earlier deletes stay applied and no later code is attempted |
| GrpcService.DeleteAllWithoutErrors | internal/app/grpchandlers/grpchandlers.go:56-62 | when no delete fails, every code is deleted in order, as the HTTP background deleter does, and no error is returned |
| GrpcService.DeleteURLs | internal/app/grpchandlers/grpchandlers.go:48-63 | without a user id, InvalidArgument and no change; otherwise the deletes run before the answer, and the first backend error is returned as it is |
| GrpcService.FindByShortLink | internal/app/grpchandlers/grpchandlers.go:65-77 | an empty code is InvalidArgument; an unknown one is DataLoss; otherwise the original URL, whether the link was deleted or not |
| GrpcService.FindUserURLS | internal/app/grpchandlers/grpchandlers.go:79-92 | without a user id, InvalidArgument; a failing backend is DataLoss; otherwise the user's records as entries |
| GrpcService.Int32 | internal/app/grpchandlers/grpchandlers.go:97-98 | Go's int32 conversion: a value in the 32-bit range, congruent to the input modulo 2^32, and equal to it when it fits |
| GrpcService.Int32Wraps | internal/app/grpchandlers/grpchandlers.go:97-98 | a count past the 32-bit range is reported wrapped, possibly negative |
| GrpcService.GetStatsAsWritten | internal/app/grpchandlers/grpchandlers.go:94-100 | as written: the server crashes exactly when the backend has no statistic; otherwise both counts truncated to 32 bits |
| GrpcService.GetStats | internal/app/grpchandlers/grpchandlers.go:94-100 | corrected: never crashes; the written answer exactly when there is a statistic, DataLoss otherwise |
| GrpcService.GetStatsPanicsOnFileBackend | internal/app/grpchandlers/grpchandlers.go:96-97 | on the file backend, the written RPC always crashes and the corrected one reports DataLoss |
| GrpcService.ShortenOnFileBackend | internal/app/grpchandlers/grpchandlers.go:125-159 | on the file backend, whose `Store` returns an empty record (file.go:67), both shortening RPCs answer an empty code although the URL is stored |
| GrpcService.Ping | internal/app/grpchandlers/grpchandlers.go:102-105 | an empty answer exactly when the backend's ping succeeds, otherwise the backend's error as it is |
| GrpcService.StoreAndAnswer | internal/app/grpchandlers/grpchandlers.go:125-130 | every store error, the conflict signal included, is DataLoss; otherwise the answer is the code of the returned record |
| GrpcService.ShortenAPI | internal/app/grpchandlers/grpchandlers.go:107-131 | without a user id, InvalidArgument and no change; otherwise the URL, even an empty one, is stored under its code |
| GrpcService.Shorten | internal/app/grpchandlers/grpchandlers.go:133-161 | the user id is checked before the URL; an empty URL is InvalidArgument; otherwise it is stored under its code |
| GrpcService.ShortenOnDatabase | internal/app/grpchandlers/grpchandlers.go:133-161 | a new URL is appended as a row and its code returned |
| GrpcService.ShortenAPIConflictOnDatabase | internal/app/grpchandlers/grpchandlers.go:125-128 | an already stored URL is a DataLoss failure with no change, where the HTTP API answers 409 |
| GrpcService.DeletedLinkStillResolves | internal/app/grpchandlers/grpchandlers.go:71-76 | a soft-deleted link still resolves to its URL over gRPC, where the HTTP API answers 410 |
| GrpcService.DeleteAllOnDatabase | internal/app/grpchandlers/grpchandlers.go:56-62 | with a healthy database every delete succeeds, so the RPC performs the whole list, exactly like the HTTP background deleter |

## Left out

- MD5 itself (RFC 1321): it is the parameter `md5`. Only the encoding and the cut that follow it are modelled.
- JSON encoding and decoding. Request bodies are values of `Handlers.Body`, responses are `Http.Chunk`s, and the file log uses an abstract `FileStorage.Codec`. `FileStorage.ValidCodec` states the one assumption made about that codec: it round-trips and writes one line per record. Marshalling failures of Go values that always marshal are not modelled.
- The "Failed to write response" branches: a failing client connection is I/O.
- Content sniffing and Content-Length in `net/http`.
- Map iteration order is an input to `FileStorage.Save` (`order`); Go randomises it. `StorageFactory.FileBackend` keeps insertion order, one of the orders a `range` may take.
- File I/O details: the scanner's 64 KiB line limit and its read errors, and flush errors.
- The replay's store error at file.go:51-54. The `Store` called there is not part of this model; the model follows `InMemoryStorage.Store` (memory.go:15-18), which never fails.
- Goroutines and channels. `DeleteURLs` returns `Handlers.Deferred`, and `Handlers.Settle` runs the deferred deletes afterwards. Interleavings with other requests are not modelled.
- Logging.
- `auth.GetUserToken` and its cookie, which are not part of this model: the handlers take its result as `Handlers.Token`.
- `uuid.New`: UUIDs are parameters.
- `net.ParseCIDR` and `net.ParseIP`: inputs to `Handlers.CheckIPIsTrusted`.
- `errors.Is` on `*ErrURLExists` compares pointers to a zero-size type. The model treats it as the tag `Records.URLExists`.
- SQL and the driver. Connection and statement failures are `fault` parameters, and `StorageFactory.Db` fixes them to none. The scan error that stops `GetBatchByUserID` early (database.go:143-146) is not modelled.
- `Close` is left out of `StorageFactory.Storage`: no handler calls it.
- The gRPC status code of an error passed through as it is (`GrpcService.Outcome.Raw`).
- Routing, gzip compression, pprof, HTTPS serving, and both `main` functions, including `grpc/main.go:167-190`.
- `mock_storage.go`, the generated mock.
- The legacy three-field record and the old four-method interface in `storage.go`: see above.
- URLs whose bytes are not valid UTF-8. A request body becomes a Go string byte for byte, but a URL here is a Dafny string, a sequence of Unicode scalar values; for such a URL `json.Marshal` would substitute U+FFFD, so the codec round trip `FileStorage.ValidCodec` assumes is stated only for URLs the model can represent.
- `metadata.MD.Get` lower-cases keys. The model's `Ascii.Lower` covers ASCII only, where Go's `strings.ToLower` also maps other Unicode letters.
- DatabaseStorage.GetBatchByUserID: returns the owned rows in table order. The query at database.go:133 has no ORDER BY, so PostgreSQL may return them in another order; the model fixes one of the orders it may return, and `Handlers.FindUserURLSOnDatabase` inherits that order.
- Records.Message: the text of `BadLine` is a placeholder for the JSON decoder's message, which is not modelled; the offending line is kept in the error value instead.
- FileStorage.Store: the as-written rewrite does not truncate, so it promises a round trip only when the new log has no fewer bytes than the file (`FileStorage.StoreSurvivesRestart`); `FileStorage.StoreTruncating` is the corrected rewrite.
- DatabaseStorage.NewDBStorage: the table creation is not modelled statement by statement; the two uniqueness constraints it declares are the invariant `DatabaseStorage.Valid`.

## Findings

| source | as written | input that shows it | evidently intended | confidence | as-written member | corrected member |
|---|---|---|---|---|---|---|
| internal/app/storage/file.go:81 | `Save` opens the file write-only, creating it when missing, without `O_TRUNC`, then rewrites every record from offset 0 | the same URL stored again by a user with a shorter id (the file `Store` rebinds it without a duplicate check), or a record whose code is then stored again with a shorter URL: the new log has fewer bytes than the file, and its old tail stays behind as an extra line, which a restart either fails on or binds over the new map | every rewrite replaces the file, so a restart rebuilds exactly the current map | not executed | FileStorage.StoreLeavesStaleRecords | FileStorage.StoreTruncatingSurvivesRestart |
| internal/app/handlers/handlers.go:157-159 | the content-type check writes 400 but does not return | POST /api/shorten with `Content-Type: Application/JSON` and body {"url":"u"}: the `AllowContentType("application/json")` middleware (handlers.go:48) compares in lower case and lets it through, the handler's case-sensitive test fails, and the answer is 400 with the error text followed by the JSON result, while u is stored | a request the handler turns away for its content type is only answered 400, and nothing is stored | not executed | Handlers.ShortenAPIStoresDespiteContentType | Handlers.ShortenAPI |
| internal/app/handlers/handlers.go:183-186 | the authentication check writes 400 but does not return | a valid JSON request for which `GetUserToken` fails: the answer is 400, yet the URL is stored under the user id returned with the error | an unauthenticated request is rejected and nothing is stored | not executed | Handlers.ShortenAPIStoresDespiteAuthFailure | Handlers.ShortenAPI |
| internal/app/grpchandlers/grpchandlers.go:96-98 | `GetStats` reads `stat.URLs` without checking for nil | a GetStats call on the file backend, whose `GetStatistic` always returns nil, or on the database when its query fails: nil dereference | a missing statistic is reported as an error status; DataLoss with "error while get statistic in storage" is the convention the model chooses, matching the service's other storage failures | not executed | GrpcService.GetStatsPanicsOnFileBackend | GrpcService.GetStats |
