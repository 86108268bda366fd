# google_drive_utils: resumable transfers and the credential policy

This project models the logic under the three Google Drive scripts of
`google_drive_utils`, and proves properties of that model:

- **the resumable download** (`download_from_drive.py`). It reads the object's
  name and size from a metadata request. The resume point is the length of the
  `<name>.part` file. The loop asks for inclusive byte ranges of at most 128 MiB
  from that point, appends every streamed piece, and retries from the offset
  reached after any exception. Once the offset reaches the size, the partial
  file is renamed to the final name;
- **the resumable upload** (`upload_into_drive.py`). It opens a session, and a
  failure there is fatal. It then PUTs the file in consecutive chunks of
  `min(32 MiB, size - uploaded)` bytes, each with its
  `Content-Range: bytes a-b/size` header. Status 200/201 completes, 308 moves
  on, and anything else ends the process;
- **the credential policy** (`google_auth.py`):
  - `request_with_refresh` sends once. After a 401, and only when the
    credential has a refresh token, it refreshes once; it resends once, and
    only when that refresh succeeded;
  - `_refresh_token` persists the credential on success and deletes the token
    file on failure;
  - `get_drive_credentials` decides between the stored credential, a refresh
    and the interactive flow.

The network and the OAuth library are replaced by oracles:

- Download: a function from (attempt number, range) to the pieces received
  and whether the attempt raised.
- Upload: a function from PUT number to reply.
- Refresh and consent flow: values.

Files:

| file | module | contents |
|---|---|---|
| `wrappers.dfy` | `Wrappers` | `Option`, `Result` |
| `http.dfy` | `Http` | what a request comes back with (a status or an exception); byte ranges and `Content-Range` values (section 14.1.2 and section 14.4 of RFC 9110); the `raise_for_status` test; tilings of `[p, size)` into `chunk`-byte ranges |
| `local_files.dfy` | `LocalFiles` | the output directory: files that are appended to in place, names bound to them, open-for-append and rename |
| `download.dfy` | `Download` | the metadata check, the transfer loop and the publish rename as methods; the passes the loop makes as the function `Trace`, and lemmas about it |
| `upload.dfy` | `Upload` | the session check and the chunk loop as methods; the PUTs they send as the function `Plan`, and lemmas about it |
| `google_auth.dfy` | `GoogleAuth` | the credential object and token file as classes; the retry policy and the resolution of credentials as functions; the source's procedures as methods proved against them |

Two details of the code that the model keeps as written:

- The session request and the metadata request are checked with
  `raise_for_status` (`upload_into_drive.py:64`, `download_from_drive.py:53`),
  which raises only for 4xx and 5xx. So the model aborts on
  `400 <= status < 600` (`Http.IsErrorStatus`), and any other status, such as
  a 3xx, goes on.
- A final chunk answered 308, or a zero-byte file, leaves the upload loop with
  neither the success nor the error message (`upload_into_drive.py:72-107`).
  The model calls that outcome `Drained`.

## Model

| member | source | states |
|---|---|---|
| Http.TilesAreContiguous | google_drive_utils/download_from_drive.py:67-68 | ranges that tile `[p, size)` in `chunk` steps are in bounds, at most `chunk` long, contiguous and non-overlapping, start at `p`, end at `size - 1`, and there are none exactly when `size <= p` |
| Http.TileAt | google_drive_utils/download_from_drive.py:67-68 | range `i` of such a tiling is `[p + i*chunk, min(p + (i+1)*chunk, size) - 1]` |
| Http.TilesCount | google_drive_utils/download_from_drive.py:67-68 | a tiling has exactly as many ranges as it takes to reach `size` in `chunk` steps |
| Http.TilesFromZero | google_drive_utils/download_from_drive.py:67-68 | a tiling from 0 is the grid `[i*chunk, min((i+1)*chunk, size) - 1]`, `ceil(size/chunk)` ranges |
| LocalFiles.File.Write | google_drive_utils/download_from_drive.py:90 | a write to a file opened for appending puts the bytes at its end |
| LocalFiles.Folder.OpenAppend | google_drive_utils/download_from_drive.py:66 | `open(part, "ab")` returns the existing file unchanged, or creates an empty one under that name; no other name changes |
| LocalFiles.Folder.Rename | google_drive_utils/download_from_drive.py:101 | the rename binds the partial file's file to the final name, drops the partial name, and leaves every other name alone |
| Download.DownloadRange | google_drive_utils/download_from_drive.py:67-68 | the range asked for starts at `pos`, stays below `size`, is at most `CHUNK` bytes, and is shorter only when it reaches the last byte |
| Download.FetchFile | google_drive_utils/download_from_drive.py:43-101 | a metadata request that raises ends everything (`Crashed`), and one answered with an error status aborts (`MetadataFailed`), both before any file is touched. Otherwise the partial file ends up holding its old bytes plus exactly the bytes the passes received. It is renamed to the final name exactly when its length reached the size (immediately, with no request, when it was already complete). If the attempts run out first, it is left in place and no other name changes |
| Download.TransferLoop | google_drive_utils/download_from_drive.py:66-98 | the loop extends the partial file by exactly what `Trace` receives, ends with `pos` equal to the file's length, and stops short of the size only when the attempts ran out |
| Download.TryOnce | google_drive_utils/download_from_drive.py:68-92 | one pass asks for `DownloadRange(pos)`; the file grows by exactly the bytes the attempt over that range received, in order, and the count returned is their number |
| Download.AppendPieces | google_drive_utils/download_from_drive.py:88-92 | streaming appends every piece in order (empty ones add nothing) and counts exactly the bytes written |
| Download.RangesStartAtDiskLength | google_drive_utils/download_from_drive.py:67-98 | every range asked for starts at the number of bytes already on disk, after a pass that raised as after one that did not. So no written byte is asked for again. There are at most `fuel` passes, and fewer only once the size is reached |
| Download.HonestServerAppendsRemoteBytes | google_drive_utils/download_from_drive.py:67-98 | against a store that answers each range with a prefix of it, the bytes appended from `pos` are exactly the stretch of the object that starts at `pos` |
| Download.PartialFileStaysPrefix | google_drive_utils/download_from_drive.py:58-101 | a partial file that held a prefix of the object stays a prefix, and equals the object once its length reaches the size, so what is published is the object |
| Download.WholePassesAdvance | google_drive_utils/download_from_drive.py:67-92 | with full delivery, `n` passes from `pos` reach `min(size, pos + n*chunk)` |
| Download.WholePassesTile | google_drive_utils/download_from_drive.py:67-92 | passes that deliver whole ranges and reach the size ask for the tiling of `[pos, size)` and receive the rest of the object |
| Download.FullDeliveryTiles | google_drive_utils/download_from_drive.py:67-92 | with full delivery and enough attempts, the ranges from `pos` are `[pos, pos+chunk-1]`, `[pos+chunk, pos+2*chunk-1]`, …, ending at `size - 1`, and together they bring the rest of the object |
| Download.FullDeliveryFromEmpty | google_drive_utils/download_from_drive.py:59-68 | from an empty partial file, range `i` is `[i*chunk, min((i+1)*chunk, size) - 1]`, there are `ceil(size/chunk)` ranges, and the file receives the whole object |
| Download.TenMillionBytesInFourMillionByteChunks | google_drive_utils/download_from_drive.py:67-68 | 10,000,000 bytes in 4,000,000-byte chunks are asked for as `[0,3999999]`, `[4000000,7999999]`, `[8000000,9999999]` |
| Upload.UploadLength | google_drive_utils/upload_into_drive.py:73 | the chunk length is in `(0, CHUNK]`, does not pass the end, and is short only for the last chunk |
| Upload.ChunkPut | google_drive_utils/upload_into_drive.py:73-79 | the PUT at `uploaded` starts at `uploaded`, declares the file's full size, carries exactly the bytes its range names, and is `min(CHUNK, size - uploaded)` bytes long |
| Upload.PutChunk | google_drive_utils/upload_into_drive.py:72-105 | one pass sends the next planned PUT and takes its reply: on a 308 the planned PUTs go on from `uploaded` plus the chunk length, and on anything else the PUTs sent so far are exactly the planned ones up to the first reply that is not 308, whose reply decides the outcome |
| Upload.Verdict | google_drive_utils/upload_into_drive.py:85-105 | a reply of 200 or 201, and only those, completes the upload; an exception, and only that, crashes it; every other status rejects it with that status |
| Upload.FirstNon308 | google_drive_utils/upload_into_drive.py:85-105 | the index found is that of the first reply that is not 308, or the end when all replies are 308 |
| Upload.UploadFile | google_drive_utils/upload_into_drive.py:61-107 | a session request that raises or is refused ends everything before any PUT. Otherwise the PUTs sent are the planned ones up to and including the first not answered 308, and that answer decides the outcome (200/201 completes, any other status is fatal, an exception crashes) |
| Upload.SendChunks | google_drive_utils/upload_into_drive.py:72-105 | the loop sends the planned PUTs in order and stops right after the first reply that is not 308 |
| Upload.PlanTiles | google_drive_utils/upload_into_drive.py:72-79 | the planned `Content-Range` spans tile `[uploaded, size)` in `CHUNK` steps |
| Upload.PlanCarriesData | google_drive_utils/upload_into_drive.py:73-79 | every planned PUT declares the file's full size and carries exactly the bytes its range names |
| Upload.PlanReassembles | google_drive_utils/upload_into_drive.py:72-98 | the planned bodies, in order, are the rest of the file |
| Upload.SentRangesAreContiguous | google_drive_utils/upload_into_drive.py:72-99 | the PUTs start at byte 0, each starts right after the previous one ends, each is in bounds, at most `CHUNK` long, declares the full size and carries the bytes it names |
| Upload.PlanLength | google_drive_utils/upload_into_drive.py:72-99 | there are `ceil(size/CHUNK)` PUTs, none at all for a zero-byte file, and together they carry the file |
| Upload.ExactPutCount | google_drive_utils/upload_into_drive.py:72-99 | 308 for the first `k` PUTs and 200/201 for the next one means the upload completes after exactly `k + 1` PUTs, and nothing else can happen |
| GoogleAuth.Renewed | google_drive_utils/google_auth.py:62 | a refreshed credential is valid, holds the new access token, and keeps its refresh token and scopes |
| GoogleAuth.Credentials.Refresh | google_drive_utils/google_auth.py:62 | a refresh either installs the new token or changes nothing, and reports which |
| GoogleAuth.TokenFile.Write | google_drive_utils/google_auth.py:63 | writing the token file stores the credential |
| GoogleAuth.TokenFile.Remove | google_drive_utils/google_auth.py:66-67 | removing the token file leaves no stored credential |
| GoogleAuth.RefreshToken | google_drive_utils/google_auth.py:60-68 | on success the credential is renewed and persisted and the result is true; on failure the credential is unchanged, the token file is gone and the result is false |
| GoogleAuth.RetryPolicy | google_drive_utils/google_auth.py:50-57 | `request_fn` runs once or twice, and twice exactly when a 401 with a refresh token was followed by a successful refresh. A refresh is tried at most once, and exactly on a 401 with a refresh token. The second response is returned whatever its status, and otherwise the first is returned unchanged. An exception from the first call escapes with no refresh tried; an exception from the resend escapes only after a successful refresh |
| GoogleAuth.RequestWithRefresh | google_drive_utils/google_auth.py:50-57 | the procedure's response and counts are `RetryPolicy`'s. Without a refresh, nothing else changes; with one, the credential and token file change as `RefreshToken` says, so a resend that raises leaves the renewed credential persisted |
| GoogleAuth.Resolve | google_drive_utils/google_auth.py:23-47 | A missing client configuration fails before the token file is touched. What is returned is what the token file holds. Without the flow, the credential returned is valid and covers the scopes. A credential lacking the scopes, or expired with a failing refresh, is discarded and the flow's result is persisted. A valid covering credential is returned as it is. A successful refresh is returned and persisted without the flow. With no token file, or with a covering credential that is invalid and not refreshable (expired without a refresh token, or without an access token), the flow runs and its result, when there is one, is persisted |
| GoogleAuth.GetDriveCredentials | google_drive_utils/google_auth.py:16-47 | step by step on the token file, the procedure returns the credential, error, token file and flow decision that `Resolve` gives |

## Left out

- Argument parsing, printing, progress bars, `sys.exit` codes and directory
  creation are not modelled. They are command-line glue.
- URL, query, header and JSON formatting are not modelled. Only the numeric
  range fields, the status codes and the byte bodies are.
- `request_with_refresh` wraps the metadata request
  (`download_from_drive.py:43-52`), each ranged download request
  (`download_from_drive.py:71-84`) and the upload session request
  (`upload_into_drive.py:46-59`). For these, the model takes the reply that
  `request_with_refresh` finally returns, after any refresh: the parameter
  `metaReply` of `Download.FetchFile`, the `Server` oracle of the download
  loop, and the parameter `init` of `Upload.UploadFile`. The upload PUTs are
  plain `requests.put` calls (`upload_into_drive.py:81-83`), whose replies are
  the `answer` oracle. The policy itself is modelled separately in
  `GoogleAuth`.
- Download.FetchFile: requires `Folder.Valid()`, that no two names in the
  output directory are bound to the same file (no hard links). The source
  does not check this; with such a link, appending to the partial file would
  also change the other name, which the model does not describe.
- Download.FetchFile: the source retries without bound. The model allows
  `fuel` attempts and then stops with `Halted`, as a process that is killed
  would; nothing is claimed about fairness of the store.
- The `time.sleep` backoff, timeouts, `flush` and `fsync` are not modelled.
  The appended bytes are taken as the durable state, so crash timing within a
  chunk is not modelled.
- Download.AppendPieces: the `STREAM_CHUNK` size of the pieces is not
  constrained, and a write that fails part-way is not modelled.
- Upload.ChunkPut: every read returns the full length requested, so a short
  read is not modelled.
- Upload.SendChunks: the store's acknowledged range in a 308 reply is ignored,
  as it is in the source. The JSON body of the 200/201 reply is not modelled.
- Upload.UploadFile: an exception raised by a PUT is not caught in the source.
  The model ends the upload with `Crashed` instead of modelling the traceback.
- The OAuth library is not modelled:
  - `has_scopes` is modelled as the requested scopes being a subset of the
    stored ones;
  - `from_authorized_user_file` is modelled as yielding the stored grant as it
    is;
  - `expired` is a flag of the stored grant;
  - `valid` is modelled as "has an access token and is not expired";
  - the refresh token's truthiness is modelled as present and non-empty;
  - refresh-token rotation by the identity provider is not modelled.
- GoogleAuth.RefreshToken: a failure to write the token file after a successful
  refresh is not modelled. The source would report it as a failed refresh.
- The interactive consent flow is an oracle that yields a credential or fails.
- Concurrency between transfers is not modelled. The source has none.
