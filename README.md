# ipa-distributer upload gate, modelled in Dafny

ipa-distributer is a small HTTP service. It accepts an iOS app archive
(`.ipa`, a zip file) on `PUT /upload` and stores it under a name derived from
its content. It then checks every embedded provisioning profile in the
archive. A profile is a PKCS#7-signed property list, and it must grant the
configured application identifier.

The model covers the service's own decision logic in `main.go`. It has five modules:

- `Libraries` (libraries.dfy): the library calls as oracles, each a total function.
  - `openZip` stands for `zip.OpenReader` and gives the members in order. Each member says whether `Open` fails, whether reading it fails, or what bytes it holds.
  - `parsePkcs7` stands for `pkcs7.Parse`. The parsed message holds its content and whether `Verify` accepts its signature.
  - `decodePlist` stands for `plist.Unmarshal`. Its result is a tree of dictionaries, strings and other values.
  - `sha1` gives a 20-byte digest.
- `HexName` (hexname.dfy): `fmt.Sprintf("%x", …)` of the digest. It is the name of the stored file.
- `ZipCheck` (zipcheck.dfy): `zipCheck` and `loadPKCS7Content`.
  - The spec function `EntriesVerdict` takes the members recursively.
  - The method `CheckMembers` is the source's loop, with `continue` and early return, proved equal to it.
  - A ghost out-parameter of `CheckMembers` records which members were opened.
  - The type assertion on `Entitlements` becomes the distinct outcome `Panic`.
- `Upload` (upload.dfy): `uploadAPI`.
  - The class `Server` holds the configured identifier, the oracles and the data directory. The directory is a `map` from file name to content.
  - `Upload` runs the stages in the source's order. It is proved equal to the spec function `UploadStep`.
- `Http` (http.dfy): `httpAPI`. It covers routing, the mapping from the upload result to a status, and the response body.

Three behaviours of the code are easy to miss:

- A profile whose `Entitlements` is missing or is not a dictionary makes the handler panic. It is not rejected with an error. The model's verdict is `Panic`, and the HTTP layer answers nothing (`Aborted`). This matches net/http, which recovers the panic and drops the connection.
- The file is renamed into the data directory before the archive check runs. An archive that the check rejects therefore stays stored. A later upload of the same bytes gets 400 as a duplicate.
- The existence check refuses the name whenever `os.Stat` returns anything other than "does not exist". This includes errors such as a permission failure (the `statFails` fault).

An archive with no member named `…embedded.mobileprovision` passes the check, whatever else it contains (`ZipCheck.NoManifestAccepted`). This is how the service behaves. It is a policy gap: an archive that leaves out its profile is accepted.

## Model

| member | source | states |
|---|---|---|
| `HexName.LowerHex` | main.go:72 | the `%x` text of a byte string has two characters per byte, each a lowercase hex digit `0-9a-f` |
| `HexName.HexRoundTrip` | main.go:72 | reading the hex text back gives the original bytes |
| `HexName.LowerHexInjective` | main.go:72-73 | different digests give different file names |
| `HexName.StoredName` | main.go:72-73 | the stored name of a SHA-1 digest is exactly 40 lowercase hex characters, and the digest can be read back from it |
| `ZipCheck.IsManifestIff` | main.go:109-111 | a member is checked iff its name ends with `embedded.mobileprovision`, that is, iff it is some prefix followed by that suffix |
| `ZipCheck.LoadPkcs7Content` | main.go:135-148 | content comes back iff the member was read, parsed as PKCS#7, and its signature verified; it is then the message content; the cause of a failure is told apart: a read failure iff the read failed, a parse failure iff the bytes are not PKCS#7, a verify failure iff the message parsed but its signature did not verify |
| `ZipCheck.AppIdVerdict` | main.go:127-130 | a missing or non-dictionary `Entitlements` panics; only the string equal to the configured identifier passes; a missing or non-string identifier is rejected as invalid; the error reports the value found under `application-identifier` (nothing, when the key is absent) and the expected identifier |
| `ZipCheck.MemberVerdict` | main.go:112-130 | stage order within a member: an open error iff open fails, naming the member; a smime error iff it opened but the PKCS#7 stage failed, naming the member and carrying that stage's cause; a plist error iff the signed content did not decode; once decoding succeeded, the verdict is the identifier comparison on the decoded profile; the member passes iff it is read, its PKCS#7 message parses and verifies, its content decodes, and `Entitlements.application-identifier` is the configured string |
| `ZipCheck.EntriesVerdict` | main.go:108-132 | the verdict over an opened archive's members, taken in order; the member loop never reports the archive-open error |
| `ZipCheck.VerdictOfSomeMember` | main.go:108-132 | the verdict is acceptance or the verdict of one of the matching members: the loop adds no outcome of its own |
| `ZipCheck.ZipCheckSpec` | main.go:102-133 | the function form of `zipCheck`, over which the archive lemmas are stated: the archive-open error exactly when the archive does not open, otherwise the members' verdict |
| `ZipCheck.CheckMembers` | main.go:108-132 | the loop's verdict is the recursive verdict over the members; only matching members are opened, in order; on success all matching members were opened and passed; on failure the last one opened decided the verdict, all before it passed, and nothing after it was opened |
| `ZipCheck.Check` | main.go:102-133 | `zipCheck` equals its specification; an archive that does not open is rejected before any member is examined; only matching members are opened |
| `ZipCheck.ManifestsOnlyMatter` | main.go:108-111 | the verdict on an archive is the verdict on its matching members alone |
| `ZipCheck.OtherMembersIrrelevant` | main.go:108-111 | two archives whose matching members agree get the same verdict, however their other members differ |
| `ZipCheck.NoManifestAccepted` | main.go:108-132 | an archive with no matching member passes |
| `ZipCheck.AcceptedIff` | main.go:108-132 | the check passes iff every matching member is read, its PKCS#7 message parses and its signature verifies, its content decodes as a property list, and its `Entitlements` dictionary maps `application-identifier` to the configured string |
| `ZipCheck.FirstFailureDecides` | main.go:112-130 | the first failing matching member decides the verdict, and whatever members follow it do not change it |
| `ZipCheck.SingleProfileScenario` | main.go:102-133 | an archive whose only matching member, among any other members, is a signed profile whose entitlements (among any others) grant `id` passes iff `id` is the configured identifier, and otherwise is rejected with an invalid-identifier error naming `id` |
| `Upload.UploadStep` | main.go:55-100 | one upload: an `apiError` is always 400 or 500; the directory changes only when no filesystem call failed and the name was new, and then only by the body stored under its hex SHA-1 name |
| `Upload.Server.constructor` | main.go:26-30 | the server holds the configured identifier, the library oracles and the initial directory |
| `Upload.Server.Upload` | main.go:55-100 | the result and the new directory are those of the stage sequence temp file, copy, name, existence check, rename, archive check |
| `Upload.StatusMapping` | main.go:56-99 | a temp-file failure gives 500 `CreateTempFailed`, then a copy failure 500 `CopyFailed`, then an existing name or an `os.Stat` error 400 `AlreadyExists` with the name, then a rename failure 500 `RenameFailed`; the result is 500 iff one of those server faults decided it, 400 iff the name was refused or the archive check rejected, a panic iff every call succeeded on a new name and the check panicked, and nil iff every call succeeded on a new name and the archive passed |
| `Upload.OnlyNewFileAdded` | main.go:78-90 | an upload never replaces or removes a file; the only file it can add is the body, under the hex SHA-1 name |
| `Upload.ExistingNameRejected` | main.go:78-83 | if the name already exists, the result is 400 and the directory is unchanged |
| `Upload.StoredBeforeCheck` | main.go:85-97 | once renamed, the body stays stored whatever the archive check says; a rejection gives 400 and a panic escapes |
| `Upload.UploadTwice` | main.go:72-83 | once the bytes are stored, uploading them again gives 400 and stores nothing more |
| `Upload.KeepsContentAddressed` | main.go:72-90 | if every file is named by the hex SHA-1 of its content, that still holds after an upload |
| `Http.Route` | main.go:38-51 | the upload runs iff the path is `/upload` and the method is `PUT`; the greeting is shown iff the path is `/`; everything else is not found, including `/upload` with another method |
| `Http.UploadResponse` | main.go:39-45 | nil answers 200 `OK`; an error answers its own status; the body is always the status text; a panic gives no answer |
| `Http.Serve` | main.go:37-53 | one request: the handler answers only 200, 400, 404 or 500 (or nothing after a panic); a path other than `/` that is not `PUT /upload` gets 404 with `http.NotFound`'s body and `/` gets 200 with the greeting, neither touching the directory |
| `Http.HandleRequest` | main.go:37-53 | the response and the new directory are those of the routed handler |
| `Http.OnlyUploadStores` | main.go:37-53 | only `PUT /upload` can change the directory, and after it the directory is the upload's; it answers 200, 400 or 500 with the status text; it answers 200 iff the upload returned nil; a failed upload is answered with its own `apiError` status; it answers nothing iff the upload panicked |
| `Http.UploadNeedsPut` | main.go:38-52 | `/upload` with a method other than `PUT` gets 404; `/` gets the greeting with any method; neither touches the directory |
| `Http.EndToEnd` | main.go:37-133 | a fresh archive whose only matching member, among any other members, is a signed profile whose entitlements grant `id` gets 200 if `id` is the configured identifier and 400 otherwise; it is stored either way; sending the same bytes again gets 400 |

## Left out

- HTTP server setup, the mux, timeouts, `main`, flag registration and parsing, and `mustDataDirExists` (main.go:32-36, 150-174) are process plumbing. The configuration is passed to the `Server` constructor instead.
- SHA-1 itself, and the streaming of the body through `io.TeeReader` and `io.Copy` (main.go:64-66), are left out. The digest is the `sha1` oracle applied to the whole body. A copy failure is the `copyFails` fault.
- Zip container parsing, PKCS#7 parsing and signature verification, and property-list decoding are foreign libraries. Their results appear only as oracle outcomes.
- `parseProvisioningProfile` (mobileprovision.go:9-16) is only a call to `plist.Unmarshal` plus an error wrap. It is the `decodePlist` oracle.
- Plist arrays, numbers, booleans, dates and data are all the single value `Other`. Their contents never affect the check.
- Debug printing and logging (main.go:41, 74-76, 124-126) are left out. The text of error messages is left out too; errors are structured values that carry the same facts (stage, member name, found and expected identifier).
- `filepath.Join` and path cleaning are not modelled. The data directory is a map from file name to content.
- Temporary files, their deferred removal (main.go:63) and the zip reader's `Close` are not modelled.
- Go strings are byte strings, while the model's `string` is a sequence of characters. A member name or identifier that is not valid UTF-8 cannot be written in the model. The suffix and keys compared are ASCII, so the check's decisions on valid UTF-8 are unaffected.
- Concurrent uploads racing between `os.Stat` and `os.Rename` are not modelled. The model runs one request at a time.
