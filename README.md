# OneTabCloud sync engine in Dafny

OneTabCloud is a browser extension that saves groups of tabs and keeps them in sync
across browsers. It uses a private GitHub gist as the remote store. This project models
the core of that extension and proves properties of the model:

- **Merge engine** (`mergeGroups`). Last-write-wins reconciliation of the local and the
  remote group lists, keyed by group id.
- **Remote store adapter**, current version (`src/lib/storage.js`):
  - the token check and the request headers;
  - the container lookup: cached id, then discovery by description, then creation;
  - the chunked save: the serialised document is cut into `data-part{k}.json` slices
    of at most 900 × 1024 units, listed by an `index.json` resource;
  - the tolerant load: a missing or blank index or chunk reads as empty, and the
    parsed value is normalised to `{groups}`;
  - `syncWithGist`: token check, load, merge, local write, remote save.
- **Remote store adapter**, older version (`src/lib/gist.js`). The same save, headers
  built without a token check, create-and-cache lookup, and a strict load that throws
  on anything missing.
- **Group viewer list logic** (`src/view.js`):
  - which groups are shown and in what order, and how a decode failure is rendered;
  - the four edits that rewrite the stored list: delete (tombstone), rename, retitle
    a tab, and move a tab to another group.
- **Payload decryption** (`src/lib/crypto.js`). The byte-unpacking loop that turns the
  decrypted 32-bit words into a `Uint8Array`, and the order of the library calls
  around it.

Modules, one concern each:

| file | module | contents |
|---|---|---|
| `wrappers.dfy` | `Wrappers` | `Option`, `Result` and the JavaScript exception kinds |
| `groups.dfy` | `Groups` | `Tab`, `Group`, the abstract tab codec, id lookup |
| `merge.dfy` | `Merge` | `mergeGroups` and its properties |
| `text.dfy` | `Text` | `trim()` blankness, decimal formatting, chunk file names |
| `chunking.dfy` | `Chunking` | cutting a string into chunks, the chunk file table |
| `format.dfy` | `Format` | the remote document format; tolerant and strict decoding |
| `platform.dfy` | `Platform` | `chrome.storage.local` and the Gist REST API as objects |
| `storage.dfy` | `Storage` | `src/lib/storage.js` |
| `legacy.dfy` | `Legacy` | `src/lib/gist.js` |
| `view.dfy` | `View` | `src/view.js` |
| `crypto.dfy` | `Crypto` | `src/lib/crypto.js` |

Effects are modelled as objects with fields:

- `LocalStore` is the extension's local storage: the `pat`, `gistId`, `groups` and
  `lastSync` keys.
- `GistService` is the account's gists as the API serves them. It records every
  request in a `log`. Its `down` set names the endpoints that fail, which covers a
  network error and an HTTP error status alike.

Everything the code takes from outside is a parameter:

- **Libraries.** JSON, the tab codec, pako, CryptoJS and `TextDecoder` are records of
  functions (`JsonCodec`, `TabCodec`, `CryptoLib`). Results that need them to behave
  take that as a hypothesis: `LawfulJson`, `LawfulCodec`, `LawfulLib`.
- **Clock.** The current time is one `now` argument.
- **Server-assigned ids.** A new gist's id is the `newId` argument. The gist list must
  not already contain it (`FreshId`).
- **User answers.** `confirm`, `prompt` and the move dialog's answer are arguments.

Two details of the code are easy to get wrong:

- **Tie-break.** `mergeGroups` replaces a remote record only when the local one is
  strictly later (`src/lib/storage.js:265`). On equal `lastModified` the REMOTE record
  is kept, not the local one (`Merge.MergeTieKeepsRemote`).
- **Index format.** The index written by `src/lib/storage.js:87-92` has only
  `lastSync` and `files`. It has no `version` field.

## Model

| member | source | states |
|---|---|---|
| Groups.Find | src/lib/storage.js:263 | the index found holds the id, no later record has it, and None exactly when no record has the id |
| Merge.MergeGroups | src/lib/storage.js:253-271 | the two `forEach` loops over a key-indexed value list compute `Merged`: remote records first, then each local record offered in turn |
| Merge.MergedIds | src/lib/storage.js:253-271 | the result holds exactly the ids of the two inputs, each once |
| Merge.MergedReference | src/lib/storage.js:253-271 | for inputs with unique ids, the merge equals an independent definition: remote records in remote order, each replaced by its strictly later local counterpart, then the local-only records in local order |
| Merge.MergeLastWriteWins | src/lib/storage.js:262-268 | per id: on one side only, that side's record; on both, the local record exactly when its lastModified is strictly later, else the remote one; absent from both, absent |
| Merge.MergeEmptyRemote | src/lib/storage.js:253-271 | merging with an empty remote list gives the local list |
| Merge.MergeEmptyLocal | src/lib/storage.js:253-271 | merging an empty local list gives the remote list |
| Merge.MergeIdempotent | src/lib/storage.js:253-271 | merging a list with itself gives it back |
| Merge.MergeOrder | src/lib/storage.js:257-270 | the records at the remote ids come first in remote order, then the local-only records in local order (Map insertion order) |
| Merge.MergeTieKeepsRemote | src/lib/storage.js:265 | equal timestamps keep the remote record |
| Text.BlankAppend | src/lib/storage.js:136-140 | a concatenation is blank after `trim()` exactly when both parts are |
| Text.NatToStringInjective | src/lib/storage.js:81 | distinct chunk numbers print differently |
| Text.PartNameInjective | src/lib/storage.js:81 | chunk file names are pairwise distinct and never `index.json` |
| Chunking.SplitChunks | src/lib/storage.js:70-76 | the slicing loop yields `Chunks(s)` |
| Chunking.ChunksConcat | src/lib/storage.js:70-76 | the chunks concatenate back to the serialised string |
| Chunking.ChunkAt | src/lib/storage.js:74-75 | chunk k is `s.slice(k * chunkSize, (k + 1) * chunkSize)`, clamped at the end |
| Chunking.ChunkSizes | src/lib/storage.js:71-75 | every chunk is non-empty and at most 900 × 1024 long; all but the last are exactly that long |
| Chunking.ChunkCount | src/lib/storage.js:74 | there are ceil(length / chunkSize) chunks |
| Chunking.ChunkFiles | src/lib/storage.js:79-84 | the `forEach` fills the file table `PartTable(chunks)` |
| Chunking.PartTableAt | src/lib/storage.js:80-84 | chunk k is stored under `data-part{k+1}.json` |
| Chunking.PartTableKeys | src/lib/storage.js:80-92 | the table's keys are exactly the names the index lists |
| Format.EncodedFiles | src/lib/storage.js:79-98 | after the PATCH, whatever the gist held before, the index is the written one and every chunk sits under its name |
| Format.Reassemble | src/lib/storage.js:133-139 | the loop concatenates, in index order, the listed chunks that are present and not blank |
| Format.SurvivingBlank | src/lib/storage.js:136-140 | the reassembled data is blank exactly when no chunk survived |
| Format.DecodeFiles | src/lib/storage.js:125-150 | a missing or blank index, or no surviving chunk, decodes to `{groups: []}` |
| Format.DecodeReadsOnlyListed | src/lib/storage.js:126-139 | two file maps that agree on the index and the files it lists decode alike, so stale chunks are ignored |
| Format.StoredSurvive | src/lib/storage.js:133-139 | stored chunks, none of them blank, all survive reassembly, in order |
| Format.DecodeListed | src/lib/storage.js:126-150 | a non-blank index whose chunks reassemble to non-blank text decodes to the normalised parse |
| Format.SaveLoadRoundTrip | src/lib/storage.js:57-150 | with lawful JSON and no blank chunk, loading what saveToGist wrote gives back the saved document, whatever files the gist held before |
| Format.FreshContainerIsEmpty | src/lib/storage.js:25-47 | a newly created container decodes to the empty document |
| Format.ReassembleStrict | src/lib/gist.js:106-109 | the strict loop concatenates every listed file, and throws a TypeError exactly when a listed file is missing |
| Format.DecodeStrict | src/lib/gist.js:102-111 | a missing index, or a listed chunk that is missing, is a TypeError |
| Format.StrictRoundTrip | src/lib/gist.js:48-111 | the strict reader reads back exactly what the save wrote, with no condition on the chunks |
| Format.StrictFreshContainerFails | src/lib/gist.js:20-45 | the strict reader fails on a freshly created container, because it parses the empty string |
| Platform.GistIndex | src/lib/storage.js:120-123 | the first gist with the id, or None exactly when no gist has it |
| Platform.FilesOfFresh | src/lib/storage.js:37-49 | a gist appended under an id no earlier gist has is the one a later GET of that id reads |
| Platform.FilesOfSnoc | src/lib/storage.js:37-49 | appending a gist does not change what the earlier ids read |
| Platform.PatchedFiles | src/lib/storage.js:94-98 | after a PATCH the gist holds its old files overlaid with the sent ones; other gists read as before |
| Platform.FindByDescription | src/lib/storage.js:169 | `find`: the first gist with the description, or None exactly when there is none |
| Platform.GistService.List | src/lib/storage.js:168 | GET /gists succeeds exactly when the endpoint is up and the headers carry the token; nothing changes but the log |
| Platform.GistService.Create | src/lib/storage.js:32-49 | POST /gists appends a private gist under the new id, or fails with a network error and changes nothing |
| Platform.GistService.Fetch | src/lib/storage.js:120-125 | GET /gists/{id} returns that gist's files; an unknown id, a down endpoint or a refused token is a network error |
| Platform.GistService.Patch | src/lib/storage.js:94-98 | PATCH replaces or adds the sent files in that gist only |
| Storage.AuthHeadersAccepted | src/lib/storage.js:8-22 | the headers are null without a token; the server accepts them exactly when the stored token is its own and not empty |
| Storage.CreateSyncGist | src/lib/storage.js:25-54 | without a token nothing is sent and the result is null; otherwise one POST, and a success is the new gist's id with the sync description and an empty index appended; a failure is rethrown |
| Storage.GetGistId | src/lib/storage.js:158-188 | corrected lookup: it settles on `ContainerFor` of the state before it (the cached id with no request; else the first listed gist with the sync description; else, with a token, a new gist) and caches that id; it fails exactly when that creation is refused; the listing comes first and the creation only when nothing was found |
| Storage.LoadedCached | src/lib/storage.js:108-125 | with a cached id, loading succeeds exactly when the GET does and the files decode, and gives their decoding |
| Storage.LoadedFirstRun | src/lib/storage.js:108-150 | a first run that finds no sync gist creates one and loads it back as `{groups: []}` |
| Storage.GetGistIdAsWritten | src/lib/storage.js:158-188 | as written: the promise stays pending exactly when it is a first run, the listing finds nothing, a token is set and the creation is refused (endpoint down or token rejected); otherwise it resolves to `ContainerFor`'s id |
| Storage.FirstLookupWithCreateDown | src/lib/storage.js:179 | on a first run with the create endpoint down, the as-written lookup is pending for ever while the corrected one reports an error |
| Storage.SaveToGist | src/lib/storage.js:57-105 | built on the corrected lookup (as written, a failed creation hangs instead): false exactly without a token or a container; true exactly when the lookup's container exists and the PATCH is accepted, and then that gist holds its previous files overlaid with the chunks and the index, other gists unchanged; failures are rethrown; on every path the gist list is the PATCHed container list, else the lookup's list, else the old one, and the lookup's id is cached |
| Storage.LoadFromGist | src/lib/storage.js:108-155 | built on the corrected lookup: the answer is `Loaded` of the state before it (`{groups: []}` without a token or a container, the lookup's or the GET's error, else `DecodeFiles` of the container's files); the GET returns the container's files exactly when the endpoint is up and the token accepted; the store and the account are left on the lookup's container (a failed lookup caches nothing and changes nothing) |
| Storage.SyncWithGist | src/lib/storage.js:191-250 | built on the corrected lookup: no token, nothing happens; the remote list exists exactly when `Loaded` succeeds and is its groups; a failed load writes nothing; a successful one stores the merge and `now` locally; the save happens exactly when the container exists and the PATCH is accepted, and writes that merged document over the container's previous files, which then read back as it; the result is true exactly when the load succeeded and the save happened or had no container; the token and the failing endpoints are unchanged, the lookup's id is cached, and the gist list is the PATCHed container list after a save, else the lookup's list, else the old one |
| Legacy.LegacyHeadersAccepted | src/lib/gist.js:8-17 | the header is always built, as `token undefined` without a token; the server accepts it exactly when that text is its token |
| Legacy.CreateSyncGist | src/lib/gist.js:20-45 | one POST, whatever the headers: a private gist with an empty index, or the failure rethrown |
| Legacy.GetGistId | src/lib/gist.js:119-131 | corrected lookup: it settles on `LegacyContainer` (the cached id with no request, else one creation whose id is cached; no lookup by description) and fails exactly when that creation is refused |
| Legacy.GetGistIdAsWritten | src/lib/gist.js:119-131 | as written: the promise stays pending exactly when there is no cached id and the creation is refused (endpoint down or token rejected, including `token undefined`); otherwise it resolves to `LegacyContainer`'s id |
| Legacy.FirstLookupWithCreateDown | src/lib/gist.js:123 | on a first run with the create endpoint down, the as-written lookup is pending while the corrected one reports an error |
| Legacy.FirstLookupWithoutToken | src/lib/gist.js:123 | on a first run with no token stored, the request says `token undefined`, the as-written lookup is pending while the corrected one reports an error |
| Legacy.SaveToGist | src/lib/gist.js:48-89 | built on the corrected lookup: never answers false; succeeds exactly when the lookup does and the PATCH is accepted, and then the container holds its previous files overlaid with the same chunks and index; on every path the gist list is the PATCHed container list, else the lookup's list, else the old one |
| Legacy.LoadFromGist | src/lib/gist.js:92-116 | built on the corrected lookup: the answer is `LegacyLoaded` of the state before it, the GET returns the container's files exactly when the lookup succeeds and the GET is accepted, and the result is `DecodeStrict` of them; the store and the account are left on the lookup's container, the load itself only reads; on a first run the read fails |
| Legacy.LegacyFirstRunFails | src/lib/gist.js:92-131 | on a first run the container just created is read back by the strict reader, and that read fails |
| View.Visible | src/view.js:11 | a group is kept exactly when it is in the list and not deleted |
| View.VisibleCounts | src/view.js:11 | each live group is kept as many times as it is stored, each deleted one never |
| View.VisibleAppend | src/view.js:11 | the filter works piecewise over a concatenation, so the kept groups stay in stored order |
| View.VisibleWithTime | src/view.js:11-14 | filtering commutes with picking the groups of one lastModified |
| View.SortByRecencySorted | src/view.js:14 | the sort orders newest first and is a permutation of its input |
| View.SortByRecencyStable | src/view.js:14 | the sort is stable: groups with equal lastModified keep their relative order |
| View.DisplayedGroups | src/view.js:6-15 | the displayed list is newest first and holds exactly the non-deleted groups |
| View.DisplayedTies | src/view.js:11-14 | groups with the same lastModified are displayed in their stored order, deleted ones left out |
| View.RenderIsolatesFailure | src/view.js:22-69 | every displayed group gets a panel; a failed decode shows the failure line and no tabs in its own panel only |
| View.DeleteGroupEffect | src/view.js:140-158 | only records with the id change, keeping id and name; the group leaves the display and nothing else does |
| View.DeleteGroupLive | src/view.js:145-155 | the live records after a deletion are the live records with another id |
| View.DeleteThenMerge | src/view.js:140-158 | the tombstone wins the next merge when it is later than the remote copy, and the remote copy comes back otherwise |
| View.EditGroupNameEffect | src/view.js:161-180 | a cancelled, empty or unchanged answer changes nothing; an edit renames and stamps only the records with the group's id |
| View.EditTabTitleEffect | src/view.js:183-213 | with a lawful codec, only tab tabIndex of the edited record changes, and only its title; the record keeps every other field (id, name, version, flag) and only its tabs and its stamp, set to now, can change; a record that fails to decode is kept; other records are untouched |
| View.MoveTargets | src/view.js:222 | a group is offered exactly when it is not the source and not deleted |
| View.FindTarget | src/view.js:267 | `find`: the first offered group with the id; None exactly when no offered group has it |
| View.RemoveAt | src/view.js:277 | `splice(k, 1)` removes exactly the element at k: the elements before it keep their places, those after it move up by one |
| View.MoveTabOffered | src/view.js:216-262 | the move aborts exactly when no other live group exists, and a dismissed dialog moves nothing |
| View.MoveTabEffect | src/view.js:265-300 | a move's target is another live group; other records are untouched; the two groups' records are `{...g, tabs, lastModified: now}`: they keep id, name, version and flag, and only their tabs change besides the stamp |
| View.MoveTabConserves | src/view.js:274-300 | with a lawful codec the source loses exactly the moved tab, the target gains it at its end, and the two groups' tabs together are unchanged |
| View.DeleteGroupIn | src/view.js:140-158 | unconfirmed, nothing is written; confirmed, the stored list is replaced by its tombstoned version |
| View.EditGroupNameIn | src/view.js:161-180 | writes the renamed list only for a real edit |
| View.EditTabTitleIn | src/view.js:183-213 | writes the retitled list only for a real edit |
| View.MoveTabToGroup | src/view.js:216-313 | the stored list is rewritten only when the move happens, and then it is `MoveTab`'s list |
| Crypto.UnpackBytes | src/lib/crypto.js:26-29 | the loop fills a fresh array of sigBytes bytes, byte i taken from word i / 4, most significant byte first |
| Crypto.UnpackedReadsPrefix | src/lib/crypto.js:27-29 | only the first ceil(sigBytes / 4) words are read |
| Crypto.PackedByte | src/lib/crypto.js:10 | byte i of the big-endian packing is byte i of the input |
| Crypto.UnpackPack | src/lib/crypto.js:10-29 | the unpacking loop inverts `WordArray.create`: it gives back exactly the compressed bytes |
| Crypto.Decrypted | src/lib/crypto.js:20-36 | a decryption error is passed on; a negative byte count is a RangeError; a success went through inflate |
| Crypto.DecryptData | src/lib/crypto.js:20-36 | decryptData computes `Decrypted` |
| Crypto.EncryptDecrypt | src/lib/crypto.js:5-36 | with lawful libraries, decrypting what encryptData produced gives back the data |

## Left out

- **Transport.** HTTP, the `chrome.storage` API and their callbacks are the two
  objects in `platform.dfy`. Promises, timing and interleaving between concurrent
  syncs or edits are not modelled.
- **Failed local writes.** A failing `chrome.storage.local.set` is not modelled.
- **Timestamps** are integers compared by `>`. Invalid dates, whose comparisons give
  NaN, are not modelled, and neither is ISO-8601 formatting. All clock readings within
  one operation are the single argument `now`.
- **Gist listing.** Pagination and the server's order of the list are not modelled:
  the service keeps gists in creation order and appends new ones. An anonymous listing
  (null headers) is modelled as rejected.
- **Large files.** The truncation of large gist files in API responses is not modelled.
- **Local list shape.** The stored `groups` value is a list of groups. `syncWithGist`
  reads an absent or non-array value as `[]` (`src/lib/storage.js:209-210`); the
  viewer's handlers use `result.groups || []` (`src/view.js:8,144,166,188,219`), so an
  absent value is `[]` there too, but a truthy non-array value makes them throw. Such a
  value is not modelled.
- **JSON shapes.** The element shapes inside a JSON value are abstract.
  `JSON.stringify`, `JSON.parse`, the tab codec (`compressData`/`decompressData`),
  pako, CryptoJS AES and `TextDecoder` are parameters. `src/view.js` imports
  `compressData` and `decompressData` from `src/lib/crypto.js`, which does not define
  them. A UTF-8 round trip that fails on lone surrogates is covered only through the
  `LawfulLib` hypothesis.
- **Rendering.** DOM construction, styling and the dialogs are not modelled.
  `prompt`, `confirm`, `alert` and the selected option are arguments or outcomes.
- **`WordArray.create(bytes)`** is a CryptoJS function and is not part of this model.
  `Crypto.Pack` stands for it: four bytes per word, big-endian, with `sigBytes` equal
  to the byte count.
- **In-place array updates.** `splice` and `push` are modelled on values (`RemoveAt`,
  `+ [tab]`).
- `restoreTab`, `restoreAllTabs` and the tab-saving code in `src/background.js` and
  `src/popup/popup.js` are not part of this model.
- Chunking.ChunkAt, Chunking.ChunkCount, Chunking.ChunkSizes, Chunking.SplitChunks:
  these count a string's length in Dafny characters (Unicode scalar
  values). JavaScript's `length` and `slice` count UTF-16 code units, so for text with
  characters outside the Basic Multilingual Plane the chunk boundaries differ, and the
  code can split a surrogate pair across two chunks. The 900 × 1024 bound is stated in
  characters, not code units.
- **Tab codec failures.** `TabCodec.compress` is total. In `src/view.js:200` and
  `src/view.js:288` a throwing `compressData` inside the `try` leaves that record
  unchanged, or makes the move write nothing; that failure is not modelled.
- **Dead code.** The commented-out deletion filter at `src/lib/storage.js:212-227` is
  not part of this model.
- **Encryption.** `encryptData` is modelled only as the composition of library calls.
  Both adapters import `encryptData` and `decryptData` but never call them, so the
  sync model stores plain JSON.
- View.EditTabTitleEffect, View.EditTabTitleIn: with a tabIndex past the end of the
  decoded tabs, JavaScript writes a new element there (leaving holes) and the record
  is re-encoded. The model
  leaves that record unchanged, because the codec is abstract and cannot encode a
  sparse array.
- View.MoveTabOffered, View.MoveTabEffect, View.MoveTabConserves, View.MoveTabToGroup:
  `MoveTab` requires the tab to have been shown (`TabShown`: the rendered source
  group decodes and has a tab at tabIndex). The button exists only then.
  `decompressData` failing on the source and `splice` past the end are therefore not
  modelled.

## Findings

| source | as written | input that shows it | evidently intended | confidence | as-written member | corrected member |
|---|---|---|---|---|---|---|
| src/lib/storage.js:179 | `await createGist()` runs inside the async `chrome.storage.local.get` callback, which has no try/catch around it; a rejection is lost there and `resolve` is never called | a first run with a token, no sync gist in the listing, and POST /gists failing | the lookup rejects, so `saveToGist`, `loadFromGist` and `syncWithGist` report the failure | not executed | Storage.GetGistIdAsWritten, Storage.FirstLookupWithCreateDown | Storage.GetGistId |
| src/lib/gist.js:123 | the same `await createGist()` inside the storage callback; a rejection is lost and the promise never settles | no cached gist id and POST /gists failing (for example, no token, which sends `token undefined`) | the lookup rejects and the caller's `catch` rethrows the error | not executed | Legacy.GetGistIdAsWritten, Legacy.FirstLookupWithCreateDown, Legacy.FirstLookupWithoutToken | Legacy.GetGistId |
