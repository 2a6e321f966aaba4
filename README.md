# A verified model of the favicon generator's server core

The favicon generator is a small web app. A user uploads images, and the
server renders a 16, 32 and 48 pixel PNG of each one. It records every
image as a *favicon set*, tracks the batch as a *processing job*, and
serves the renditions back as zip archives. This project models the two
parts of the server that hold logic, and proves properties of them in
Dafny:

- **The in-memory store** (`server/storage.ts`, class `MemStorage`). It
  has two id-keyed tables, favicon sets and processing jobs. Each table
  has its own auto-increment counter, which starts at 1. See
  `storage.dfy`, module `Storage`.
  - The model is a class with map fields and counter fields, plus a
    sequence that records the set table's insertion order.
  - It also keeps two ghost sets of every id handed out, which is how it
    states that ids are never reused.
- **The request handlers' logic** (`server/routes.ts`):
  - `naming.dfy` (module `Naming`) holds the pure string rules:
    - the stem sanitiser;
    - `path.extname` and `path.basename`;
    - the download handlers' extension stripping;
    - decimal numerals;
    - output file names, URLs, zip entry names and the MIME allow-list.
  - `pipeline.dfy` (module `Pipeline`) holds the `/api/process-images`
    handler:
    - the per-size loop that fills the `sizes` record;
    - the per-file task;
    - the job lifecycle;
    - the upload filter in front of the handler.
  - `download.dfy` (module `Download`) holds `/api/download/:id` and
    `/api/download-all`: the loops that append one zip entry per stored
    file found on disk.
- **The record shapes** (`shared/schema.ts`) are the datatypes in
  `schema.dfy` (module `Schema`). That file also holds the `{ ...a, ...b }`
  spreads the store uses.

The outside world enters as parameters:

- `Date.now()`, each set's ISO timestamp, and whether each rendition's
  resize-and-write throws. These come as one `FileEnv` per file. The
  job's own timestamp is the separate parameter `jobCreatedAt`.
- Whether a stored file exists on disk. This is a predicate `onDisk` on
  the file name.

The `Promise.all` fan-out runs as a sequential loop over the files, in
index order. Every file's task runs even when an earlier one threw, as in
the source, where all tasks start together. The handler reports the
first failure in index order.

The main results:

- **Store.**
  - Ids are fresh and never reused, even after a delete.
  - Get after create returns the created record, and `getAll` lists the
    sets in ascending insertion order.
  - An update merges field by field.
  - Every operation states its whole frame.
- **Upload.**
  - An empty batch creates nothing.
  - A non-empty batch creates one job and leaves the store in a state
    given as a function of the inputs (`AfterBatch`). In that state:
    - the job is `completed` exactly when every file succeeded;
    - otherwise it is `failed`, with the first failure's message;
    - the sets already written stay;
    - no rollback: every file that succeeded has its set stored under a
      fresh id, in file order, even when another file fails;
    - `completedImages` never exceeds `totalImages` and never moves
      backwards.
  - A made set's `sizes` has exactly the keys "16", "32" and "48".
  - A made set's format is the extension without its dot.
- **Download.**
  - An archive holds exactly one entry per `sizes` entry whose file is on
    disk, in `sizes` order, and none for the others. This holds also when
    some files are missing.
  - For a set the upload made, when all three of its files are on disk,
    the entries name exactly the files the upload wrote for that set (file
    names only; contents are not modelled).
  - For names without `/`, the upload stem and the download stem agree
    except for two name shapes, which are characterised exactly. A name
    with a directory part can differ otherwise: `dir/logo.png` has the
    upload stem `logo` and the download stem `dir_logo`.

## Model

One row per operation or property. Step lemmas that only unfold a
definition at a prefix, or state a local fact a proof needs, are helpers
and have no row.

| member | source | states |
|---|---|---|
| Schema.Put | server/routes.ts:126 | after `obj[k] = v` the key order is the old one, with `k` added last when it is new; every entry under `k` holds `v`; every other entry is unchanged in place; distinct keys stay distinct |
| Schema.SetWithId | server/storage.ts:44 | `{ ...faviconSet, id }` keeps every field of the insert record and adds the id |
| Schema.JobWithId | server/storage.ts:64 | `{ ...job, id }` keeps every field of the insert record and adds the id |
| Schema.Merge | server/storage.ts:73 | `{ ...job, ...updates }`: each field named in the update takes the new value; every other field keeps the old one |
| Storage.Range | server/storage.ts:43 | the `n` ids a counter hands out from `from` are strictly ascending and all lie in `[from, from + n)` |
| Storage.RangeCovers | server/storage.ts:43 | every id in `[from, from + n)` is handed out, so with `Range` membership is exactly that interval |
| Storage.Without | server/storage.ts:54 | after a Map delete, the key order holds exactly the other keys, and no more than before |
| Storage.WithoutAscending | server/storage.ts:53-55 | deleting a key keeps the insertion order ascending |
| Storage.MemStorage.constructor | server/storage.ts:30-35 | both tables are empty and both counters are 1 |
| Storage.MemStorage.GetFaviconSet | server/storage.ts:38-40 | returns the stored set exactly when the id is present; the set carries that id |
| Storage.MemStorage.CreateFaviconSet | server/storage.ts:42-47 | returns the input with id equal to the old counter; that id was never issued; stores the set under it and appends it to the order; advances the counter by one; the job table is unchanged |
| Storage.MemStorage.GetAllFaviconSets | server/storage.ts:49-51 | returns the stored sets in insertion order: exactly the stored values, in strictly ascending id order |
| Storage.MemStorage.DeleteFaviconSet | server/storage.ts:53-55 | returns true iff the id was present; removes exactly that id from the table and the order; counters and the job table are unchanged |
| Storage.MemStorage.GetProcessingJob | server/storage.ts:58-60 | returns the stored job exactly when the id is present |
| Storage.MemStorage.CreateProcessingJob | server/storage.ts:62-67 | returns the input with id equal to the old counter; that id was never issued; stores the job under it; advances the counter by one; the set table is unchanged |
| Storage.MemStorage.UpdateProcessingJob | server/storage.ts:69-76 | an absent id returns none and changes nothing; a present id gets the merged record, and no other entry or table changes |
| Storage.MemStorage.DeleteProcessingJob | server/storage.ts:78-80 | returns true iff the id was present; removes exactly that entry; everything else is unchanged |
| Storage.CreateDeleteCreate | server/storage.ts:42-55 | two creates with a delete between them give distinct, increasing ids; get after create returns the created set; the deleted id stays absent |
| Naming.ReplaceNonAlnum | server/routes.ts:110 | each character outside ASCII letters and digits becomes `_`, and the length is kept |
| Naming.LowerCase | server/routes.ts:110 | each ASCII upper-case letter becomes lower case, position by position |
| Naming.SanitizeSpec | server/routes.ts:110 | the sanitised stem has the input's length; each character is defined position by position and lies in `[a-z0-9_]`; it contains no `/` or `.` |
| Naming.SanitizeFixedPoints | server/routes.ts:267 | the sanitiser leaves a string unchanged iff all its characters are in `[a-z0-9_]` |
| Naming.SanitizeIdempotent | server/routes.ts:316 | sanitising twice gives the same result as sanitising once |
| Naming.LastIndexOf | server/routes.ts:108 | the position of the last occurrence of the character, or -1 when there is none |
| Naming.TrimTrailingSlashes | server/routes.ts:109 | removes exactly the trailing `/` characters |
| Naming.LastSegment | server/routes.ts:257 | `url.split('/').pop()` is the longest suffix without `/`, preceded by a `/` when it is not the whole string |
| Naming.LastPart | server/routes.ts:109 | the last path component contains no `/` |
| Naming.ExtOfPartShape | server/routes.ts:108 | an extension is empty, or is a `.` followed by characters other than `.` and `/`; it is a proper suffix of its component |
| Naming.ExtNameShape | server/routes.ts:108 | `path.extname` has the same shape (`ExtensionOf`), as a suffix of the last component |
| Naming.IndexOf | server/routes.ts:132 | the position of the first occurrence of the character, or the length when there is none |
| Naming.RemoveLeadingDot | server/routes.ts:132 | `replace('.', '')` on an extension removes its leading dot and leaves no `.` or `/` |
| Naming.OriginalFormatSpec | server/routes.ts:132 | `originalFormat` is the extension without its first `.`, and holds no `.` or `/` |
| Naming.StripExtensionSpec | server/routes.ts:266 | removing `/\.[^/.]+$/` cuts the name where the regex matches; a name it does not match is kept whole |
| Naming.UploadBaseOfPlainName | server/routes.ts:108-109 | for a name without `/`, `path.basename(name, path.extname(name))` cuts at the last `.`, unless there is none, it is the first character, or the name is `..` |
| Naming.StripExtensionOfPlainName | server/routes.ts:315 | for a name without `/`, the regex strip cuts at the last `.`, unless there is none or it is the last character |
| Naming.CutsAgreeIff | server/routes.ts:108-109 | for a name without `/`, basename-without-extname equals the regex strip iff the name is neither `.png`-shaped nor `logo.`-shaped |
| Naming.StemsAgreeIffCutsAgree | server/routes.ts:108-110 | for a name without `/`, the two stems are equal iff the two cuts are equal |
| Naming.StemsAgreeIff | server/routes.ts:108-110 | for a name without `/` whose last `.` is at `j`, the upload stem equals the download stem iff the name is neither a lone leading-dot name (`.png`) nor one ending in `.` other than `..` (`logo.`) |
| Naming.DigitChar | server/routes.ts:117 | a digit below ten becomes a character from `0` to `9` |
| Naming.NatToString | server/routes.ts:117 | a numeral is non-empty, all digits, and has no leading zero |
| Naming.NatToStringRoundTrip | server/routes.ts:117 | reading the numeral of `n` back gives `n` |
| Naming.NatToStringInjective | server/routes.ts:126 | distinct sizes get distinct keys |
| Naming.UrlLastSegment | server/routes.ts:117-126 | the last `/` segment of a stored URL is the output file name the upload wrote, which is non-empty |
| Naming.FileFilter | server/routes.ts:22-29 | a file is accepted iff its MIME type is jpeg, png, gif or svg+xml; a rejection carries the fixed message |
| Pipeline.SizeKeys | server/routes.ts:126 | the `sizes` keys are the strings "16", "32" and "48" |
| Pipeline.FirstRenderFailureSticks | server/routes.ts:116-123 | once a size throws, the sizes after it do not change the file's outcome |
| Pipeline.SizesRecordSpec | server/routes.ts:113-127 | the `sizes` record has exactly the keys "16", "32" and "48", in order; key `s` maps to `/api/favicons/{stem}_{s}x{s}_{timestamp}.png` |
| Pipeline.BuildSizesPaths | server/routes.ts:113-127 | the loop reports the first size that throws; if none throws, the record it builds is the full `sizes` record |
| Pipeline.FirstRenderFailureNoneIff | server/routes.ts:116-123 | a file has no failure iff no size throws |
| Pipeline.SucceedsIff | server/routes.ts:116-123 | a file succeeds iff none of its 16, 32 and 48 renditions throws |
| Pipeline.SetForSpec | server/routes.ts:130-135 | a file's set keeps its name and timestamp, has exactly the three size keys, and has the extension without its dot as its format |
| Pipeline.ProcessFile | server/routes.ts:102-147 | one task, pass or fail. A throw leaves the store exactly as it was. On success: one new set under the next set id, built from the file; the job's `completedImages` becomes the index plus one; nothing else changes |
| Pipeline.FirstFailureIff | server/routes.ts:149-164 | a batch has no failure iff every file succeeded |
| Pipeline.FirstFailureIsFirst | server/routes.ts:150 | the reported failure is what the first failing file threw |
| Pipeline.CompletedCountBounds | server/routes.ts:138-140 | `completedImages` never exceeds the batch size; it equals it iff the last file succeeded, in particular when all did |
| Pipeline.CompletedCountMonotone | server/routes.ts:138-140 | the progress counter never moves backwards as the files run in order |
| Pipeline.CompletedCountDoesNotMeanSuccess | server/routes.ts:138-164 | in a two-file batch whose first file fails, the job counts 2 of 2 and still ends `failed` with the thrown message |
| Pipeline.KeptCount | server/routes.ts:130-135 | only the successful files' sets are created, at most one per file; all of them when every file succeeds |
| Pipeline.KeptSurvivors | server/routes.ts:130-164 | no rollback: the set of every successful file is kept whatever the other files do, and exactly one set is kept per successful file |
| Pipeline.KeptPositions | server/routes.ts:130-135 | the set of successful file `i` is kept at the position that counts the successful files before `i`, so sets are kept in file order |
| Pipeline.CreatedSpec | server/routes.ts:102-147 | one created set per successful file; successful file `i`'s set sits at the position counting the successful files before it, whether or not another file fails; each created set is that of a successful file; when all succeed, set `i` is file `i`'s |
| Pipeline.AddSetsSpec | server/routes.ts:130-135 | the sets created in a batch get consecutive fresh ids in file order, and every set stored before keeps its id and value |
| Pipeline.RanStep | server/routes.ts:130-140 | task `i` takes the store from its state after `i` tasks to its state after `i + 1` |
| Pipeline.RunTask | server/routes.ts:102-147 | one task, run as part of a batch, advances the batch's described state by one file and reports that file's outcome |
| Pipeline.RanAll | server/routes.ts:150 | after the last task the store holds the batch's sets and the job's final counter |
| Pipeline.RunTasks | server/routes.ts:102-150 | running all tasks in order reports the first failure and leaves the store in the described state |
| Pipeline.FinalJobMerge | server/routes.ts:149-162 | merging the final update into the job gives `completed`, or `failed` with the message; total and counter are kept |
| Pipeline.BatchDone | server/routes.ts:94-164 | creating the job, running the tasks and applying the final update gives `AfterBatch` |
| Pipeline.AfterBatchKeepsSuccessfulSets | server/routes.ts:130-164 | no rollback in the store: whether the job ends `completed` or `failed`, each successful file's set is stored under a fresh id (not in use before), the ids follow the old order one per successful file, the counter advances by the number of successes, and no other id appears |
| Pipeline.AfterBatchSpec | server/routes.ts:94-164 | the new job uses the next job id and counts every file; it is `completed` iff every file succeeded, `failed` with the first failure's message otherwise; other jobs and all earlier sets are unchanged; at most one set per file is added |
| Pipeline.ProcessImages | server/routes.ts:86-185 | an empty batch gets 400 "No files uploaded" and changes nothing. Otherwise the store becomes `AfterBatch`, and the reply is 200 with the new job's id when every file succeeded or 500 when one failed |
| Pipeline.FilterBatch | server/routes.ts:22-29 | a batch passes the filter iff every file's type is allowed; a refusal carries the fixed message |
| Pipeline.HandleUpload | server/routes.ts:81-186 | a refused type stops the request with the store unchanged; otherwise the outcome is `ProcessImages`'s |
| Download.KeepPresentSpec | server/routes.ts:325-345 | exactly the candidates whose file is on disk are kept, once each: there are as many entries as present candidates, and present candidate `k` sits at the position counting the present candidates before it |
| Download.PresentCountGrows | server/routes.ts:331-341 | those positions strictly increase, so the kept entries follow the candidates' order |
| Download.KeepPresentAll | server/routes.ts:325-345 | when every file is present, every candidate is kept, in order |
| Download.EntriesFromSpec | server/routes.ts:325-345 | each zip entry is named `{stem}_{size}x{size}.png` and reads the file its URL's last segment names. Entries appear exactly for the `sizes` entries whose file name is non-empty and exists, one per such entry: their number is the count of those entries, and included entry `k`'s zip entry sits at the position counting the included entries before it |
| Download.IncludedCountGrows | server/routes.ts:331-341 | those positions strictly increase, so the zip entries follow `Object.entries` order even when a file is missing |
| Download.EntriesFromAllPresent | server/routes.ts:325-345 | when every file exists there is one entry per `sizes` entry, in order |
| Download.ConcatSpec | server/routes.ts:254-280 | an entry is in the joined archive iff it is in one of the parts |
| Download.AllEntriesSpec | server/routes.ts:254-280 | an entry is in the download-all archive iff it is an entry of one of the stored sets |
| Download.UploadedSetEntries | server/routes.ts:255-272 | a set made by the upload handler, with its three files on disk, downloads as the three entries `{download stem}_{s}x{s}.png`, each reading the file the upload wrote for size `s` |
| Download.RecordEntries | server/routes.ts:325-338 | the three entries of a `sizes` record written with one stem and named with another |
| Download.RecordEntryAt | server/routes.ts:257 | entry `k` of such a record has the size as its key, and its URL names the written file |
| Download.AppendSetEntries | server/routes.ts:325-345 | the loop appends exactly the entries `EntriesFrom` describes, after those already in the archive |
| Download.DownloadSet | server/routes.ts:298-345 | an absent id gets 404 "Favicon set not found"; a present set gets `{stem}_favicons.zip`, named with the download stem, holding that set's entries |
| Download.DownloadAll | server/routes.ts:230-288 | `all_favicons.zip` holds the entries of every stored set, set after set, in store order |

## Left out

- Image resizing (`sharp`), filesystem writes and `fs.access` are
  oracles rather than code. So are directory creation, the `archiver`
  stream and `createReadStream`: the parameters `FileEnv.render` and
  `onDisk` stand for them. The archive is the list of appended entries;
  compression and archive errors are not modelled.
- Multer's limits are not modelled: the 5 MB size limit and the 20-file
  limit. Multer enforces them as middleware before the handler runs, and
  none of the code inside the handler's `try` raises a `MulterError`, so
  the handler's `MulterError` branch is not reachable from it. The limit
  errors go to Express's error handler, as a filter refusal does. The
  `ZodError` branch is not modelled either, because nothing in these
  files raises one. Only the MIME filter is modelled.
- The HTTP status of a filter rejection is not modelled: it is chosen by
  Express's error handler, which is not part of this model.
  `HandleUpload` returns `Rejected` with the message.
- `Promise.all` interleaving is not modelled. Out of order,
  `completedImages` can regress, and the `failed` write can race with
  tasks still running. The tasks run sequentially in index order. The
  reported failure is the first in index order, not the first in time.
- `Pipeline.RunTasks`: requires the job's `completedImages` to start at
  0. The handler always creates the job that way, and the contract is
  not stated for other starting values.
- `parseInt` and `isNaN` are not modelled. The download and lookup
  handlers take a well-formed `nat` id, and the 400 "Invalid ID format"
  path is not modelled.
- `Date.now()` and `new Date().toISOString()` are inputs (`FileEnv` and
  `jobCreatedAt`). Within one file, the set's `createdAt` is a separate
  input from the job's.
- The passthrough handlers are not modelled: `GET /api/favicon-sets`,
  `GET /api/favicon-sets/:id`, `GET /api/processing-jobs/:id` and
  `GET /api/favicons/:filename`. They only call one store operation, or
  serve a file.
- `typeof url === 'string'` is not modelled. Every `sizes` value is a
  string here; a non-string value, which the handlers skip, cannot occur
  in the model.
- `path.join(faviconDir, filename)` normalisation (`..` and similar) is
  left out. The existence oracle is asked about the file name itself.
- Strings are sequences of Unicode characters, not UTF-16 code units.
  The sanitiser turns each non-ASCII character into one `_`, where the
  source writes one `_` per UTF-16 code unit.
- `Schema.Put`: assumes keys are added in ascending numeric order. A JS
  object enumerates array-index keys numerically, and `Put` appends new
  keys. The two orders agree for the keys "16", "32" and "48", added in
  that order.
- An update field given explicitly as `undefined` is not modelled. A
  `Partial<ProcessingJob>` field is either named with a value (`null`
  for `error`) or absent.
- File contents are not modelled, only file names. A batch's tasks all
  read `Date.now()` before their first `await`, so the files of one
  batch normally share a timestamp. Two files with the same upload stem
  (`logo.png` and `logo.jpg`) then write to the same output names, and
  the later write replaces the earlier renditions. Both sets then
  download the same bytes. The model proves which names are written and
  read, not which bytes those files hold.
- `path` is modelled as its POSIX flavour. On win32, `\` is also a
  separator for `path.extname` and `path.basename`; that is not modelled.
- Ids and counters are unbounded naturals. The source's counters are JS
  numbers, exact only up to 2^53: past that, `++` stops advancing, so an
  id would be handed out again and `Map.set` would overwrite the earlier
  record. "Ids are fresh and never reused" holds in the source only below
  2^53 creates per table.
- Console logging is not modelled, and neither is the `pending` status,
  which no handler writes.
