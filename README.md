# Photonix ingestion bookkeeping, in Dafny

This project models how Photonix files away photos on disk. `record_photo` is
called once per path, and its job is to keep the catalogue of cameras, lenses,
photos, photo files, subject tags and deferred tasks in step with the
filesystem. The model proves properties of that bookkeeping.

It covers two versions of the code:

- **The current version** (`photonix/photos/utils/db.py`).
  - `record_photo(path, library, inotify_event_type)` works as a router:
    - a DELETE or MOVED_FROM event deletes the path's record;
    - an unchanged modification time returns at once;
    - otherwise it scans the date keys by priority, finds or creates the
      camera and the lens and widens their observed date ranges, matches a
      photo by capture instant or creates one with its subject tags, drops
      the matched photo's files that vanished from disk, writes the file
      record (orientation swap, HEIF MIME fallback), and enqueues an
      `ensure_raw_processed` task.
  - The delete operations: `delete_photofile_and_photo_record` (the
    cascade), and `delete_photo_record` and `delete_child_dir_all_photos`,
    which add the orphan sweep of tags, cameras and lenses.
  - The path rewrite `move_or_rename_photo`.
- **The older version** (`frontend-web/photos/utils/db.py`). Its
  `record_photo(path)` has the short-circuit, unconditional camera and lens
  find-or-create, photo match-or-create by `get_datetime(path)`, and the file
  record update. It has no delete handling, no orientation swap and no task.

## Modules

- **Wrappers** — `Option` and `Result`.
- **Text** — the Python string operations the code relies on: `strip`,
  slicing, `replace(pat, '')`, `split`, `split(' ', 1)[0]`, `lower`, `in`,
  `re.search('[0-9]+')`, `int` and `os.path.splitext`.
- **Records** — the data model and the shared rules of the object store:
  - the data model is a `Store` value plus the `Catalog` class, whose map
    fields are the tables and which the methods update in place;
  - the shared rules are Django's `get` (none, one or several matches) and
    the date-range update of a camera or lens.
- **PhotonixRules** — the value rules inside `record_photo`, lifted into pure
  functions.
- **PhotonixDb** — the delete, purge and rename operations.
- **PhotonixRecord** — the current `record_photo`.
- **LegacyDb** — the older `record_photo`.

## How the model is built

Every state-changing operation is a `method` on a `Catalog`. Its
postcondition equates the new tables and the returned value with a
specification function of the old tables. Lemmas state the intended
properties about those functions.

An exception is a `Result` error. Saves made before the exception stay in
the returned tables, because Django commits each `save()` at once.

Python's keyword arguments are evaluated left to right. So in the older
version the first failing attribute of `Photo(...)` decides which exception
is raised.

The model reproduces the source as written, including behaviour the
surrounding design calls questionable:

- A comparison between a capture instant and a `None` range bound raises.
- The lens and photo lookups ignore the library; the camera lookup does not.
- Duplicate subject tokens create duplicate tags.
- A task is enqueued for a matched photo too.
- The directory delete matches a raw string prefix.
- The loop on line 140 rebinds `photo_file`, so after it the file record
  written is the last one visited, not the record for `path`.
  `PhotonixRecord.FinishedWritesLastVisited` states what follows from that:
  - if the path already has a record, the write collides with it on the
    unique path;
  - otherwise the visited record is moved to the new path.

The model of the older version reads every metadata value up front, into a `Readings`
value. Each reading is either a value or the exception the source would
raise, and the model raises it only where the source evaluates it.

Where the general description of the system and the code disagree, the model
follows the code:

- Subjects: "cat, cat, outdoors" yields three tags, not two.
- Lens and photo lookups are not scoped by library.
- A malformed GPS position raises instead of leaving the location empty.
- Lookups that find several rows raise `MultipleObjectsReturned`.
- Find-or-create is unguarded.

## Model

| member | source | states |
|---|---|---|
| Text.Strip | photonix/photos/utils/db.py:46 | `strip()` is empty iff the text is all whitespace; otherwise it starts and ends with non-whitespace, is the slice after the leading whitespace, and only whitespace follows it |
| Text.Take | photonix/photos/utils/db.py:43 | `s[:n]` has length min(\|s\|, n) and is a prefix of `s` |
| Text.RemoveAllAbsent | photonix/photos/utils/db.py:46 | `replace(make, '')` leaves a model that does not contain the make unchanged |
| Text.RemoveAllLeading | photonix/photos/utils/db.py:46 | `replace(make, '')` drops a leading occurrence of the make and goes on with the rest |
| Text.SplitOn | photonix/photos/utils/db.py:130 | `split(',')` gives at least one piece and no piece contains the separator; `JoinSplit` and `SplitJoin` make it the inverse of `Join` |
| Text.JoinSplit | photonix/photos/utils/db.py:130 | joining the comma-split pieces with the separator gives back the subject string |
| Text.SplitJoin | photonix/photos/utils/db.py:130 | splitting the join of separator-free pieces gives back the pieces |
| Text.BeforeFirst | photonix/photos/utils/db.py:116 | `split(' ', 1)[0]` is the longest prefix without a space; the character after it, if any, is the space |
| Text.BeforeFirstIsFirstPiece | photonix/photos/utils/db.py:125 | `split(' ')[0]` equals `split(' ', 1)[0]` |
| Text.Lower | photonix/photos/utils/db.py:117 | ASCII lower-casing, as `lower()` acts on the texts the code compares, keeps the length and lower-cases each character |
| Text.ContainsOnLower | photonix/photos/utils/db.py:117 | `'on' in s.lower()` iff some 'o'/'O' is directly followed by 'n'/'N' |
| Text.FirstDigitRun | photonix/photos/utils/db.py:94 | `re.search('[0-9]+')` finds nothing iff there is no digit; otherwise the match is the leftmost maximal digit run |
| Text.ParseInt | frontend-web/photos/utils/db.py:66 | `int()` of a string: surrounding whitespace stripped, an optional sign, then ASCII digits where single underscores may separate digits; anything else is the `ValueError` |
| Text.ParseIntDigits | frontend-web/photos/utils/db.py:66 | `int()` of a plain digit string is its decimal value |
| Text.ParseIntNeedsDigit | frontend-web/photos/utils/db.py:66 | `int()` of a text without an ASCII digit raises |
| Text.Extension | photonix/photos/utils/db.py:154 | `splitext(path)[1]`, when not empty, is the suffix from the last dot of the last path component, which some non-dot character precedes in that component; and when such a dot exists the result is exactly that suffix |
| Records.GetOne | photonix/photos/utils/db.py:18-21 | Django `get`: DoesNotExist iff no match, the row iff exactly one, MultipleObjectsReturned iff two or more |
| Records.GetRow | photonix/photos/utils/db.py:50 | the executable lookup returns exactly what `get` specifies |
| Records.PathLookupNotSeveral | photonix/photos/utils/db.py:18-21 | under the unique-path constraint a lookup by path never finds several records |
| Records.Tracked | photonix/photos/utils/db.py:18-21 | the record found by path is absent iff no record has the path, else it is a record with that path |
| Records.TrackedIs | photonix/photos/utils/db.py:18-21 | with unique paths, the lookup returns the one record that has the path |
| Records.FindFile | photonix/photos/utils/db.py:18-21 | `PhotoFile.objects.get(path=path)` on the tables returns the tracked record |
| Records.ExtendBounds | photonix/photos/utils/db.py:51-56 | the range update raises iff the instant or a bound is None; otherwise the range becomes (min, max) with the instant |
| Records.ExtendBoundsCovers | photonix/photos/utils/db.py:51-56 | an ordered range, once extended, stays ordered and contains the instant |
| Records.CatalogGrownWellFormed | photonix/photos/utils/db.py:42-76 | growing only the camera and lens tables keeps every integrity constraint |
| Records.CameraExtended | photonix/photos/utils/db.py:50-56 | the camera map afterwards is the old one with only the found camera's range replaced by `ExtendBounds`; lenses are untouched; the call raises iff a comparison raised, and the first update stays saved |
| Records.LensExtended | photonix/photos/utils/db.py:66-72 | the lens map afterwards is the old one with only the found lens's range replaced by `ExtendBounds`; cameras are untouched; the call raises iff a comparison raised |
| Records.PhotoInserted | photonix/photos/utils/db.py:128 | `photo.save()` stores exactly this photo under the fresh key, every other photo keeps its key and row, and no other table changes |
| Records.ExtendCamera | photonix/photos/utils/db.py:51-56 | the two compare-and-save steps leave the tables and result of `CameraExtended` |
| Records.ExtendLens | photonix/photos/utils/db.py:67-72 | the two compare-and-save steps leave the tables and result of `LensExtended` |
| PhotonixRules.DateKeyIndex | photonix/photos/utils/db.py:36-40 | the first date key whose value parses: no earlier key parses, and the chosen one does |
| PhotonixRules.DateTaken | photonix/photos/utils/db.py:35-40 | the capture instant is None iff no date key parses; otherwise it is the parse of the first key, in the listed order, whose value parses |
| PhotonixRules.ScanDateTaken | photonix/photos/utils/db.py:35-40 | the loop with `break` returns exactly the first-key-wins instant |
| PhotonixRules.CameraMake | photonix/photos/utils/db.py:43 | the make is a prefix of the raw make within the column length, and the whole value when shorter |
| PhotonixRules.CameraModel | photonix/photos/utils/db.py:44-47 | a non-empty raw value becomes the raw value with every occurrence of the make removed, stripped and cut to the column length; within that length, no leading whitespace; empty iff the length is 0 or nothing but whitespace is left once the make is removed |
| PhotonixRules.CameraModelDropsMake | photonix/photos/utils/db.py:44-47 | a model name that begins with the make and does not repeat it ("Canon EOS 5D" with make "Canon") becomes what follows the make, stripped and cut to the column length |
| PhotonixRules.IsoSpeed | photonix/photos/utils/db.py:91-96 | None iff the ISO value is missing, empty or digit-free; otherwise the value of its first digit run |
| PhotonixRules.Aperture | photonix/photos/utils/db.py:99-107 | None iff the value is missing or empty, or unparseable, or infinite; otherwise the parsed `Decimal` |
| PhotonixRules.Truncated | photonix/photos/utils/db.py:112-120 | `get(key, '')[:max] or None`: None iff the value is empty or missing or the limit is 0; otherwise a non-empty prefix within the limit, the whole value when it fits |
| PhotonixRules.FocalLength | photonix/photos/utils/db.py:116 | None iff the value is missing, empty or starts with a space; otherwise the space-free prefix up to the first space |
| PhotonixRules.Flash | photonix/photos/utils/db.py:117 | true iff the value is present and contains "on" in any letter case |
| PhotonixRules.Altitude | photonix/photos/utils/db.py:125 | None iff the value is missing; otherwise the space-free prefix up to the first space |
| PhotonixRules.CleanTokens | photonix/photos/utils/db.py:130-132 | every token is non-empty with no whitespace at either end, and there are no more tokens than pieces; which tokens they are is `CleanTokensContent` |
| PhotonixRules.CleanTokensContent | photonix/photos/utils/db.py:130-132 | the k-th token is the stripped k-th piece that is not all whitespace, so there is exactly one token per such piece, in order |
| PhotonixRules.NonBlank | photonix/photos/utils/db.py:131-132 | the positions of the pieces that are not all whitespace: all of them and no other, in increasing order |
| PhotonixRules.Dimensions | photonix/photos/utils/db.py:144-149 | (height, width) iff the orientation is one of the four quarter turns; (width, height) otherwise |
| PhotonixRules.MimeType | photonix/photos/utils/db.py:151-158 | a non-empty guess is kept; otherwise `image/heic` iff the lower-cased extension is `.heic`, `image/heic-sequence` iff it is `.heics`, else the blank guess |
| PhotonixDb.Purged | photonix/photos/utils/db.py:185-187 | the three orphan deletions: tags with no link, cameras and lenses with no photo |
| PhotonixDb.PurgedWellFormed | photonix/photos/utils/db.py:185-187 | the orphan sweep keeps the store well-formed and leaves no orphan tag, camera or lens |
| PhotonixDb.PurgedSpec | photonix/photos/utils/db.py:185-187 | the sweep removes exactly the unlinked tags and unreferenced cameras and lenses, every surviving tag, camera and lens keeps its row, no other table or the key counter changes, and a second sweep changes nothing |
| PhotonixDb.FileRemoved | photonix/photos/utils/db.py:212-217 | the record's deletion, with its photo and that photo's tag links when no other record refers to the photo |
| PhotonixDb.FileRemovedSpec | photonix/photos/utils/db.py:212-217 | the file goes and no other file changes; its photo goes iff no other file refers to it, with exactly its tag links; every photo and link that stays keeps its row; tags, cameras, lenses, tasks and the key counter are untouched |
| PhotonixDb.FileRemovedWellFormed | photonix/photos/utils/db.py:212-217 | the cascade keeps the store well-formed |
| PhotonixDb.PhotoRecordDeleted | photonix/photos/utils/db.py:182-188 | `delete_photo_record`: the record's deletion followed by the orphan sweep |
| PhotonixDb.PhotoRecordDeletedSpec | photonix/photos/utils/db.py:182-188 | the cascade's file and photo changes, then well-formed and orphan-free |
| PhotonixDb.FilesRemoved | photonix/photos/utils/db.py:204-205 | deleting a set of records: they go, and so do the photos left with no record, with their tag links |
| PhotonixDb.FilesRemovedStep | photonix/photos/utils/db.py:204-205 | deleting one more file after a set of them equals deleting the larger set |
| PhotonixDb.FilesRemovedNone | photonix/photos/utils/db.py:204-205 | deleting no files changes nothing |
| PhotonixDb.FilesRemovedWellFormed | photonix/photos/utils/db.py:204-205 | deleting any set of files with the cascade keeps the store well-formed |
| PhotonixDb.DirectoryDeleted | photonix/photos/utils/db.py:202-209 | `delete_child_dir_all_photos`: every record whose path starts with the directory is deleted, then the orphan sweep |
| PhotonixDb.DirectoryDeletedSpec | photonix/photos/utils/db.py:202-209 | no file left has the directory as a string prefix; every other file stays unchanged, and its photo stays with its row; no orphan; well-formed |
| PhotonixDb.PurgeOrphans | photonix/photos/utils/db.py:185-187 | the three deletions leave the swept store, orphan-free and valid |
| PhotonixDb.DeletePhotofileAndPhotoRecord | photonix/photos/utils/db.py:212-217 | the deletion leaves the cascade's store and keeps it valid |
| PhotonixDb.DeletePhotoRecord | photonix/photos/utils/db.py:182-188 | returns True and leaves the cascade followed by the sweep |
| PhotonixDb.DeleteFiles | photonix/photos/utils/db.py:204-205 | the loop over the fetched files, in any order, leaves the set deletion of them all |
| PhotonixDb.DeleteChildDirAllPhotos | photonix/photos/utils/db.py:202-209 | returns True and leaves the directory deletion's store |
| PhotonixDb.Moved | photonix/photos/utils/db.py:191-199 | `move_or_rename_photo`: the one record at the old path takes the new path unless another record holds it; any failure is swallowed with no change |
| PhotonixDb.MovedSpec | photonix/photos/utils/db.py:191-199 | renamed iff a file is at the old path and no other file is at the new one, and then only that file's path changes; otherwise True and nothing changes |
| PhotonixDb.MovedWellFormed | photonix/photos/utils/db.py:191-199 | a rename keeps paths unique and the store well-formed |
| PhotonixDb.MoveOrRenamePhoto | photonix/photos/utils/db.py:191-199 | the get, assign and save leave the rename's store and result |
| PhotonixRecord.CameraResolved | photonix/photos/utils/db.py:48-60 | only cameras and the key counter change, no camera is removed, and a returned camera exists |
| PhotonixRecord.CameraResolvedSpec | photonix/photos/utils/db.py:43-60 | no camera if make or model is empty; a new camera in the library with range [instant, instant]; two or more matches raise with no change; for one match the camera map is the old one with only that camera's range replaced, by (min, max) with the instant |
| PhotonixRecord.LensResolved | photonix/photos/utils/db.py:62-76 | only lenses and the key counter change, no lens is removed, and a returned lens exists |
| PhotonixRecord.LensResolvedSpec | photonix/photos/utils/db.py:62-76 | a missing or empty name gives no lens and no change; the lens of that name, in any library, is the only lens whose range changes, to (min, max) with the instant (raising on a None); two or more raise with no change; with no such lens, one is created in this library with range [instant, instant] |
| PhotonixRecord.Prepared | photonix/photos/utils/db.py:34-96 | the lookups only grow cameras and lenses; on success the camera, lens and matched photo exist and the photo was taken at the instant |
| PhotonixRecord.PreparedPlan | photonix/photos/utils/db.py:34-84 | a plan holds the first date key's instant and the camera and lens the two lookups return; a photo is matched iff the instant is known and some photo, in any library, was taken then, and the match is the only such photo |
| PhotonixRecord.PreparedSeveral | photonix/photos/utils/db.py:78-84 | once camera and lens are settled, two or more photos taken at the instant raise `MultipleObjectsReturned`, keeping the camera and lens rows |
| PhotonixRecord.TagsAdded | photonix/photos/utils/db.py:130-138 | the subject loop touches only tags, links and the key counter, using two keys per subject |
| PhotonixRecord.TagsAddedStep | photonix/photos/utils/db.py:130-138 | one more subject piece adds a tag and link exactly when its stripped text is non-empty |
| PhotonixRecord.TagsAddedKeeps | photonix/photos/utils/db.py:133-137 | existing tags and links stay, and exactly one tag and one link are added per subject, duplicates included |
| PhotonixRecord.TagsAddedNamed | photonix/photos/utils/db.py:133-137 | the i-th subject gets a tag of kind "G" in the library with its name, linked to the photo with confidence 1.0 |
| PhotonixRecord.TagsAddedWellFormed | photonix/photos/utils/db.py:130-138 | adding tags for a stored photo keeps the store well-formed |
| PhotonixRecord.SweptAmongStep | photonix/photos/utils/db.py:140-142 | visiting one more file drops it exactly when its path vanished |
| PhotonixRecord.FileRecord | photonix/photos/utils/db.py:144-168 | the record is bound to the photo and the path, and carries the oriented dimensions, the MIME fallback, the stat time and size, and preferred false |
| PhotonixRecord.FileSaved | photonix/photos/utils/db.py:169 | the save raises iff another record has the path; otherwise the target or a fresh record holds the new fields, and other records and tables are untouched |
| PhotonixRecord.FileSavedWellFormed | photonix/photos/utils/db.py:169 | saving a record bound to a stored photo keeps the store well-formed |
| PhotonixRecord.Completed | photonix/photos/utils/db.py:160-179 | photos, tags and links are untouched, only a fresh file key can appear, the target holds the record, and a failed save enqueues nothing |
| PhotonixRecord.CompletedSpec | photonix/photos/utils/db.py:160-179 | on success the record is stored and exactly one `ensure_raw_processed` task for the photo, in its library, is enqueued, and the photo is returned |
| PhotonixRecord.CreatedSpec | photonix/photos/utils/db.py:109-138 | a new photo gets one tag of kind "G" per subject, named after it and linked with confidence 1.0 |
| PhotonixRecord.CompletedWellFormed | photonix/photos/utils/db.py:160-179 | writing the record and enqueuing the `Task` row keeps the store well-formed |
| PhotonixRecord.Created | photonix/photos/utils/db.py:109-138 | the new photo is stored under the fresh key, and files, cameras, lenses and tasks are untouched |
| PhotonixRecord.Swept | photonix/photos/utils/db.py:139-142 | the sweep only removes files; all other tables are untouched |
| PhotonixRecord.SweptWellFormed | photonix/photos/utils/db.py:139-142 | the sweep keeps the store well-formed |
| PhotonixRecord.CreatedWellFormed | photonix/photos/utils/db.py:109-138 | creating a photo whose camera and lens exist, with its tags, keeps the store well-formed |
| PhotonixRecord.FinishedWellFormed | photonix/photos/utils/db.py:97-179 | the creation or sweep, the file write and the `Task` row keep the store well-formed, success or raise |
| PhotonixRecord.NewPhoto | photonix/photos/utils/db.py:109-127 | the new photo's fields: the request's library, the plan's instant, camera, lens and location, and the metadata-derived values with their truncations |
| PhotonixRecord.Finished | photonix/photos/utils/db.py:97-179 | after the lookups: a new photo with its subject tags, or the matched photo with its vanished records dropped; then the record written to the tracked or last visited record, or a new one, and a `Task` row enqueued |
| PhotonixRecord.Recorded | photonix/photos/utils/db.py:13-179 | `record_photo`: delete events, the missing file, the unchanged-time short-circuit, the lookups, then `Finished` |
| PhotonixRecord.RecordedWellFormed | photonix/photos/utils/db.py:13-179 | `record_photo` keeps the store well-formed whatever it returns or raises |
| PhotonixRecord.RecordedDeleteEvent | photonix/photos/utils/db.py:23-27 | DELETE/MOVED_FROM returns True; an untracked path changes nothing; a tracked one goes through `delete_photo_record` |
| PhotonixRecord.RecordedUnchangedFile | photonix/photos/utils/db.py:29-32 | a record whose stored time equals the stat time gives True and no change at all |
| PhotonixRecord.RecordedMissingFile | photonix/photos/utils/db.py:29 | a path that does not exist raises and changes nothing |
| PhotonixRecord.RecordedChangedFile | photonix/photos/utils/db.py:29-179 | an existing file with a missing or out-of-date record goes through the lookups: a raise there keeps the rows already written, and a plan is finished |
| PhotonixRecord.RecordedMatchedPhoto | photonix/photos/utils/db.py:78-108 | with exactly one photo, in any library, taken at the file's instant, no photo is created or changed and a success returns that photo |
| PhotonixRecord.RecordedNewPhoto | photonix/photos/utils/db.py:78-127 | with no instant or no photo taken then, a success adds exactly one photo, under a key not used before, taken at that instant in the request's library, and changes no other photo |
| PhotonixRecord.FinishedAddsPhoto | photonix/photos/utils/db.py:97-128 | after the lookups, a plan with no match adds one photo under a fresh key, taken at the plan's instant in the request's library, and changes no other photo |
| PhotonixRecord.FinishedNewPhoto | photonix/photos/utils/db.py:97-179 | with no match, the photo with the rule-computed attributes is stored under the fresh key, with its subject tags, and on success the file is bound to it and a task enqueued |
| PhotonixRecord.FinishedMatchedPhoto | photonix/photos/utils/db.py:139-179 | with a match, no photo, tag or link is created, the vanished files are dropped, and on success the record is bound to the matched photo and a task is enqueued |
| PhotonixRecord.FinishedWritesLastVisited | photonix/photos/utils/db.py:140-169 | when the loop's last file is another live record, that record is written: a collision on a tracked path, otherwise a move of that record to the path |
| PhotonixRecord.FinishedCollides | photonix/photos/utils/db.py:140-169 | with the path tracked, writing the last visited record raises on the unique path |
| PhotonixRecord.FinishedRenames | photonix/photos/utils/db.py:140-169 | with the path untracked, the last visited record takes the path and its old path disappears |
| PhotonixRecord.CompletedMoves | photonix/photos/utils/db.py:161-169 | writing a free path to a record leaves no record at its old path |
| PhotonixRecord.ResolveCamera | photonix/photos/utils/db.py:48-60 | the get, compare-and-save steps or create leave `CameraResolved`'s tables and result |
| PhotonixRecord.ResolveLens | photonix/photos/utils/db.py:62-76 | the get, compare-and-save steps or create leave `LensResolved`'s tables and result |
| PhotonixRecord.Prepare | photonix/photos/utils/db.py:34-96 | the date scan, the lookups and the GPS unpacking leave `Prepared`'s tables and result |
| PhotonixRecord.AddTag | photonix/photos/utils/db.py:133-137 | `create` of the tag and its link leaves exactly those two new rows |
| PhotonixRecord.AddSubjectTags | photonix/photos/utils/db.py:130-138 | the subject loop leaves one tag and link per cleaned subject, in order |
| PhotonixRecord.AddTagsFor | photonix/photos/utils/db.py:130-138 | the loop over the comma-split pieces equals `TagsAdded` of the cleaned tokens |
| PhotonixRecord.SweepFile | photonix/photos/utils/db.py:140-142 | one loop step deletes the record iff its path vanished, and reports what the loop variable then denotes |
| PhotonixRecord.DeleteMissingFiles | photonix/photos/utils/db.py:139-142 | the loop drops exactly the photo's vanished files and ends on one of them, or on none iff it had none |
| PhotonixRecord.SaveFile | photonix/photos/utils/db.py:169 | `photo_file.save()` leaves `FileSaved`'s tables and result |
| PhotonixRecord.CreatePhoto | photonix/photos/utils/db.py:109-138 | the save and the subject loop leave `Created`'s tables and return the fresh key |
| PhotonixRecord.Complete | photonix/photos/utils/db.py:160-179 | the field assignments, save and task leave `Completed`'s tables and result |
| PhotonixRecord.Finish | photonix/photos/utils/db.py:97-179 | the create-or-sweep and the write leave `Finished`'s tables and result for the record the loop ended on |
| PhotonixRecord.RecordPhoto | photonix/photos/utils/db.py:13-179 | the whole call leaves `Recorded`'s tables and result, and keeps the catalogue valid |
| LegacyDb.CameraModel | frontend-web/photos/utils/db.py:25-28 | raises iff a non-empty model meets a missing make; a missing or empty model is kept; otherwise the model with every occurrence of the make removed, then stripped |
| LegacyDb.CameraModelDropsMake | frontend-web/photos/utils/db.py:25-28 | a model name that begins with the make and does not repeat it becomes what follows the make, stripped |
| LegacyDb.ApertureValue | frontend-web/photos/utils/db.py:64 | `Decimal(aperture)` succeeds iff the value is present and parses, and then it is the parse, infinities included |
| LegacyDb.IsoValue | frontend-web/photos/utils/db.py:66 | `int(iso)` raises `ValueError`/`TypeError` when it fails, and always when the value is missing |
| LegacyDb.IsoValueDigits | frontend-web/photos/utils/db.py:66 | a plain ASCII digit string reads as its value; a value without an ASCII digit raises |
| LegacyDb.FocalLengthValue | frontend-web/photos/utils/db.py:67 | raises iff the value is missing; otherwise the space-free prefix up to the first space |
| LegacyDb.FlashValue | frontend-web/photos/utils/db.py:68 | raises iff the value is missing |
| LegacyDb.FlashValueOn | frontend-web/photos/utils/db.py:68 | with a value, true iff it contains "on" in any letter case |
| LegacyDb.NewPhoto | frontend-web/photos/utils/db.py:61-76 | raises iff the aperture, ISO, focal length or flash fails, the first failing one deciding the error; otherwise it has `get_datetime(path)` as its instant and the parsed values |
| LegacyDb.CameraResolved | frontend-web/photos/utils/db.py:31-41 | only cameras and the key counter change, and a camera is always returned |
| LegacyDb.CameraResolvedSpec | frontend-web/photos/utils/db.py:31-41 | the camera with that make and model, in any library and even with missing values, is the only camera whose range changes, to (min, max) with the instant (raising on a None); two or more raise; else one is created with range [instant, instant] |
| LegacyDb.LensResolved | frontend-web/photos/utils/db.py:43-55 | only lenses and the key counter change, and a lens is always returned |
| LegacyDb.LensResolvedSpec | frontend-web/photos/utils/db.py:43-55 | the lens of that name, even a missing one, is the only lens whose range changes, to (min, max) with the instant (raising on a None); two or more raise; else one is created with range [instant, instant] |
| LegacyDb.PhotoResolved | frontend-web/photos/utils/db.py:57-77 | existing photos stay; at most the fresh key is added; the returned photo was taken at the instant |
| LegacyDb.PhotoResolvedSpec | frontend-web/photos/utils/db.py:57-77 | a photo taken at the instant is reused and none created; otherwise exactly the built photo, with camera and lens, is added, or its error raised with no change |
| LegacyDb.FileRecord | frontend-web/photos/utils/db.py:79-86 | the record is bound to the photo and path, with the stat time and size, raw width and height, the guessed type and preferred false |
| LegacyDb.FileWritten | frontend-web/photos/utils/db.py:87 | the save touches only the file table and the key counter |
| LegacyDb.FileWrittenBinds | frontend-web/photos/utils/db.py:79-87 | after the write the only record at the path is the written one |
| LegacyDb.Read | frontend-web/photos/utils/db.py:23-76 | the readings of one file are coherent: the instant is `get_datetime(path)` and the photo built is `NewPhoto`'s |
| LegacyDb.Registered | frontend-web/photos/utils/db.py:23-89 | the steps after the short-circuit: camera, lens, photo, then the record written |
| LegacyDb.Recorded | frontend-web/photos/utils/db.py:12-89 | `record_photo(path)`: the stat, the unchanged-time short-circuit returning False, then `Registered` |
| LegacyDb.RegisteredWellFormed | frontend-web/photos/utils/db.py:23-89 | the changed-file path keeps the store well-formed, success or raise |
| LegacyDb.PhotoResolvedWellFormed | frontend-web/photos/utils/db.py:57-77 | matching or creating the photo keeps the store well-formed |
| LegacyDb.FileWrittenWellFormed | frontend-web/photos/utils/db.py:79-87 | writing the path's record keeps the store well-formed |
| LegacyDb.RegisteredWritesFile | frontend-web/photos/utils/db.py:23-89 | on success the call returns True and the path's record, old or new key, holds the file's fields and a photo taken at the instant; no other record changes |
| LegacyDb.RegisteredMatchedPhoto | frontend-web/photos/utils/db.py:57-89 | with a photo at the instant, success creates no photo and binds the record to it |
| LegacyDb.RegisteredNewPhoto | frontend-web/photos/utils/db.py:57-89 | with no photo at the instant, success adds exactly the built photo with a camera and a lens and binds the record to it |
| LegacyDb.RecordedWellFormed | frontend-web/photos/utils/db.py:12-89 | `record_photo` keeps the store well-formed whatever it returns or raises |
| LegacyDb.RecordedMissingFile | frontend-web/photos/utils/db.py:13 | `os.stat` of a missing path raises and nothing changes |
| LegacyDb.RecordedUnchangedFile | frontend-web/photos/utils/db.py:13-21 | a record whose stored time equals the stat time gives False and no change |
| LegacyDb.RecordedWritesFile | frontend-web/photos/utils/db.py:12-89 | a missing or out-of-date record never gives False; on success True, and the path's record holds the file's fields |
| LegacyDb.RecordedMatchedPhoto | frontend-web/photos/utils/db.py:57-89 | with a photo at `get_datetime(path)`, success creates no second photo and binds to it |
| LegacyDb.RecordedNewPhoto | frontend-web/photos/utils/db.py:57-89 | with no photo at `get_datetime(path)`, success needed a parseable aperture, an `int`-able ISO, a focal length and a flash, and adds exactly the built photo |
| LegacyDb.RecordedTwice | frontend-web/photos/utils/db.py:12-89 | after a call returned True, the same call returns False and changes nothing |
| LegacyDb.ResolveCamera | frontend-web/photos/utils/db.py:31-41 | the get, compare-and-save steps or create leave `CameraResolved`'s tables and result |
| LegacyDb.ResolveLens | frontend-web/photos/utils/db.py:43-55 | the get, compare-and-save steps or create leave `LensResolved`'s tables and result |
| LegacyDb.ResolvePhoto | frontend-web/photos/utils/db.py:57-77 | the get or build-and-save leaves `PhotoResolved`'s tables and result |
| LegacyDb.WriteFile | frontend-web/photos/utils/db.py:79-87 | the field-by-field assignment and save leave `FileWritten`'s tables |
| LegacyDb.Register | frontend-web/photos/utils/db.py:23-89 | the steps after the short-circuit leave `Registered`'s tables and result |
| LegacyDb.RecordPhoto | frontend-web/photos/utils/db.py:12-89 | the whole call leaves `Recorded`'s tables and result, and keeps the catalogue valid |

## Left out

- The Django ORM is not modelled. Tables are maps keyed by a natural number,
  and one counter (`Store.nextId`) stands for primary keys (UUIDs in the
  source). Deleting a photo removes its tag links, as the orphan-tag sweep
  assumes. Save-time field coercion and validation are not modelled:
  - a NaN or infinite `Decimal` is stored as it is;
  - `max_length` is enforced only where the code itself truncates;
  - width, height and star rating stay strings.
- The field length limits come from model classes that are not part of this
  model. They are a `Limits` parameter.
- External functions are uninterpreted fields of `Env`:
  - `PhotoMetadata`/exiftool (a map from tag names to strings);
  - `parse_datetime`, `get_datetime` and `parse_gps_location`;
  - the `Decimal` constructor;
  - `mimetypes.guess_type`.
- `os.stat` and `os.path.exists` are the map `Env.fs` (a path exists iff it
  is a key). Time zones are dropped: instants are integers.
- Concurrency is not modelled. One sequential caller is assumed, and the
  unguarded find-or-create races are out of scope.
- The `Library` instance argument of `record_photo` is given as its key (lines
  14-17). `move_or_rename_photo` and `delete_child_dir_all_photos` ignore
  their library argument, and so does the model.
- The order in which `photo.files.all()` yields records is not modelled.
  `PhotonixRecord.RecordPhoto` chooses one and reports the last record
  visited through a ghost out-parameter.
- Text.LowerChar: lower-cases ASCII letters only. Every comparison after
  `lower()` in the code is against ASCII text, so this is enough there.
- Text.RemoveAll: its contract bounds the length; `RemoveAllAbsent` and
  `RemoveAllLeading` state the absent pattern and a leading occurrence. The
  general left-to-right, non-overlapping removal is stated only by its
  definition.
- Text.ParseInt: reads ASCII digits only. Python's `int()` also accepts
  other Unicode decimal digits (full-width '４００', say), which the model
  treats as the `ValueError`; `LegacyDb.IsoValueDigits` is stated for ASCII
  digits for the same reason.
- Unique file paths: the unique constraint on `PhotoFile.path` belongs to
  the `PhotoFile` model class, which is not part of this model. It is taken
  as given: `WellFormed` requires it, `FileSaved` raises `DuplicatePath` on
  it (and so `FinishedCollides`), and `MovedSpec` and the path lookups rely
  on it never to find several records at one path.
- LegacyDb.IsoValue: beyond plain digit strings and digit-free text
  (`IsoValueDigits`), `int()`'s whitespace, sign and underscore rules are
  stated only by the definition of `Text.ParseInt`.
- LegacyDb.NewPhoto: the older code raises on a missing or malformed
  aperture, ISO, focal length or flash. The model returns an error outcome
  instead of making these preconditions, so the tables saved before the raise
  (camera and lens) are kept.
- PhotonixDb.MoveOrRenamePhoto: of the exceptions the blanket `except`
  swallows, only the two this model can produce are modelled: no record at the
  old path, and another record already at the new one.
