# KeepSync Notes — sync core in Dafny

This project models the part of KeepSync Notes (`keepsync_notes.py`) that keeps a local note database in step with Google Keep and with two backup providers. It then proves what that code does to notes.

The application is a desktop notes app. Notes live in an SQLite database and are mirrored to Google Keep through a `KeepSyncEngine`. They can also be backed up to Google Drive (one JSON file) or to a GitHub repository (one JSON file per note), and imported from JSON exports or Google Takeout records. The modelled parts are:

- **Notes** (`notes.dfy`, `json.dfy`)
  - The `Note`, `ChecklistItem` and `Label` records and their `SyncStatus`/`NoteType` enums.
  - `update_hash` over title, content, checklist items, pinned and archived. The md5 hash is an uninterpreted function of exactly those fields.
  - `to_dict`/`from_dict` over a JSON value type, including `dict.get` defaults and the errors `from_dict` raises.
- **Note store** (`store.dfy`, `sqltext.dfy`, `sorting.dfy`)
  - `DatabaseManager` becomes the class `NoteStore`, whose fields are the four tables: notes and labels as maps, settings as a map, and the sync log as an append-only sequence.
  - Every method states the whole new state.
  - Queries return their rows in some order. They are proved to be exactly the selected rows, each once, sorted as the `ORDER BY` demands.
  - SQLite `LIKE` is modelled character by character, with ASCII-only case folding. The `json.dumps` text of the label column is modelled too.
- **Keep sync cycle** (`keep_remote.dfy`, `keep_sync.dfy`)
  - `KeepSyncEngine` is a class holding the store, the Keep account (a map from remote id to remote note) and the engine's flags.
  - The methods are specified by functions: `PullStep`/`Pull`, `PushStep`/`Push`, and `Cycle` for one `sync` call.
  - Lemmas state the pull cases, the push cases, idempotence of pull, and that a clean cycle leaves nothing pending.
- **Backups** (`backups.dfy`, `cloud.dfy`)
  - The Drive and GitHub `sync` methods: the merge loop, the GitHub index of note files, the upload loop with its timestamp test and 409 conflicts, and the labels and metadata files.
  - The `CloudSyncManager` registry.
- **Import and editing** (`import_notes.dfy`, `editing.dfy`)
  - `_import_notes` and `_parse_takeout_note`. `Import` is the import as written; `IntendedImport` differs only in the test that decides whether a record in a list is Takeout (see Findings).
  - The editor's label de-duplication, `_save_note`, `_toggle_pin` and `_archive_note`, with the bookkeeping that marks a linked note `pending_push`.

**What the environment supplies.** Everything outside the program is a parameter:

- **The clock**: one `now` per call.
- **uuid4 draws**: functions from a position to an id.
- **The md5 hash**.
- **Keep**:
  - the outcome of the two `keep.sync()` calls (`Env.refresh`, `Env.commitFailure`);
  - the ids Keep gives new notes (`Env.remoteIds`);
  - the notes whose pull or push raises (`Env.pullFailures`, `Env.pushFailures`, with the exception text).
- **Iteration orders**: the order in which `keep.all()` and `fetchall()` deliver rows. It is returned to the caller as a ghost trace, and the specification holds for every order.
- **Drive and GitHub**: the call outcomes:
  - Drive: download or upload failure;
  - GitHub: listing failure, per-file write faults, labels or metadata write failure;
  - the ISO-text comparison of a local instant with a foreign `updated_at` value.

Timestamps are natural numbers (`datetime.min` is 0). A remote note's JSON timestamps are `JTime(instant)` values.

## Model

| member | source | states |
|---|---|---|
| Json.Truthy | keepsync_notes.py:315-319 | Python's truth value of a JSON value: false, 0, the empty string, list or dict, and null are falsy |
| Json.GetStr | keepsync_notes.py:304-305 | `data.get(key, default)` for a string field: the default when the key is absent, the stored string when it is one, an error for a value of another type |
| Json.GetBool | keepsync_notes.py:309-311 | `data.get(key, default)` for a boolean field, with the same three cases |
| Json.GetOptStr | keepsync_notes.py:313 | `data.get("keep_id")`: `None` exactly when the key is missing or `null`, otherwise the stored string |
| Json.GetTime | keepsync_notes.py:315-319 | `fromisoformat(data[key]) if data.get(key) else None`: a falsy or missing value gives `None`; only a timestamp value decodes; anything else truthy is an error |
| Json.GetList | keepsync_notes.py:307-308 | `data.get(key, [])` for a list: empty when absent, the stored list otherwise |
| Json.StringList | keepsync_notes.py:308 | the label list decodes exactly when every element is a string, and then element by element |
| Json.StringsToJson | keepsync_notes.py:286 | `to_dict` writes the labels as a JSON list of the same strings |
| Json.StringListRoundTrip | keepsync_notes.py:286-308 | labels written by `to_dict` read back unchanged |
| Notes.StatusValue | keepsync_notes.py:217-224 | the lower-case text each `SyncStatus` member is stored as |
| Notes.ParseStatus | keepsync_notes.py:217-224 | `SyncStatus(v)`: the member with that value, `None` where Python raises `ValueError` |
| Notes.NoteTypeValue | keepsync_notes.py:226-228 | the text of each `NoteType` member |
| Notes.ParseNoteType | keepsync_notes.py:226-228 | `NoteType(v)`: the member with that value, `None` where Python raises |
| Notes.IsLinked | keepsync_notes.py:815 | a note is linked when its `keep_id` is truthy: present and non-empty |
| Notes.FingerprintOf | keepsync_notes.py:274-277 | the five fields `update_hash` digests: title, content, checklist items, pinned, archived |
| Notes.HashCurrent | keepsync_notes.py:274-277 | the stored hash is the md5 of the current fingerprint |
| Notes.ParseStatusIsInverse | keepsync_notes.py:217-224 | `SyncStatus(v)` accepts exactly the seven enum values, and each value names its own member |
| Notes.ParseNoteTypeIsInverse | keepsync_notes.py:226-228 | `NoteType(v)` accepts exactly "note" and "checklist", each naming its own member |
| Notes.UpdateHash | keepsync_notes.py:274-277 | afterwards the hash is current and no other field has changed |
| Notes.HashIgnoresMetadata | keepsync_notes.py:274-277 | two notes that agree on title, content, checklist items, pinned and archived get the same hash, whatever their labels, trash flag, colour, sync fields or times |
| Notes.ItemFromDict | keepsync_notes.py:239-245 | `ChecklistItem.from_dict` needs a dict; with no "id" the item takes the fresh uuid |
| Notes.ItemToDict | keepsync_notes.py:236-237 | `ChecklistItem.to_dict`: id, text and checked as a JSON dict |
| Notes.ItemRoundTrip | keepsync_notes.py:236-245 | a checklist item written by `to_dict` reads back as the same item (its id included) |
| Notes.ItemsToJson | keepsync_notes.py:285 | the checklist list holds one `ChecklistItem.to_dict` per item, in order |
| Notes.ItemsFromJson | keepsync_notes.py:307 | a decoded checklist has one item per list element |
| Notes.ItemsRoundTrip | keepsync_notes.py:285-307 | a checklist written by `to_dict` reads back unchanged |
| Notes.DecodeContent | keepsync_notes.py:302-308 | a successful read of the identity and content fields keeps the dict's "id" |
| Notes.DecodeFlags | keepsync_notes.py:309-314 | reading the flags changes only pinned, archived, trashed, colour, keep_id and sync status, each to the value `data.get` reads with its default; a missing "sync_status" gives `local_only` |
| Notes.DecodeTimes | keepsync_notes.py:315-319 | reading the timestamps changes only the four time fields; a missing "created_at" is the current time |
| Notes.NoteFromDict | keepsync_notes.py:300-320 | a missing "id" raises that `KeyError`; a decoded note has the dict's id and a current hash (`__post_init__`); the defaults are `local_only` and now |
| Notes.NoteToDict | keepsync_notes.py:279-298 | `Note.to_dict`: the seventeen keys, with the values the entry lemmas below state |
| Notes.GetNoteType | keepsync_notes.py:306 | `NoteType(data.get("note_type", "note"))`: the default, the member, or a `ValueError` |
| Notes.GetStatus | keepsync_notes.py:314 | `SyncStatus(data.get("sync_status", "local_only"))`, with the same three cases |
| Notes.ContentEntries | keepsync_notes.py:281-284 | `to_dict` writes id, title, content and the note type's value |
| Notes.ListEntries | keepsync_notes.py:285-286 | `to_dict` writes the checklist items and the labels as JSON lists |
| Notes.FlagEntries | keepsync_notes.py:287-289 | `to_dict` writes pinned, archived and trashed as booleans |
| Notes.SyncEntries | keepsync_notes.py:290-292 | `to_dict` writes colour, keep_id (`null` when absent) and the sync status's value |
| Notes.TimeEntries | keepsync_notes.py:293-297 | `to_dict` writes the optional times as `null` when absent and both stamps as ISO instants |
| Notes.DecodeContentOf | keepsync_notes.py:302-308 | any dict holding a note's identity and content fields as `to_dict` writes them decodes to exactly those fields |
| Notes.DecodeFlagsOf | keepsync_notes.py:309-314 | any dict holding a note's flags and sync fields as `to_dict` writes them decodes to exactly those fields |
| Notes.DecodeTimesOfDict | keepsync_notes.py:315-319 | the times `to_dict` writes decode to the same four times |
| Notes.NoteRoundTrip | keepsync_notes.py:279-320 | `from_dict(to_dict(n))` is `n` with its hash recomputed, so exactly `n` when its hash was current |
| Notes.LabelToDict | keepsync_notes.py:329-330 | `Label.to_dict`: id, name, colour and keep_id |
| Notes.LabelFromDict | keepsync_notes.py:332-339 | `Label.from_dict` raises for a missing "id", then for a missing "name" |
| Notes.LabelRoundTrip | keepsync_notes.py:329-339 | a label written by `to_dict` reads back unchanged |
| Sorting.Insert | keepsync_notes.py:468 | inserting keeps every element and adds exactly the new one |
| Sorting.Sort | keepsync_notes.py:468 | the sorted rows are a permutation of the input rows |
| Sorting.InsertSorted | keepsync_notes.py:468 | inserting into a sorted sequence keeps it sorted for a total preorder |
| Sorting.SortSorted | keepsync_notes.py:468 | the result is ordered by any total preorder, such as `ORDER BY pinned DESC, updated_at DESC` |
| SqlText.LikeMatch | keepsync_notes.py:485-489 | SQLite's `LIKE` without ESCAPE: `%` matches any run, `_` any one character, other characters match up to ASCII case |
| SqlText.AsciiLower | keepsync_notes.py:485-489 | `LIKE` folds only the letters A–Z to lower case |
| SqlText.PercentMatchesAll | keepsync_notes.py:485 | the pattern `%` matches every text |
| SqlText.LeadingPercent | keepsync_notes.py:485 | a leading `%` lets the rest of the pattern match any suffix |
| SqlText.LiteralThenPercent | keepsync_notes.py:485 | a wildcard-free prefix followed by `%` matches exactly the texts starting with it (ASCII case-insensitively) |
| SqlText.LikeIsSubstringSearch | keepsync_notes.py:485-489 | for a wildcard-free query, `t LIKE '%q%'` holds exactly when `q` occurs in `t` case-insensitively |
| SqlText.NonAsciiMustOccur | keepsync_notes.py:476-478 | a literal non-ASCII pattern character occurs verbatim in every text the pattern matches |
| SqlText.EscapeChar | keepsync_notes.py:439 | `json.dumps` writes each character as printable ASCII (`\uXXXX` escapes and surrogate pairs beyond) |
| SqlText.EscapeString | keepsync_notes.py:439 | an escaped string literal is printable ASCII |
| SqlText.DumpStrings | keepsync_notes.py:439 | the `labels` column text of any label list is ASCII only |
| SqlText.EscapePlain | keepsync_notes.py:439 | `json.dumps` leaves printable ASCII without `"` or `\` unchanged |
| Store.Saved | keepsync_notes.py:423-428 | the note `save_note` writes has a current hash and `updated_at` = now, and otherwise is the given note |
| Store.SaveKeepsWellFormed | keepsync_notes.py:423-446 | upserting a saved note keeps every row under its own id with a current hash |
| Store.SetTrashed | keepsync_notes.py:499-503 | the UPDATE changes only the row with that id, and only `trashed` and `updated_at`; an unknown id changes nothing |
| Store.SetTrashedKeepsWellFormed | keepsync_notes.py:514-517 | trashing or restoring leaves every hash current, since the trash flag is not hashed |
| Store.ReplaceLabel | keepsync_notes.py:547-553 | `INSERT OR REPLACE` stores the label under its id and removes exactly the rows clashing on id or on the UNIQUE name |
| Store.ReplaceLabelKeepsWellFormed | keepsync_notes.py:547-553 | after the upsert, label names are still unique and labels sit under their ids |
| Store.RowsOf | keepsync_notes.py:470-471 | the rows of a query are exactly the stored notes passing its WHERE clause, each once |
| Store.DistinctIdsOnce | keepsync_notes.py:364 | rows with distinct primary keys hold each note at most once |
| Store.RowsOfPermutation | keepsync_notes.py:470-471 | reordering a query's rows keeps them exactly the query's rows |
| Store.LabelRowsOfPermutation | keepsync_notes.py:560-564 | any order of the label table's rows lists every label exactly once |
| Store.ListedBefore | keepsync_notes.py:468 | `ORDER BY pinned DESC, updated_at DESC` as a comparison of two rows |
| Store.Listed | keepsync_notes.py:463-467 | the WHERE clause of `get_all_notes`: trashed and archived rows go unless asked for |
| Store.MatchesSearch | keepsync_notes.py:482-491 | the WHERE clause of `search_notes`: untrashed, and title or content `LIKE '%query%'` |
| Store.CarriesLabel | keepsync_notes.py:473-480 | the intended label test: untrashed and the label is in the note's label list |
| Store.LabelColumnMatches | keepsync_notes.py:473-480 | the label test as written: untrashed and the `json.dumps` text of the labels is `LIKE '%"label"%'` |
| Store.ListedBeforeIsTotalPreorder | keepsync_notes.py:468 | `ORDER BY pinned DESC, updated_at DESC` is a total preorder |
| Store.SearchIsSubstringMatch | keepsync_notes.py:482-491 | for a query without `%` or `_`, a note matches exactly when it is untrashed and its title or content contains the query case-insensitively |
| Store.NonAsciiLabelNeverMatches | keepsync_notes.py:473-480 | as written, a label with a non-ASCII character is never found, although a note can carry it (see Findings) |
| Store.LabelMatchIgnoresCase | keepsync_notes.py:473-480 | as written, the tag "work" finds a note labelled only "Work", because `LIKE` folds ASCII case (see Findings) |
| Store.PercentTagMatchesAnyLabel | keepsync_notes.py:473-480 | as written, the tag "%" finds every untrashed note with any label, because `%` in the tag is a wildcard (see Findings) |
| Store.QuotedLabelNotFound | keepsync_notes.py:473-480 | as written, a label holding `"` is never found, because the column escapes it as `\"` (see Findings) |
| Store.TagSpanningLabelsMatches | keepsync_notes.py:473-480 | as written, the tag `a", "b` finds a note labelled "a" and "b", which carries no such label (see Findings) |
| Store.StrLeqTotal | keepsync_notes.py:562 | `ORDER BY name` compares any two names |
| Store.StrLeqTransitive | keepsync_notes.py:562 | `ORDER BY name` is transitive |
| Store.StrLeq | keepsync_notes.py:562 | SQLite's BINARY collation: code-point order, a proper prefix first |
| Store.LabelBefore | keepsync_notes.py:562 | `ORDER BY name` as a comparison of two labels |
| Store.LabelBeforeIsTotalPreorder | keepsync_notes.py:562 | `ORDER BY name` is a total preorder on labels |
| Store.NoteStore.constructor | keepsync_notes.py:353-421 | `_init_db` on a fresh file: four empty tables |
| Store.NoteStore.SaveNote | keepsync_notes.py:423-449 | an upsert by id of the note with fresh `updated_at` and hash; the caller's note object is updated the same way; other tables are untouched |
| Store.NoteStore.GetNote | keepsync_notes.py:451-458 | `None` exactly for an unknown id, otherwise the stored note, which has that id and a current hash |
| Store.NoteStore.FindByKeepId | keepsync_notes.py:772-774 | the `keep_id` lookup returns some note linked to that remote id, or none exactly when no note is |
| Store.NoteStore.Select | keepsync_notes.py:470-471 | a table scan returns exactly the rows satisfying the filter, each once |
| Store.NoteStore.SelectListed | keepsync_notes.py:463-471 | those rows, ordered pinned first, then newest first |
| Store.NoteStore.GetAllNotes | keepsync_notes.py:460-471 | exactly the notes that pass the trashed and archived filters, each once, pinned first then newest first |
| Store.NoteStore.GetNotesByLabel | keepsync_notes.py:473-480 | exactly the untrashed notes whose label list contains the label, in listing order: the corrected selection; the query as written also folds ASCII case, treats `%` and `_` as wildcards, misses labels with `"`, `\` or non-ASCII characters, and matches tags spanning two labels (see Findings) |
| Store.NoteStore.SearchNotes | keepsync_notes.py:482-491 | exactly the untrashed notes whose title or content is `LIKE '%query%'`, in listing order |
| Store.NoteStore.DeleteNote | keepsync_notes.py:493-508 | a permanent delete removes exactly that id; a soft delete changes only `trashed` and `updated_at` of that row |
| Store.NoteStore.RestoreNote | keepsync_notes.py:510-522 | clears `trashed` and re-stamps `updated_at` of that row only |
| Store.NoteStore.SaveLabel | keepsync_notes.py:547-558 | the label table becomes the `INSERT OR REPLACE` result; the notes, settings and log are untouched |
| Store.NoteStore.GetAllLabels | keepsync_notes.py:560-564 | every label exactly once, ordered by name |
| Store.NoteStore.DeleteLabel | keepsync_notes.py:566-575 | removes exactly that label id |
| Store.NoteStore.GetSetting | keepsync_notes.py:577-586 | the stored value, or the default when the key was never set |
| Store.NoteStore.SetSetting | keepsync_notes.py:588-599 | an upsert of that key only |
| Store.NoteStore.LogSync | keepsync_notes.py:601-611 | appends exactly one entry and changes nothing else |
| KeepRemote.ItemsView | keepsync_notes.py:844-847 | Keep sees each checklist item as its text and tick, in order |
| KeepRemote.KeepNoteToLocal | keepsync_notes.py:837-872 | a remote note with items becomes a checklist with empty content, any other a plain note with the remote text. An existing note lends its id and creation time; otherwise the id is fresh and the creation time is Keep's, or now. The note is linked to the remote note and stamped with its time. |
| KeepRemote.CreateRemote | keepsync_notes.py:874-894 | a new Keep list (title and items) for a checklist, a text note otherwise; pinned, archived and labels are copied |
| KeepRemote.UpdateRemote | keepsync_notes.py:896-908 | only title, text (empty for a checklist), pinned and archived are overwritten; items, labels, trash and colour stay |
| KeepRemote.CreateThenPullRoundTrip | keepsync_notes.py:837-894 | pulling back a note just created on Keep restores its title, kind, items, labels, pinned, archived and text, linked to the new remote note |
| KeepRemote.UpdateThenPullPlain | keepsync_notes.py:837-908 | pulling back an updated plain note restores its content only when the remote note had no items; labels come from Keep |
| KeepSync.RemoteIsNewer | keepsync_notes.py:780 | `keep_note.timestamps.updated > (remote_modified or datetime.min)` |
| KeepSync.Pulled | keepsync_notes.py:780-793 | the note pull saves: the remote note converted, `synced`, stamped by the store |
| KeepSync.PullStep | keepsync_notes.py:770-796 | one pull iteration: a failing note is logged; an unmatched one is added; a matched one is overwritten when the remote note is newer, else skipped |
| KeepSync.Pull | keepsync_notes.py:765-798 | `_pull_from_keep` over the remote notes in iteration order |
| KeepSync.PullSnoc | keepsync_notes.py:769-797 | one more remote note is one more loop step, and its lookup answer must be a valid match |
| KeepSync.KeyOrderIsSnapshot | keepsync_notes.py:769 | listing the account in any key order visits every remote note exactly once |
| KeepSync.PullAddsUnmatched | keepsync_notes.py:788-793 | a remote note with no linked local note is added under a fresh id, linked and `synced`; nothing else changes; `new` is counted |
| KeepSync.PullOverwritesNewer | keepsync_notes.py:779-785 | a linked note whose recorded remote time is strictly older is overwritten from Keep, keeping its id and creation time, as `synced`; `updated` is counted |
| KeepSync.PullSkipsNotNewer | keepsync_notes.py:786-787 | an equal or older remote time leaves the store untouched and counts `skipped` |
| KeepSync.PullFailureOnlyLogs | keepsync_notes.py:795-796 | a note whose pull raises only adds a "pull"/"error" log entry |
| KeepSync.PullKeepsWellFormed | keepsync_notes.py:765-798 | pull keeps every note under its own id with a current hash |
| KeepSync.PullStepShape | keepsync_notes.py:770-793 | a successful pull step writes at most one key, leaving there a note linked to the remote note and not older |
| KeepSync.PulledShape | keepsync_notes.py:780-792 | the note pull saves has the existing id or the fresh one, the link and the remote time |
| KeepSync.PullStepPreserves | keepsync_notes.py:769-797 | each pull step extends the invariant: the remote notes seen so far are each mirrored by exactly one linked note |
| KeepSync.OnlyKeyLinked | keepsync_notes.py:772-793 | after the write, the written note is the only one linked to that remote note |
| KeepSync.WriteKeepsLinksUnique | keepsync_notes.py:772-793 | a pull write keeps every remote note linked from at most one local note |
| KeepSync.WriteKeepsMirror | keepsync_notes.py:772-793 | a pull write keeps every other remote note mirrored |
| KeepSync.PullEstablishes | keepsync_notes.py:765-798 | after a failure-free pull every remote note seen is mirrored by exactly one linked note |
| KeepSync.PullSkipsMirrored | keepsync_notes.py:786-787 | pulling notes the store already mirrors changes nothing and counts them all as skipped |
| KeepSync.PullIsIdempotent | keepsync_notes.py:765-798 | pulling the same snapshot twice: whatever the second round's lookups return, the second pull changes no note |
| KeepSync.NeedsPush | keepsync_notes.py:805-809 | the push query: untrashed and `pending_push` or `local_only` |
| KeepSync.MarkPushed | keepsync_notes.py:827-829 | the note after a successful push: `synced`, remote time now, saved |
| KeepSync.PushStep | keepsync_notes.py:812-833 | one push iteration: a linked note updates its remote note when Keep still has it, an unlinked one creates one and takes its id, a failure is logged and counted |
| KeepSync.Push | keepsync_notes.py:800-835 | `_push_to_keep` over the selected rows in fetch order |
| KeepSync.PushSnoc | keepsync_notes.py:811-834 | one more selected row is one more loop step |
| KeepSync.PushFailureLeavesNote | keepsync_notes.py:831-833 | a failing note leaves the store and Keep as they were; `errors` is counted and a "push"/"error" entry logged |
| KeepSync.PushSuccessSyncs | keepsync_notes.py:814-829 | a successful push stores the row `synced`, stamped now, linked to its old remote note or Keep's new id, with its content and labels, and leaves it no longer selected |
| KeepSync.PushCreatesUnlinked | keepsync_notes.py:821-825 | an unlinked note creates a Keep note under Keep's new id and counts `created` |
| KeepSync.PushMissingRemoteStillSynced | keepsync_notes.py:815-829 | a linked note whose remote note is gone changes nothing on Keep and is not counted, yet is stored `synced` |
| KeepSync.PushStepFrame | keepsync_notes.py:811-834 | a push step writes only the row's own id, and stores it `synced` when it succeeds |
| KeepSync.PushFrame | keepsync_notes.py:800-835 | push writes only the selected rows' ids |
| KeepSync.PushKeepsWellFormed | keepsync_notes.py:800-835 | push keeps every note under its own id with a current hash |
| KeepSync.PushClearsRows | keepsync_notes.py:800-835 | with no failures, every selected row ends up `synced` |
| KeepSync.CycleError | keepsync_notes.py:757-759 | the "sync"/"error" log entry for an exception that aborts a cycle |
| KeepSync.Cycle | keepsync_notes.py:736-761 | one `sync` cycle after the guards: refresh, then pull, push and commit, or the abort path |
| KeepSync.Aborted | keepsync_notes.py:757-761 | a cycle ended by a raising `keep.sync()`: one error with that text and the counts reached |
| KeepSync.AfterRefresh | keepsync_notes.py:741-755 | pull, push and commit against the refreshed account |
| KeepSync.Committed | keepsync_notes.py:748-755 | the committing `keep.sync()`: success records `last_sync`, a failure reports the counts with one error |
| KeepSync.AfterRefreshIsCommitted | keepsync_notes.py:736-755 | after a successful refresh, a cycle is pull, then push, then the commit over what they leave |
| KeepSync.PullIsCommitted | keepsync_notes.py:745-755 | an unfolding step: the rest of the cycle after pull is push followed by the commit over what push leaves |
| KeepSync.CycleFailsOnlyOnSyncError | keepsync_notes.py:736-761 | a cycle fails exactly when a `keep.sync()` raises, then reports exactly one error; success records `last_sync`; a failed refresh changes no note |
| KeepSync.RowsCoverIds | keepsync_notes.py:805-811 | every stored note the push query selects is among its rows |
| KeepSync.CleanCycleLeavesNothingPending | keepsync_notes.py:736-755 | after a clean cycle with no per-note failure, no untrashed note is `local_only` or `pending_push` |
| KeepSync.PushLeavesNothingPending | keepsync_notes.py:800-835 | a failure-free push over the selected rows leaves no stored note selected |
| KeepSync.Unlinked | keepsync_notes.py:927-929 | the note `unlink_note` saves: no `keep_id`, `local_only` |
| KeepSync.UnlinkedIsPushedAsNew | keepsync_notes.py:910-930 | an unlinked note is `local_only` and unlinked; the next push selects it unless it is trashed, and creates it anew on Keep |
| KeepSync.KeepSyncEngine.constructor | keepsync_notes.py:624-633 | a new engine over the store: empty account, not signed in, no cycle running, no `last_sync` |
| KeepSync.KeepSyncEngine.PullOne | keepsync_notes.py:770-796 | one pull iteration is `PullStep` on the store and the log |
| KeepSync.KeepSyncEngine.PullFromKeep | keepsync_notes.py:765-798 | visits each remote note once, in some order; the store, log and stats are `Pull` over that order |
| KeepSync.KeepSyncEngine.PullNext | keepsync_notes.py:769-796 | the lookup and one iteration extend the pull by one remote note |
| KeepSync.KeepSyncEngine.PushOne | keepsync_notes.py:812-833 | one push iteration is `PushStep` on the store, Keep and the log |
| KeepSync.KeepSyncEngine.SendToKeep | keepsync_notes.py:815-826 | the Keep half of a successful push: update or create, then the row to save |
| KeepSync.KeepSyncEngine.PushToKeep | keepsync_notes.py:800-835 | the rows are exactly the selected notes in some order; the new state is `Push` over them |
| KeepSync.KeepSyncEngine.Commit | keepsync_notes.py:748-755 | the committing `keep.sync()` and what follows: `last_sync` and its setting on success, the error path otherwise |
| KeepSync.KeepSyncEngine.PullPushCommit | keepsync_notes.py:736-755 | the `try` block after a successful refresh is `AfterRefresh` |
| KeepSync.KeepSyncEngine.Sync | keepsync_notes.py:720-763 | refused with no change when not signed in or while a cycle runs; otherwise exactly one cycle (`Cycle`), after which `sync_in_progress` is false on every path |
| KeepSync.KeepSyncEngine.Abort | keepsync_notes.py:757-761 | a raising `keep.sync()` logs one "sync"/"error" entry and reports one error |
| KeepSync.KeepSyncEngine.UnlinkNote | keepsync_notes.py:910-930 | false for an unknown id and no change; otherwise the note is saved unlinked and `local_only`, and when asked, signed in and linked, its Keep note is deleted first, a failure there being only logged |
| KeepSync.KeepSyncEngine.DeleteRemote | keepsync_notes.py:918-925 | deletes the linked Keep note, or logs the failure and keeps it |
| Importing.TakeoutFields | keepsync_notes.py:3887-3916 | the fields `_parse_takeout_note` reads from a Takeout record into a new note, with their defaults |
| Importing.Walked | keepsync_notes.py:3893-3903 | what a `for` loop visits in a Takeout value: the items of a list |
| Importing.TakeoutItems | keepsync_notes.py:3893-3898 | one checklist item per `listContent` dict, each with a fresh uuid |
| Importing.TakeoutLabels | keepsync_notes.py:3901-3903 | the label names kept are the truthy ones, in order |
| Importing.TakeoutNote | keepsync_notes.py:3885-3918 | a new, unlinked, `local_only` note with the record's title, text, checklist, labels and flags (defaults when absent); `None` exactly when reading the record raises |
| Importing.TakeoutOfTextRecord | keepsync_notes.py:3885-3918 | a plain Takeout text record becomes a plain note with that title and text and nothing else |
| Importing.IsTakeoutItemAsWritten | keepsync_notes.py:3858 | the list branch's test as written: a `textContent` or a `title` key |
| Importing.IsTakeoutItem | keepsync_notes.py:3858 | the test as evidently intended: `textContent`, or `title` without the `id` every exported record has |
| Importing.ReadAsTakeout | keepsync_notes.py:3856-3863 | a record from an export file never goes to the Takeout reader; one from a list does when the list test (as written or intended) says so |
| Importing.ExportedRecordKeys | keepsync_notes.py:279-298 | a record written by `to_dict` has "id" and "title" and no Takeout key |
| Importing.ExportedRecordMistakenForTakeout | keepsync_notes.py:3856-3863 | as written, an exported record in a list is read as Takeout: dropped when the note has labels, stripped of content, checklist and flags otherwise (see Findings) |
| Importing.ExportedRecordReadAsTakeout | keepsync_notes.py:3885-3918 | what the Takeout reader makes of an exported record |
| Importing.LabelStringsHaveNoGet | keepsync_notes.py:3903 | a non-empty list of label strings makes the Takeout reader raise |
| Importing.Unlinked | keepsync_notes.py:3866-3868 | the imported note gets a fresh id, no `keep_id` and `local_only`, and is otherwise unchanged |
| Importing.Record | keepsync_notes.py:3869-3870 | `if self.db.save_note(note): imported += 1` |
| Importing.ImportStep | keepsync_notes.py:3856-3879 | one record: a list skips non-dicts and Takeout records that fail; a record `Note.from_dict` cannot read ends the import |
| Importing.ImportFold | keepsync_notes.py:3856-3879 | the import loop over the records in order |
| Importing.ImportBy | keepsync_notes.py:3832-3883 | `_import_notes` on the decoded file, with the list read by the given test: one Takeout record, a list, or an export file's `notes`; anything else imports nothing |
| Importing.Import | keepsync_notes.py:3832-3883 | `_import_notes` as written |
| Importing.IntendedImport | keepsync_notes.py:3832-3883 | `_import_notes` with the list test as evidently intended |
| Importing.IsImported | keepsync_notes.py:3866-3870 | a note as an import stores it: unlinked, `local_only`, hashed and stamped now |
| Importing.ImportSnoc | keepsync_notes.py:3856-3879 | one more record is one more loop step |
| Importing.ImportFaultSticks | keepsync_notes.py:3842-3883 | once a record has raised, the records after it change nothing |
| Importing.ImportStepShape | keepsync_notes.py:3856-3879 | one import step keeps every note except possibly the one under the record's fresh id, which is an imported note |
| Importing.ImportFoldShape | keepsync_notes.py:3856-3879 | the loop adds or replaces only notes under its fresh ids, each unlinked and `local_only`, and counts at most one per record |
| Importing.ImportAddsOnlyUnlinkedNotes | keepsync_notes.py:3832-3883 | an import, with either list test, keeps every other note, and all it stores are unlinked `local_only` notes under fresh ids |
| Importing.ImportKeepsExistingNotes | keepsync_notes.py:3832-3883 | when no fresh id is already taken, an import with either list test changes no existing note |
| Importing.SavedIgnoresHash | keepsync_notes.py:3874-3878 | saving recomputes the hash, so `from_dict`'s recomputation does not change what is stored |
| Importing.SavedCopies | keepsync_notes.py:3873-3879 | what importing the k-th exported note saves: a fresh, unlinked, re-stamped copy |
| Importing.ExportTableHolds | keepsync_notes.py:3873-3879 | with distinct fresh ids, the table holds each saved copy under its own id |
| Importing.RecordsImportAll | keepsync_notes.py:3873-3879 | a loop whose records each save their value stores exactly those values and counts them all |
| Importing.RecordsImport | keepsync_notes.py:3873-3879 | the same for every prefix of the loop |
| Importing.ExportFile | keepsync_notes.py:3814-3830 | `_export_notes`: version, export time, and the notes and labels as dicts |
| Importing.ExportPrefixImports | keepsync_notes.py:3873-3879 | the export-file loop over exported records saves exactly their saved copies |
| Importing.ExportRecordImports | keepsync_notes.py:3874-3878 | one exported record is read back as its note and saved under its fresh id |
| Importing.ExportImportRoundTrip | keepsync_notes.py:3814-3879 | importing an export file stores a fresh, unlinked, re-stamped copy of every exported note, counting them all, with no fault |
| Importing.RecordStepIgnoresList | keepsync_notes.py:3856-3870 | with the intended test, a non-Takeout record is read alike in a list and in an export file |
| Importing.ListImportsLikeExport | keepsync_notes.py:3854-3879 | with the intended test, a list of exported records imports exactly like the export file's `notes` |
| Importing.ListRecordSaves | keepsync_notes.py:3856-3870 | with the intended test, an exported record in a list is saved as it is from an export file |
| Importing.ListRecordsSave | keepsync_notes.py:3854-3870 | the same for every record of a list of exported notes |
| Importing.ListImportRestoresExport | keepsync_notes.py:3854-3879 | importing the bare list of exported records with the intended test equals importing the export file |
| Importing.LabelledExportSkipped | keepsync_notes.py:3856-3870 | as written, an exported record of a note with labels is read as Takeout, raises there, and is skipped (see Findings) |
| Importing.LabelledExportsSkipped | keepsync_notes.py:3854-3870 | as written, every prefix of a list of such records leaves the import unchanged |
| Importing.LabelledExportListImportsNothing | keepsync_notes.py:3854-3870 | as written, importing the bare list of exported notes that all have labels stores nothing and counts nothing (see Findings) |
| Importing.SourceOf | keepsync_notes.py:3854-3879 | the records a loop of the application reads: a bare list or an export file's `notes` |
| Importing.ImportRecord | keepsync_notes.py:3856-3870 | one loop turn, with the list test as written, is `ImportStep` on the store; the labels, settings and log are untouched |
| Importing.ImportRecords | keepsync_notes.py:3856-3879 | the loop, with the list test as written, is `ImportFold`, stopping at the first record that raises |
| Importing.ImportNotes | keepsync_notes.py:3832-3883 | `_import_notes` as written on the decoded file leaves `Import`'s table, count and fault; notes saved before a fault stay saved |
| Backups.InBackup | keepsync_notes.py:1551 | the rows both backups read: `get_all_notes(include_archived=True, include_trashed=False)` |
| Backups.LocalIds | keepsync_notes.py:1588 | the ids of those rows, `local_ids` and the keys of `local_notes_dict` |
| Backups.MergeStep | keepsync_notes.py:1589-1593 | one merge iteration: a local id is skipped, another record decoded and saved, a raising record ends the loop |
| Backups.Merge | keepsync_notes.py:1589-1593 | the merge loop over the backup's records; what was saved before a fault stays saved |
| Backups.BackupFile | keepsync_notes.py:1552-1557 | `local_data`: version, sync time, and the notes and labels as dicts |
| Backups.DriveMerge | keepsync_notes.py:1560-1593 | the merge of a Drive sync; no backup file means nothing to merge |
| Backups.DriveUpload | keepsync_notes.py:1595-1633 | the Drive upload after the merge: on success the file is the backup of the store as it is now, and the time is recorded |
| Backups.DriveRun | keepsync_notes.py:1537-1637 | `GoogleDriveSync.sync`: refused when not connected; otherwise merge, then upload, the first fault ending it |
| Backups.Upsert | keepsync_notes.py:1761 | `remote_notes[id] = value` on the dict as entries in insertion order |
| Backups.NoteFileName | keepsync_notes.py:1775 | the note's file is `notes/<id>.json` |
| Backups.BuildIndex | keepsync_notes.py:1754-1764 | the `remote_notes` loop over the `.json` files in listing order; the first file without a dict and an `id` aborts the sync |
| Backups.Wants | keepsync_notes.py:1779-1785 | the upload loop writes a note that is not in the repository or is newer than its file |
| Backups.Write | keepsync_notes.py:1786-1805 | `create_file`/`update_file` of the note's file: a 409 is counted as a conflict, another failure raises |
| Backups.UploadStep | keepsync_notes.py:1774-1805 | one upload iteration: the timestamp test, then the write |
| Backups.Upload | keepsync_notes.py:1773-1806 | the upload loop over the local notes against the index built before the download |
| Backups.Metadata | keepsync_notes.py:1826-1830 | the content of `metadata.json`: last sync, note count and app version |
| Backups.GitHubExchange | keepsync_notes.py:1766-1806 | download, then upload, against the index |
| Backups.GitHubPublish | keepsync_notes.py:1807-1848 | after the upload: the labels and metadata files and the recorded time |
| Backups.GitHubRun | keepsync_notes.py:1735-1855 | `GitHubSync.sync`: refused when not connected; otherwise index, download, upload, labels and metadata, the first fault ending it |
| Backups.BackupQueryRows | keepsync_notes.py:1551 | `get_all_notes(include_archived=True)` returns exactly the untrashed notes |
| Backups.RowIdsAreLocalIds | keepsync_notes.py:1588 | `local_ids` is exactly the set of untrashed note ids |
| Backups.Download | keepsync_notes.py:1589-1592 | a record is skipped exactly when its id is local; otherwise it is decoded to a note with its id and a current hash, or raises |
| Backups.MergeSnoc | keepsync_notes.py:1589-1593 | one more record is one more loop step |
| Backups.MergeStepNotes | keepsync_notes.py:1590-1593 | a fault-free step saves the record it downloads and nothing else |
| Backups.MergeFaultSticks | keepsync_notes.py:1589-1593 | once a record has raised, the later records change nothing |
| Backups.MergeSucceedsIff | keepsync_notes.py:1589-1593 | the merge ends without a fault exactly when every record can be skipped or decoded; it downloads at most one note per record |
| Backups.OverSucceedsIff | keepsync_notes.py:1589-1593 | a loop whose steps fail exactly on bad records succeeds exactly when none is bad |
| Backups.MergeStepFault | keepsync_notes.py:1589-1593 | a step ends the loop exactly when the loop had ended or its record cannot be read |
| Backups.MergeKeepsLocal | keepsync_notes.py:1588-1593 | local notes win: a note whose id is local is never replaced, and no note is removed |
| Backups.MergeLastRecordWins | keepsync_notes.py:1589-1593 | a downloaded record not followed by another with the same id is what the store holds after a fault-free merge |
| Backups.OverLastWins | keepsync_notes.py:1589-1593 | in a fault-free loop, the last step that touches an id decides what stays under it |
| Backups.MergeStepKeepsOther | keepsync_notes.py:1589-1593 | a step on a record with another id leaves what the store holds under this id |
| Backups.NotesJson | keepsync_notes.py:1555 | the backup's `notes` list holds one `to_dict` per row, in order |
| Backups.LabelsJson | keepsync_notes.py:1809 | the labels list holds one `to_dict` per label, in order |
| Backups.NotesEntries | keepsync_notes.py:1589 | `remote_data.get("notes", [])`: empty when absent, the list's items, a fault for a file that is not a dict |
| Backups.BackupRecordsDecode | keepsync_notes.py:1552-1557 | each record of a backup file decodes back to the note it was written from |
| Backups.MergeOwnRowsIsNoop | keepsync_notes.py:1588-1593 | merging the backup of the store's own rows skips every record and changes nothing |
| Backups.OwnRecordIsSkipped | keepsync_notes.py:1590 | the record of a local note is skipped |
| Backups.DriveRunAfterMerge | keepsync_notes.py:1542-1633 | past its guards, a Drive sync is the upload applied to what the merge left |
| Backups.DriveSuccess | keepsync_notes.py:1537-1633 | a successful Drive sync was connected, merged without a fault, and wrote the backup of the merged store and `gdrive_last_sync` |
| Backups.RowRecordsDecode | keepsync_notes.py:1596-1597 | the records written from the backup query decode back to the stored notes, and every untrashed note is among them |
| Backups.DriveSyncBacksUpStore | keepsync_notes.py:1537-1633 | after a successful Drive sync the file holds exactly the untrashed notes, each decoding back to the stored note, and no untrashed local note was replaced |
| Backups.DriveMergeKeepsLocal | keepsync_notes.py:1568-1593 | the Drive merge keeps every note and replaces no untrashed one |
| Backups.MergeKeepsWellFormed | keepsync_notes.py:1568-1593 | the Drive merge keeps every hash current |
| Backups.MergeWellFormed | keepsync_notes.py:1589-1593 | saving decoded notes keeps every note under its id with a current hash |
| Backups.DriveSyncIsIdempotent | keepsync_notes.py:1537-1633 | two Drive syncs in a row: the second merge downloads nothing and changes no note |
| Backups.IndexIds | keepsync_notes.py:1755-1761 | the keys of `remote_notes` in insertion order |
| Backups.Lookup | keepsync_notes.py:1779-1782 | `remote_notes.get(id)` is absent exactly for an id not in the index |
| Backups.UpsertSpec | keepsync_notes.py:1761 | after `remote_notes[id] = value` the id finds the new value and every other id what it did; a present key keeps its place, a new key goes last |
| Backups.NoteFileNameInjective | keepsync_notes.py:1775 | distinct note ids name distinct `.json` files |
| Backups.IndexLastFileWins | keepsync_notes.py:1756-1761 | the index holds, under each id, the dict of the last listed file carrying it |
| Backups.IndexLastStepLookup | keepsync_notes.py:1758-1761 | the last listed file changes the lookup of an id only when it is a `.json` dict with that id |
| Backups.IndexFaultSticks | keepsync_notes.py:1756-1764 | once a file has aborted the loop, the later files change nothing |
| Backups.EntriesOf | keepsync_notes.py:1767 | the download loop visits each indexed dict, in index order |
| Backups.LocalIsNewer | keepsync_notes.py:1785 | a missing remote `updated_at` makes the local note newer; a timestamp compares by instant; other values cannot be compared |
| Backups.NewerThanOwnCopy | keepsync_notes.py:1785 | a file written from a note is replaced only by a strictly newer version of that note |
| Backups.UploadStepFiles | keepsync_notes.py:1774-1805 | one upload step changes at most its own note's file, writes it when wanted and allowed, and counts at most one upload or conflict |
| Backups.WriteFiles | keepsync_notes.py:1786-1805 | a write changes at most the note's own file; a 409 counts a conflict |
| Backups.UploadCounts | keepsync_notes.py:1774-1805 | each note counts at most once, as an upload or a conflict |
| Backups.DistinctFileNames | keepsync_notes.py:1775 | distinct notes upload to distinct files |
| Backups.UploadLeavesOtherFiles | keepsync_notes.py:1774-1805 | a file owned by no listed note is left as it was |
| Backups.UploadLeavesUnwanted | keepsync_notes.py:1774-1805 | the file of a note that is not newer, or whose write fails, is left as it was |
| Backups.UploadWritesWanted | keepsync_notes.py:1774-1805 | after a fault-free loop, a newer note whose write succeeds is in its file |
| Backups.UploadAround | keepsync_notes.py:1774-1805 | the loop is the part before a row, the step on it, and the rest |
| Backups.UploadSnoc | keepsync_notes.py:1774-1805 | one more note is one more loop step |
| Backups.UploadSplit | keepsync_notes.py:1774-1805 | the loop over `a + c` is the loop over `a` continued over `c` |
| Backups.UploadFaultSticks | keepsync_notes.py:1774-1805 | once a write other than a 409 has raised, the later notes change nothing |
| Backups.UploadFromLeavesOther | keepsync_notes.py:1774-1805 | continuing the loop leaves a file no remaining note owns |
| Backups.PublishKeepsOwnFiles | keepsync_notes.py:1807-1851 | publishing ignores the state's own note files: replacing them by the upload loop's files changes nothing |
| Backups.GitHubSuccess | keepsync_notes.py:1735-1851 | a successful GitHub sync built its index, downloaded and uploaded without a fault, and wrote labels, metadata and `github_last_sync` |
| Backups.PublishSucceeds | keepsync_notes.py:1807-1851 | publishing succeeds only after a fault-free upload, and then writes both files and the time |
| Backups.GitHubSyncUploadsNewer | keepsync_notes.py:1735-1851 | after a successful GitHub sync no untrashed note was replaced, every newer note whose write succeeded is in its file, and every other note's file is as it was |
| Cloud.ProviderKey | keepsync_notes.py:1865-1868 | the registry keys "gdrive" and "github" |
| Cloud.MergeInto | keepsync_notes.py:1589-1593 | the merge loop saves each downloaded record, stopping at the first fault; the store is `Merge` |
| Cloud.DriveBackup.constructor | keepsync_notes.py:1416-1420 | a disconnected Drive provider facing the folder's current file |
| Cloud.DriveBackup.Connect | keepsync_notes.py:1425-1504 | succeeds exactly when the OAuth flow does; then connected and `cloud_provider` = "gdrive" |
| Cloud.DriveBackup.Disconnect | keepsync_notes.py:1528-1535 | not connected, and `cloud_provider` set to null |
| Cloud.DriveBackup.Sync | keepsync_notes.py:1537-1638 | the new provider state and the result are `DriveRun`: guard, merge, then the backup replaced and the time recorded |
| Cloud.DriveBackup.UploadBackup | keepsync_notes.py:1595-1633 | the file replaced by the rows read after the merge, and the time recorded |
| Cloud.DriveBackup.MergeBackup | keepsync_notes.py:1559-1593 | the merge of the backup file, when there is one, into the store |
| Cloud.GitHubBackup.constructor | keepsync_notes.py:1650-1655 | a disconnected GitHub provider facing the repository's current files |
| Cloud.GitHubBackup.Connect | keepsync_notes.py:1660-1724 | succeeds exactly when the GitHub calls do; then connected, with `cloud_provider` and `github_repo` recorded |
| Cloud.GitHubBackup.Disconnect | keepsync_notes.py:1726-1733 | not connected, and `cloud_provider` set to null |
| Cloud.GitHubBackup.IndexFiles | keepsync_notes.py:1755-1764 | the loop over the listing builds `remote_notes` as `BuildIndex` |
| Cloud.GitHubBackup.UploadNote | keepsync_notes.py:1774-1805 | one upload turn is `UploadStep` on the repository |
| Cloud.GitHubBackup.UploadNotes | keepsync_notes.py:1773-1805 | the upload loop is `Upload` |
| Cloud.GitHubBackup.Sync | keepsync_notes.py:1735-1856 | the new provider state and result are `GitHubRun`: index, download, upload, labels, metadata, time |
| Cloud.GitHubBackup.Exchange | keepsync_notes.py:1766-1851 | download, then upload, then publish, as `GitHubExchange` |
| Cloud.GitHubBackup.UploadAndPublish | keepsync_notes.py:1773-1851 | the upload loop, then the labels and metadata files |
| Cloud.GitHubBackup.Publish | keepsync_notes.py:1807-1851 | the labels file holds every label once, then the metadata file and the recorded time |
| Cloud.ProviderNamed | keepsync_notes.py:1880-1882 | only "gdrive" and "github" name a provider, each its own |
| Cloud.ProviderKeyLooksUp | keepsync_notes.py:1865-1868 | each provider's registry key finds that provider |
| Cloud.CloudSyncManager.constructor | keepsync_notes.py:1863-1872 | two fresh disconnected providers and none active |
| Cloud.CloudSyncManager.SetActiveProvider | keepsync_notes.py:1884-1889 | succeeds exactly for a registered name, which becomes active; otherwise nothing changes |
| Cloud.CloudSyncManager.ConnectGDrive | keepsync_notes.py:1891-1897 | the Drive provider connects, and becomes active exactly when it does |
| Cloud.CloudSyncManager.ConnectGitHub | keepsync_notes.py:1899-1905 | the GitHub provider connects, and becomes active exactly when it does |
| Cloud.CloudSyncManager.Disconnect | keepsync_notes.py:1907-1911 | the active provider, if any, disconnects, and none is active afterwards |
| Cloud.CloudSyncManager.Sync | keepsync_notes.py:1913-1917 | refused with no change unless a provider is active and connected; otherwise that provider's sync, the other untouched |
| Editing.IsSpace | keepsync_notes.py:2655 | the characters Python's `str.isspace` accepts: tab to carriage return, 28 to 31, space, NEL, no-break space, Ogham space mark, U+2000 to U+200A, line and paragraph separators, narrow no-break, medium mathematical and ideographic spaces |
| Editing.Blank | keepsync_notes.py:2719 | an entry is blank when every character is whitespace |
| Editing.TrimStart | keepsync_notes.py:2655 | drops exactly the leading whitespace as Python's `str.isspace` defines it (ASCII and Unicode spaces) |
| Editing.TrimEnd | keepsync_notes.py:2655 | drops exactly the trailing whitespace as Python's `str.isspace` defines it (ASCII and Unicode spaces) |
| Editing.Strip | keepsync_notes.py:2655 | `strip()`: a slice of the entry neither starting nor ending with whitespace as Python's `str.isspace` defines it (ASCII and Unicode spaces) |
| Editing.StripEmptyIff | keepsync_notes.py:2719 | an entry strips to nothing exactly when it is all whitespace as Python's `str.isspace` defines it (ASCII and Unicode spaces) |
| Editing.AddLabel | keepsync_notes.py:2653-2661 | the stripped entry (Python's `str.isspace` whitespace) is appended when it is non-blank and new; otherwise nothing changes |
| Editing.NoDuplicates | keepsync_notes.py:2657-2658 | no label occurs twice |
| Editing.AddLabelKeepsNoDuplicates | keepsync_notes.py:2657-2658 | adding a label keeps the label list free of duplicates |
| Editing.AddLabelIdempotent | keepsync_notes.py:2653-2661 | adding the same entry twice is adding it once |
| Editing.UnicodeSpacesAddNoLabel | keepsync_notes.py:2653-2661 | entries of only no-break, ideographic or em spaces add no label, as `strip()` removes them |
| Editing.Touched | keepsync_notes.py:2726-2730 | an edit sets `local_modified` to now and marks a linked note `pending_push`; nothing else changes |
| Editing.KeptItems | keepsync_notes.py:2713-2720 | only rows that are not all Python whitespace become items, each with a fresh uuid |
| Editing.KeptItemsCoverRows | keepsync_notes.py:2713-2720 | every non-blank row becomes an item with its text and tick, in order |
| Editing.BlankRowsKeepNothing | keepsync_notes.py:2713-2720 | a checklist of blank rows saves no items |
| Editing.Edited | keepsync_notes.py:2708-2724 | title and type from the editor; a checklist takes the non-blank rows and drops the text, a plain note the reverse |
| Editing.TogglePin | keepsync_notes.py:4472-4477 | the pin flips and the edit is bookkept |
| Editing.Archive | keepsync_notes.py:4481-4486 | the note is archived and the edit is bookkept |
| Editing.EditedLinkedNoteIsPushed | keepsync_notes.py:2726-2733 | a saved edit of an untrashed linked note is selected by the next push, which stores it `synced` with the edited content |
| Editing.TouchedStaysSelected | keepsync_notes.py:2728-2730 | an edit never withdraws a note from the push |
| Editing.PinAndArchiveQueueLinkedNote | keepsync_notes.py:4472-4487 | pinning or archiving an untrashed linked note makes it `pending_push` and queues it |
| Editing.UnlinkedEditKeepsStatus | keepsync_notes.py:2726-2730 | an edit of an unlinked note leaves its sync status alone |
| Editing.SaveEdits | keepsync_notes.py:2703-2736 | the edited, bookkept note is saved |
| Editing.SaveTogglePin | keepsync_notes.py:4472-4479 | the note with its pin flipped is saved |
| Editing.SaveArchive | keepsync_notes.py:4481-4488 | the archived note is saved |

## Left out

- Authentication and network: `login`, `try_auto_login`, `logout`, the token helpers, `KeepWebScraper` and the dependency installer are not modelled. They are console, browser and HTTP I/O. `is_authenticated` is a field that the sync and unlink guards read.
- Threads: `start_auto_sync`/`stop_auto_sync` of both engines are not modelled, because their point is concurrency. Only the single `sync_in_progress` guard is modelled.
- Callbacks: `_notify_callbacks` of the Keep engine is modelled as an appended list of notices. The providers' `_notify` is not modelled.
- The user interface: widgets, dialogs, message boxes and file dialogs, and the rest of the editor. `_remove_label` and the editor's copy of the unlink result are UI state outside the sync core. The editor's `_delete_note` is the store's `delete_note` behind a confirmation dialog.
- Foreign libraries:
  - gkeepapi is a map from remote id to remote note. Label objects are reduced to names, and `createLabel`/`findLabel` to copying the names.
  - The Drive and GitHub APIs are outcome parameters over the files they hold. The OAuth flow, `_ensure_folder` and the temporary file are left out.
- md5 is an uninterpreted function of the five hashed fields.
- The clock and uuid4 are parameters. One clock reading stands for the several `datetime.now()` calls of one operation.
- Time zones are left out: every instant is a natural number.
- Store.NoteStore.SaveNote, Store.NoteStore.DeleteNote, Store.NoteStore.RestoreNote, Store.NoteStore.SaveLabel, Store.NoteStore.DeleteLabel, Store.NoteStore.SetSetting: sqlite errors are not modelled, so these always report success. The source catches such errors and returns False.
- Store.NoteStore.GetSetting: the text encoding of setting values is not modelled. Values are typed (`SettingValue`), so a stored string that happens to parse as JSON does not come back as that JSON value.
- Store.NoteStore.GetNote: `_row_to_note` is the identity on what `save_note` wrote. Rows written by other means, with NULL or foreign column values, are not modelled.
- Notes.NoteFromDict: a present key whose value has the wrong JSON type is a decode error. Python would carry the foreign value into the note.
- Backups.Lookup: ids that are numbers, booleans or null are kept as JSON values. Lists and dicts as ids raise `Unhashable`. The text of Python's exception messages is the parameter `explain`.
- KeepSync.KeepSyncEngine.Sync: the `full_sync` argument is not modelled, because the source never reads it. `conflicts` is always 0 and push errors are not added to `errors`, as written.
- KeepRemote.UpdateRemote: Keep's own change of its `updated` stamp on an edit is modelled as `now`. The real clock is Keep's.
- KeepSync.PushStep: a push that raises is modelled as changing nothing on Keep. In the source, `createList`/`createNote` makes the remote note before the pin, archive and label calls that can raise, and `_update_keep_note` sets its fields one by one. A failure after the first call leaves a partial remote note, and for an unlinked note a duplicate on the next push, because the local row stays unlinked.
- KeepSync.PushFailureLeavesNote: states that Keep is left as it was, which holds only for the all-or-nothing failure above. A partly applied create or update is not modelled.
- KeepSync.KeepSyncEngine.DeleteRemote: the remote delete and the following `keep.sync()` are one outcome. In the source, a `keep.sync()` that raises after `delete()` leaves the delete queued in the client, to be sent by a later sync, and the refresh that sync would have made is lost.
- KeepSync.KeepSyncEngine.UnlinkNote: inherits that simplification: a failed unlink keeps the Keep note, whereas the source may still delete it on a later sync.
- Store.NoteStore.GetNotesByLabel: models the corrected selection, label-list membership. The query as written (`Store.LabelColumnMatches`) differs from it as the Findings table and the lemmas next to `Store.NonAsciiLabelNeverMatches` show.
- Importing.TakeoutNote (with Importing.TakeoutFields and Importing.TakeoutLabels): a value of the wrong JSON type in a field read with `data.get` (a number as `title`, a string as `isPinned`) makes the record fail with `None`. Python would carry the foreign value into the note and try to save it.
- Json.GetTime: only values the program itself wrote (`JTime`) decode. An ISO-8601 string written by another program is a `JStr`, and reading it is an error, whereas `datetime.fromisoformat` would accept it.
- Cloud.DriveBackup.Connect: the provider faces one Drive folder. The backup file it sees is fixed when the provider is made, and connecting with other credentials does not change it.
- Cloud.GitHubBackup.Connect: the provider faces one repository. Its note, labels and metadata files are fixed when the provider is made, and connecting to another `repo_name` does not replace them.
- Conflict detection and the `pending_pull`, `conflict`, `deleted_remote` and `error` statuses are not modelled, because the source never assigns them. They exist only as enum values.

## Findings

| source | as written | input that shows it | evidently intended | confidence | as-written member | corrected member |
|---|---|---|---|---|---|---|
| keepsync_notes.py:473-480 | `labels LIKE '%"label"%'` is tested against the `json.dumps` text of the label list. That text escapes every non-ASCII character and every `"` and `\`; `LIKE` folds ASCII case; `%` and `_` in the label are wildcards; and the pattern can span two labels | a note whose labels are `["café"]`: the column holds `["caf\u00e9"]`, so `get_notes_by_label("café")` returns no row. Likewise `"work"` finds `["Work"]` (Store.LabelMatchIgnoresCase), `"%"` finds any labelled note (Store.PercentTagMatchesAnyLabel), `a"b` is never found (Store.QuotedLabelNotFound), and `a", "b` finds `["a", "b"]` (Store.TagSpanningLabelsMatches) | the untrashed notes whose label list contains the label | high, not executed | Store.NonAsciiLabelNeverMatches | Store.NoteStore.GetNotesByLabel |
| keepsync_notes.py:3858 | in a list, a dict with `"title"` is parsed as a Takeout record, and every record `Note.to_dict` writes has a `"title"` | the list `[n.to_dict()]` for a note with labels `["x"]`: `l.get` on the string `"x"` raises inside `_parse_takeout_note`, so the note is dropped, and a list of such records imports nothing; without labels a note is imported with no content, checklist or flags (Importing.ExportedRecordMistakenForTakeout) | records carrying the app's `"id"` are read by `Note.from_dict`, as in the export-file branch at 3871-3879 | medium, not executed | Importing.LabelledExportListImportsNothing | Importing.ListImportRestoresExport |
