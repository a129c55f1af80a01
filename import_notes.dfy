/**
 * Importing notes from a JSON file (`_import_notes`) and reading a Google
 * Keep Takeout record (`_parse_takeout_note`). Every imported note gets a new
 * id, loses its Keep link and becomes `local_only`, then is saved into the
 * store one by one.
 */
module Importing {
  import opened Wrappers
  import opened Json
  import opened Notes
  import opened Store
  import opened Backups

  // ---------------------------------------------------------------------------
  // Takeout records
  // ---------------------------------------------------------------------------

  /**
   * The values a `for` loop visits in `j` when each of them is then read
   * with `.get`: the items of a list, nothing for an empty string or dict.
   * A non-empty string or dict yields strings, which have no `.get`.
   */
  function Walked(j: Json): (r: Option<seq<Json>>)
    ensures j.JArr? ==> r == Some(j.items)
  {
    match j
    case JArr(a) => Some(a)
    case JStr(s) => if s == "" then Some([]) else None
    case JObj(m) => if m == map[] then Some([]) else None
    case _ => None
  }

  /** The `listContent` items as checklist items; item `k` draws the uuid `ids(k)`. */
  function TakeoutItems(a: seq<Json>, ids: nat -> string): (r: Result<seq<ChecklistItem>, DecodeError>)
    ensures r.Ok? ==> |r.value| == |a|
    ensures r.Ok? ==> forall k :: 0 <= k < |a| ==> a[k].JObj? && r.value[k].id == ids(k)
    decreases |a|
  {
    if a == [] then Ok([])
    else
      var items :- TakeoutItems(a[..|a| - 1], ids);
      match a[|a| - 1]
      case JObj(d) =>
        var text :- GetStr(d, "text", "");
        var checked :- GetBool(d, "isChecked", false);
        Ok(items + [ChecklistItem(text, checked, ids(|a| - 1))])
      case _ => Err(WrongType("listContent"))
  }

  /** `[l.get("name", "") for l in labels if l.get("name")]`: the truthy names, in order. */
  function TakeoutLabels(a: seq<Json>): (r: Result<seq<string>, DecodeError>)
    ensures r.Ok? ==> |r.value| <= |a| && forall k :: 0 <= k < |r.value| ==> r.value[k] != ""
    decreases |a|
  {
    if a == [] then Ok([])
    else
      var names :- TakeoutLabels(a[..|a| - 1]);
      match a[|a| - 1]
      case JObj(d) =>
        if "name" !in d || !Truthy(d["name"]) then Ok(names)
        else
          (match d["name"]
           case JStr(s) => Ok(names + [s])
           case _ => Err(WrongType("labels")))
      case _ => Err(WrongType("labels"))
  }

  /** A list-valued Takeout key read by `f` when present, nothing when absent. */
  function TakeoutList<T>(d: map<string, Json>, key: string, f: seq<Json> -> Result<seq<T>, DecodeError>)
    : (r: Result<seq<T>, DecodeError>)
    ensures key !in d ==> r == Ok([])
  {
    if key !in d then Ok([])
    else
      match Walked(d[key])
      case None => Err(WrongType(key))
      case Some(a) => f(a)
  }

  /** The fields of a Takeout record, as `_parse_takeout_note` reads them, into a note. */
  function TakeoutFields(d: map<string, Json>, id: string, itemIds: nat -> string, now: Timestamp)
    : (r: Result<Note, DecodeError>)
  {
    var title :- GetStr(d, "title", "");
    var content :- GetStr(d, "textContent", "");
    var items :- TakeoutList(d, "listContent", (a: seq<Json>) => TakeoutItems(a, itemIds));
    var labels :- TakeoutList(d, "labels", TakeoutLabels);
    var pinned :- GetBool(d, "isPinned", false);
    var archived :- GetBool(d, "isArchived", false);
    var trashed :- GetBool(d, "isTrashed", false);
    Ok(Note(id, title, content, if items == [] then PlainNote else Checklist, items, labels,
            pinned, archived, trashed, "", None, LocalOnly, None, None, "", now, now))
  }

  /**
   * `_parse_takeout_note`: a new, unlinked, `local_only` note carrying the
   * record's title, text, checklist, labels and flags, or `None` when reading
   * the record raises. The note id is the uuid `id`; `now` is the clock.
   */
  function TakeoutNote(d: map<string, Json>, id: string, itemIds: nat -> string, now: Timestamp, md5: Fingerprint -> string)
    : (r: Option<Note>)
    ensures r.Some? ==>
      var n := r.value;
      && n.id == id && n.keepId == None && n.syncStatus == LocalOnly && HashCurrent(n, md5)
      && n.createdAt == now && n.updatedAt == now && n.color == ""
      && (n.noteType == Checklist <==> n.checklistItems != [])
      && (forall k :: 0 <= k < |n.labels| ==> n.labels[k] != "")
      && (if "title" in d then d["title"] == JStr(n.title) else n.title == "")
      && (if "textContent" in d then d["textContent"] == JStr(n.content) else n.content == "")
      && (if "isPinned" in d then d["isPinned"] == JBool(n.pinned) else !n.pinned)
      && (if "isArchived" in d then d["isArchived"] == JBool(n.archived) else !n.archived)
      && (if "isTrashed" in d then d["isTrashed"] == JBool(n.trashed) else !n.trashed)
      && ("listContent" !in d ==> n.checklistItems == [])
      && ("labels" !in d ==> n.labels == [])
    ensures r.None? <==> TakeoutFields(d, id, itemIds, now).Err?
  {
    match TakeoutFields(d, id, itemIds, now)
    case Ok(n) => Some(UpdateHash(n, md5))
    case Err(_) => None
  }

  /** A plain text record becomes a plain note with that title and text and nothing else. */
  lemma TakeoutOfTextRecord(title: string, text: string, id: string, itemIds: nat -> string,
                            now: Timestamp, md5: Fingerprint -> string)
    ensures var r := TakeoutNote(map["title" := JStr(title), "textContent" := JStr(text)], id, itemIds, now, md5);
      && r.Some? && r.value.title == title && r.value.content == text && r.value.noteType == PlainNote
      && r.value.checklistItems == [] && r.value.labels == [] && !r.value.pinned && !r.value.archived && !r.value.trashed
  {
  }

  // ---------------------------------------------------------------------------
  // Which records a list holds
  // ---------------------------------------------------------------------------

  /** The test the list branch applies, as written: a `textContent` or a `title` key means Takeout. */
  predicate IsTakeoutItemAsWritten(d: map<string, Json>) {
    "textContent" in d || "title" in d
  }

  /**
   * The test as evidently intended: a Takeout record has `textContent`, or a
   * `title` without the `id` every record written by `Note.to_dict` carries.
   */
  predicate IsTakeoutItem(d: map<string, Json>) {
    "textContent" in d || ("title" in d && "id" !in d)
  }

  /**
   * Where a record comes from: the `notes` of an export file, or a bare list
   * read with the test as written or with the test as intended.
   */
  datatype RecordSource = FromExportFile | FromList | FromListIntended

  /** Whether a record from `src` is handed to the Takeout reader. */
  predicate ReadAsTakeout(src: RecordSource, d: map<string, Json>) {
    match src
    case FromExportFile => false
    case FromList => IsTakeoutItemAsWritten(d)
    case FromListIntended => IsTakeoutItem(d)
  }

  /** `Note.to_dict` writes an `id` and no Takeout key. */
  lemma ExportedRecordKeys(n: Note)
    ensures var d := NoteToDict(n);
      && "id" in d && "title" in d && d["title"] == JStr(n.title) && d["labels"] == JArr(StringsToJson(n.labels))
      && "textContent" !in d && "listContent" !in d
      && "isPinned" !in d && "isArchived" !in d && "isTrashed" !in d
  {
    ContentEntries(n);
    ListEntries(n);
    NoTakeoutKeys(n);
  }

  lemma NoTakeoutKeys(n: Note)
    ensures var d := NoteToDict(n);
      && "textContent" !in d && "listContent" !in d
      && "isPinned" !in d && "isArchived" !in d && "isTrashed" !in d
  {
    NoTakeoutContentKeys(n);
    NoTakeoutFlagKeys(n);
  }

  lemma NoTakeoutContentKeys(n: Note)
    ensures var d := NoteToDict(n); "textContent" !in d && "listContent" !in d
  {
  }

  lemma NoTakeoutFlagKeys(n: Note)
    ensures var d := NoteToDict(n); "isPinned" !in d && "isArchived" !in d && "isTrashed" !in d
  {
    NoTakeoutPinKey(n);
    NoTakeoutStateKeys(n);
  }

  lemma NoTakeoutPinKey(n: Note)
    ensures "isPinned" !in NoteToDict(n)
  {
  }

  lemma NoTakeoutStateKeys(n: Note)
    ensures var d := NoteToDict(n); "isArchived" !in d && "isTrashed" !in d
  {
  }

  /**
   * As written, a record exported by the app is read as a Takeout record:
   * it is dropped when the note had labels (the label strings have no
   * `.get`), and otherwise loses its content, checklist and flags. The
   * intended test sends it to `Note.from_dict`, which restores the note.
   */
  lemma ExportedRecordMistakenForTakeout(n: Note, id: string, itemIds: nat -> string, now: Timestamp,
                                         md5: Fingerprint -> string)
    ensures IsTakeoutItemAsWritten(NoteToDict(n)) && !IsTakeoutItem(NoteToDict(n))
    ensures n.labels != [] ==> TakeoutNote(NoteToDict(n), id, itemIds, now, md5) == None
    ensures n.labels == [] ==>
      var r := TakeoutNote(NoteToDict(n), id, itemIds, now, md5);
      && r.Some? && r.value.title == n.title && r.value.content == "" && r.value.checklistItems == []
      && !r.value.pinned && !r.value.archived && !r.value.trashed
    ensures NoteFromDict(NoteToDict(n), itemIds, now, md5) == Ok(UpdateHash(n, md5))
  {
    NoteRoundTrip(n, itemIds, now, md5);
    ExportedRecordKeys(n);
    ExportedRecordReadAsTakeout(n, id, itemIds, now);
    if n.labels == [] {
      var m := Note(id, n.title, "", PlainNote, [], [], false, false, false, "", None, LocalOnly, None, None, "", now, now);
      assert TakeoutNote(NoteToDict(n), id, itemIds, now, md5) == Some(UpdateHash(m, md5));
    }
  }

  /** What the Takeout reader makes of an exported record. */
  lemma ExportedRecordReadAsTakeout(n: Note, id: string, itemIds: nat -> string, now: Timestamp)
    ensures var r := TakeoutFields(NoteToDict(n), id, itemIds, now);
      && (n.labels != [] ==> r.Err?)
      && (n.labels == [] ==> r == Ok(Note(id, n.title, "", PlainNote, [], [], false, false, false, "",
                                          None, LocalOnly, None, None, "", now, now)))
  {
    var d := NoteToDict(n);
    ExportedRecordKeys(n);
    assert GetStr(d, "title", "") == Ok(n.title);
    assert GetStr(d, "textContent", "") == Ok("");
    assert TakeoutList(d, "listContent", (a: seq<Json>) => TakeoutItems(a, itemIds)) == Ok([]);
    assert TakeoutList(d, "labels", TakeoutLabels) == TakeoutLabels(StringsToJson(n.labels));
    if n.labels != [] {
      LabelStringsHaveNoGet(StringsToJson(n.labels));
    } else {
      assert StringsToJson(n.labels) == [];
    }
  }

  /** A non-empty list of strings fails the label read at its first element. */
  lemma LabelStringsHaveNoGet(a: seq<Json>)
    requires a != [] && forall k :: 0 <= k < |a| ==> a[k].JStr?
    ensures TakeoutLabels(a).Err?
    decreases |a|
  {
    if |a| > 1 {
      LabelStringsHaveNoGet(a[..|a| - 1]);
    }
  }

  // ---------------------------------------------------------------------------
  // The import
  // ---------------------------------------------------------------------------

  /** The clock and the uuid4 draws of one import: the id of record `k`, and of item `j` in it. */
  datatype ImportEnv = ImportEnv(now: Timestamp, noteIds: nat -> string, itemIds: nat -> nat -> string)

  /** `note.id = uuid4(); note.keep_id = None; note.sync_status = LOCAL_ONLY`. */
  function Unlinked(n: Note, id: string): (r: Note)
    ensures r.id == id && r.keepId == None && r.syncStatus == LocalOnly
    ensures r.(id := n.id, keepId := n.keepId, syncStatus := n.syncStatus) == n
  {
    n.(id := id, keepId := None, syncStatus := LocalOnly)
  }

  /** What an import leaves: the note table, the `imported` counter, and the fault that ended it. */
  datatype Imported = Imported(notes: map<string, Note>, count: nat, fault: Option<Fault>)

  /** `if self.db.save_note(note): imported += 1`. */
  function Record(imp: Imported, n: Note, now: Timestamp, md5: Fingerprint -> string): Imported {
    imp.(notes := imp.notes[n.id := Saved(n, now, md5)], count := imp.count + 1)
  }

  /**
   * One record `e`, the `k`-th of a list or of an export file's `notes`
   * (`src`). A list skips what is not a dict and Takeout records that fail;
   * any record that `Note.from_dict` cannot read ends the import.
   */
  function ImportStep(imp: Imported, e: Json, k: nat, src: RecordSource, env: ImportEnv, md5: Fingerprint -> string)
    : Imported
  {
    if imp.fault.Some? then imp
    else
      match e
      case JObj(d) =>
        if ReadAsTakeout(src, d) then
          (match TakeoutNote(d, env.noteIds(k), env.itemIds(k), env.now, md5)
           case None => imp
           case Some(n) => Record(imp, Unlinked(n, env.noteIds(k)), env.now, md5))
        else
          (match NoteFromDict(d, env.itemIds(k), env.now, md5)
           case Err(err) => imp.(fault := Some(Malformed(err)))
           case Ok(n) => Record(imp, Unlinked(n, env.noteIds(k)), env.now, md5))
      case _ => if src.FromExportFile? then imp.(fault := Some(NotAnObject)) else imp
  }

  /** The import loop over the records `es`. */
  function ImportFold(notes: map<string, Note>, es: seq<Json>, src: RecordSource, env: ImportEnv, md5: Fingerprint -> string)
    : Imported
  {
    StepFold(Imported(notes, 0, None), es, ImportStepOf(src, env, md5))
  }

  /**
   * `_import_notes` on the decoded file `data`: a single Takeout record, a
   * list of records (read as `list` says), or an export file with a `notes`
   * list; anything else imports nothing.
   */
  function ImportBy(notes: map<string, Note>, data: Json, list: RecordSource, env: ImportEnv, md5: Fingerprint -> string)
    : Imported
  {
    match data
    case JObj(d) =>
      if "textContent" in d then
        (match TakeoutNote(d, env.noteIds(0), env.itemIds(0), env.now, md5)
         case None => Imported(notes, 0, None)
         case Some(n) => Record(Imported(notes, 0, None), n, env.now, md5))
      else if "notes" in d then
        (match NotesEntries(data)
         case Err(f) => Imported(notes, 0, Some(f))
         case Ok(es) => ImportFold(notes, es, FromExportFile, env, md5))
      else Imported(notes, 0, None)
    case JArr(a) => ImportFold(notes, a, list, env, md5)
    case _ => Imported(notes, 0, None)
  }

  /** `_import_notes` as written. */
  function Import(notes: map<string, Note>, data: Json, env: ImportEnv, md5: Fingerprint -> string): Imported {
    ImportBy(notes, data, FromList, env, md5)
  }

  /** `_import_notes` with the list test as evidently intended. */
  function IntendedImport(notes: map<string, Note>, data: Json, env: ImportEnv, md5: Fingerprint -> string): Imported {
    ImportBy(notes, data, FromListIntended, env, md5)
  }

  lemma ImportSnoc(notes: map<string, Note>, es: seq<Json>, i: nat, src: RecordSource, env: ImportEnv, md5: Fingerprint -> string)
    requires i < |es|
    ensures ImportFold(notes, es[..i + 1], src, env, md5)
         == ImportStep(ImportFold(notes, es[..i], src, env, md5), es[i], i, src, env, md5)
  {
    assert es[..i + 1][..i] == es[..i];
  }

  /** Once a record has ended the import, the records after it change nothing. */
  lemma {:induction false} ImportFaultSticks(notes: map<string, Note>, es: seq<Json>, i: nat, src: RecordSource,
                                             env: ImportEnv, md5: Fingerprint -> string)
    requires i <= |es| && ImportFold(notes, es[..i], src, env, md5).fault.Some?
    ensures ImportFold(notes, es, src, env, md5) == ImportFold(notes, es[..i], src, env, md5)
    decreases |es| - i
  {
    if i < |es| {
      ImportSnoc(notes, es, i, src, env, md5);
      ImportFaultSticks(notes, es, i + 1, src, env, md5);
    } else {
      assert es[..i] == es;
    }
  }

  /** A note as an import stores it: unlinked, `local_only`, hashed and stamped with the import's clock. */
  predicate IsImported(n: Note, now: Timestamp, md5: Fingerprint -> string) {
    n.keepId == None && n.syncStatus == LocalOnly && HashCurrent(n, md5) && n.updatedAt == now
  }

  /** One import step keeps every note but possibly the one stored under the record's fresh id. */
  lemma ImportStepShape(imp: Imported, e: Json, k: nat, src: RecordSource, env: ImportEnv, md5: Fingerprint -> string)
    ensures var r := ImportStep(imp, e, k, src, env, md5);
      && imp.notes.Keys <= r.notes.Keys && r.count <= imp.count + 1
      && (forall id :: id in r.notes && id != env.noteIds(k) ==> id in imp.notes && r.notes[id] == imp.notes[id])
      && (env.noteIds(k) in r.notes ==>
            (env.noteIds(k) in imp.notes && r.notes[env.noteIds(k)] == imp.notes[env.noteIds(k)])
            || IsImported(r.notes[env.noteIds(k)], env.now, md5))
  {
  }

  /**
   * The import loop adds or replaces only notes stored under the fresh ids
   * it drew, each unlinked and `local_only`; it counts at most one note per
   * record.
   */
  lemma {:induction false} ImportFoldShape(notes: map<string, Note>, es: seq<Json>, src: RecordSource,
                                           env: ImportEnv, md5: Fingerprint -> string)
    ensures var r := ImportFold(notes, es, src, env, md5);
      && notes.Keys <= r.notes.Keys && r.count <= |es|
      && forall id :: id in r.notes ==>
           (id in notes && r.notes[id] == notes[id])
           || (exists k :: 0 <= k < |es| && id == env.noteIds(k) && IsImported(r.notes[id], env.now, md5))
    decreases |es|
  {
    if es != [] {
      var p := es[..|es| - 1];
      ImportFoldShape(notes, p, src, env, md5);
      var imp := ImportFold(notes, p, src, env, md5);
      ImportStepShape(imp, es[|es| - 1], |es| - 1, src, env, md5);
      var r := ImportFold(notes, es, src, env, md5);
      forall id | id in r.notes
        ensures (id in notes && r.notes[id] == notes[id])
             || (exists k :: 0 <= k < |es| && id == env.noteIds(k) && IsImported(r.notes[id], env.now, md5))
      {
        if id != env.noteIds(|es| - 1) || !IsImported(r.notes[id], env.now, md5) {
          assert id in imp.notes && r.notes[id] == imp.notes[id];
          if !(id in notes && imp.notes[id] == notes[id]) {
            var k :| 0 <= k < |p| && id == env.noteIds(k) && IsImported(imp.notes[id], env.now, md5);
            assert 0 <= k < |es|;
          }
        }
      }
    }
  }

  /**
   * An import, with either list test, keeps every note it does not store
   * under one of its fresh ids, and every note it stores there is unlinked
   * and `local_only`.
   */
  lemma ImportAddsOnlyUnlinkedNotes(notes: map<string, Note>, data: Json, list: RecordSource, env: ImportEnv,
                                    md5: Fingerprint -> string)
    ensures var r := ImportBy(notes, data, list, env, md5);
      && notes.Keys <= r.notes.Keys
      && forall id :: id in r.notes ==>
           (id in notes && r.notes[id] == notes[id])
           || (exists k: nat :: id == env.noteIds(k) && IsImported(r.notes[id], env.now, md5))
  {
    var r := ImportBy(notes, data, list, env, md5);
    match data
    case JObj(d) =>
      if "textContent" in d {
        match TakeoutNote(d, env.noteIds(0), env.itemIds(0), env.now, md5)
        case None =>
        case Some(n) =>
          assert n.id == env.noteIds(0);
          assert IsImported(r.notes[env.noteIds(0)], env.now, md5);
      } else if "notes" in d {
        match NotesEntries(data)
        case Err(_) =>
        case Ok(es) =>
          ImportFoldShape(notes, es, FromExportFile, env, md5);
      }
    case JArr(a) =>
      ImportFoldShape(notes, a, list, env, md5);
    case _ =>
  }

  /** When no fresh id is already taken, an import changes no existing note. */
  lemma ImportKeepsExistingNotes(notes: map<string, Note>, data: Json, list: RecordSource, env: ImportEnv,
                                 md5: Fingerprint -> string)
    requires forall k: nat :: env.noteIds(k) !in notes
    ensures var r := ImportBy(notes, data, list, env, md5);
      forall id :: id in notes ==> id in r.notes && r.notes[id] == notes[id]
  {
    ImportAddsOnlyUnlinkedNotes(notes, data, list, env, md5);
  }

  // ---------------------------------------------------------------------------
  // Export, then import
  // ---------------------------------------------------------------------------

  /** `_export_notes`: the version, the export time, and the notes and labels as dicts. */
  function ExportFile(rows: seq<Note>, tags: seq<Label>, at: Timestamp): Json {
    JObj(map["version" := JInt(DbVersion), "exported_at" := JTime(at),
             "notes" := JArr(NotesJson(rows)), "labels" := JArr(LabelsJson(tags))])
  }

  /** Saving recomputes the hash, so the hash a note carried before does not matter. */
  lemma SavedIgnoresHash(n: Note, id: string, now: Timestamp, md5: Fingerprint -> string)
    ensures Saved(Unlinked(UpdateHash(n, md5), id), now, md5) == Saved(Unlinked(n, id), now, md5)
  {
  }

  /** What importing the `k`-th exported note saves: a fresh, unlinked, re-stamped copy. */
  function SavedCopies(rows: seq<Note>, env: ImportEnv, md5: Fingerprint -> string): (r: seq<Note>)
    ensures |r| == |rows|
    ensures forall k :: 0 <= k < |rows| ==> r[k] == Saved(Unlinked(rows[k], env.noteIds(k)), env.now, md5)
  {
    seq(|rows|, k requires 0 <= k < |rows| => Saved(Unlinked(rows[k], env.noteIds(k)), env.now, md5))
  }

  /** `notes` with the first `i` values written, the `k`-th under the key `keys(k)`. */
  function ExportTable(notes: map<string, Note>, keys: nat -> string, vals: seq<Note>, i: nat): map<string, Note>
    requires i <= |vals|
  {
    if i == 0 then notes
    else ExportTable(notes, keys, vals, i - 1)[keys(i - 1) := vals[i - 1]]
  }

  /** With distinct keys, that table holds each of those values under its own key. */
  lemma {:induction false} ExportTableHolds(notes: map<string, Note>, keys: nat -> string, vals: seq<Note>, i: nat)
    requires i <= |vals|
    requires forall j, k :: 0 <= j < k < |vals| ==> keys(j) != keys(k)
    ensures var t := ExportTable(notes, keys, vals, i);
      forall k :: 0 <= k < i ==> keys(k) in t && t[keys(k)] == vals[k]
    decreases i
  {
    if i > 0 {
      ExportTableHolds(notes, keys, vals, i - 1);
      forall k | 0 <= k < i - 1 ensures keys(k) != keys(i - 1) {
      }
    }
  }

  /** The import step for one kind of file, as a value. */
  function ImportStepOf(src: RecordSource, env: ImportEnv, md5: Fingerprint -> string): (Imported, Json, nat) -> Imported {
    (imp: Imported, e: Json, k: nat) => ImportStep(imp, e, k, src, env, md5)
  }

  /** A loop over `es` that applies `step` to each record and its position. */
  function StepFold(init: Imported, es: seq<Json>, step: (Imported, Json, nat) -> Imported): Imported
    decreases |es|
  {
    if es == [] then init else step(StepFold(init, es[..|es| - 1], step), es[|es| - 1], |es| - 1)
  }

  /** Whatever came before, `step` on the `k`-th record saves `v` under the key `keys(k)`. */
  ghost predicate RecordSaves(step: (Imported, Json, nat) -> Imported, e: Json, k: nat, keys: nat -> string, v: Note) {
    forall imp: Imported {:trigger step(imp, e, k)} :: imp.fault == None ==>
      step(imp, e, k) == Imported(imp.notes[keys(k) := v], imp.count + 1, None)
  }

  /** All of a loop over records that each save their value. */
  lemma RecordsImportAll(notes: map<string, Note>, es: seq<Json>, vals: seq<Note>,
                         step: (Imported, Json, nat) -> Imported, keys: nat -> string)
    requires |es| == |vals|
    requires forall k :: 0 <= k < |es| ==> RecordSaves(step, es[k], k, keys, vals[k])
    ensures StepFold(Imported(notes, 0, None), es, step) == Imported(ExportTable(notes, keys, vals, |es|), |es|, None)
  {
    RecordsImport(notes, es, vals, |es|, step, keys);
    assert es[..|es|] == es;
  }

  /** A loop over records that each save their value saves exactly those values. */
  lemma {:induction false} RecordsImport(notes: map<string, Note>, es: seq<Json>, vals: seq<Note>, i: nat,
                                         step: (Imported, Json, nat) -> Imported, keys: nat -> string)
    requires i <= |es| == |vals|
    requires forall k :: 0 <= k < |es| ==> RecordSaves(step, es[k], k, keys, vals[k])
    ensures StepFold(Imported(notes, 0, None), es[..i], step) == Imported(ExportTable(notes, keys, vals, i), i, None)
    decreases i
  {
    if i > 0 {
      RecordsImport(notes, es, vals, i - 1, step, keys);
      var prev := StepFold(Imported(notes, 0, None), es[..i - 1], step);
      assert es[..i][..i - 1] == es[..i - 1] && es[..i][i - 1] == es[i - 1];
      assert RecordSaves(step, es[i - 1], i - 1, keys, vals[i - 1]);
      assert step(prev, es[i - 1], i - 1) == Imported(prev.notes[keys(i - 1) := vals[i - 1]], prev.count + 1, None);
    }
  }

  /** The import loop over an export's records saves exactly the saved copies of its notes. */
  lemma ExportPrefixImports(notes: map<string, Note>, rows: seq<Note>, env: ImportEnv, md5: Fingerprint -> string)
    ensures ImportFold(notes, NotesJson(rows), FromExportFile, env, md5)
         == Imported(ExportTable(notes, env.noteIds, SavedCopies(rows, env, md5), |rows|), |rows|, None)
  {
    ExportRecordsSave(rows, env, md5);
    RecordsImportAll(notes, NotesJson(rows), SavedCopies(rows, env, md5), ImportStepOf(FromExportFile, env, md5), env.noteIds);
  }

  lemma ExportRecordsSave(rows: seq<Note>, env: ImportEnv, md5: Fingerprint -> string)
    ensures forall k :: 0 <= k < |rows| ==>
      RecordSaves(ImportStepOf(FromExportFile, env, md5), NotesJson(rows)[k], k, env.noteIds, SavedCopies(rows, env, md5)[k])
  {
    forall k | 0 <= k < |rows|
      ensures RecordSaves(ImportStepOf(FromExportFile, env, md5), NotesJson(rows)[k], k, env.noteIds, SavedCopies(rows, env, md5)[k])
    {
      ExportRecordSaves(rows[k], k, env, md5);
    }
  }

  lemma ExportRecordSaves(n: Note, k: nat, env: ImportEnv, md5: Fingerprint -> string)
    ensures RecordSaves(ImportStepOf(FromExportFile, env, md5), JObj(NoteToDict(n)), k, env.noteIds, Saved(Unlinked(n, env.noteIds(k)), env.now, md5))
  {
    forall imp: Imported | imp.fault == None
      ensures ImportStep(imp, JObj(NoteToDict(n)), k, FromExportFile, env, md5)
           == Imported(imp.notes[env.noteIds(k) := Saved(Unlinked(n, env.noteIds(k)), env.now, md5)], imp.count + 1, None)
    {
      ExportRecordImports(imp, n, k, env, md5);
    }
  }

  /** One record of an export file is read back as its note, saved under the `k`-th fresh id. */
  lemma ExportRecordImports(imp: Imported, n: Note, k: nat, env: ImportEnv, md5: Fingerprint -> string)
    requires imp.fault == None
    ensures ImportStep(imp, JObj(NoteToDict(n)), k, FromExportFile, env, md5)
         == Imported(imp.notes[env.noteIds(k) := Saved(Unlinked(n, env.noteIds(k)), env.now, md5)], imp.count + 1, None)
  {
    NoteRoundTrip(n, env.itemIds(k), env.now, md5);
    SavedIgnoresHash(n, env.noteIds(k), env.now, md5);
  }

  /**
   * Importing an export file stores a copy of every exported note under its
   * own fresh id (unlinked, `local_only`, re-stamped) and counts them all.
   */
  lemma ExportImportRoundTrip(notes: map<string, Note>, rows: seq<Note>, tags: seq<Label>, at: Timestamp,
                              env: ImportEnv, md5: Fingerprint -> string)
    requires forall j, k :: 0 <= j < k < |rows| ==> env.noteIds(j) != env.noteIds(k)
    ensures var r := Import(notes, ExportFile(rows, tags, at), env, md5);
      && r.fault == None && r.count == |rows|
      && forall k :: 0 <= k < |rows| ==>
           env.noteIds(k) in r.notes && r.notes[env.noteIds(k)] == Saved(Unlinked(rows[k], env.noteIds(k)), env.now, md5)
  {
    var data := ExportFile(rows, tags, at);
    assert "textContent" !in data.fields && "notes" in data.fields;
    assert NotesEntries(data) == Ok(NotesJson(rows));
    ExportPrefixImports(notes, rows, env, md5);
    ExportTableHolds(notes, env.noteIds, SavedCopies(rows, env, md5), |rows|);
  }

  /** A record the intended test does not take for Takeout is read alike in a list and in an export file. */
  lemma RecordStepIgnoresList(imp: Imported, d: map<string, Json>, k: nat, env: ImportEnv, md5: Fingerprint -> string)
    requires !IsTakeoutItem(d)
    ensures ImportStep(imp, JObj(d), k, FromListIntended, env, md5) == ImportStep(imp, JObj(d), k, FromExportFile, env, md5)
  {
  }

  /** With the intended test, a list of exported records imports exactly like the export file. */
  lemma ListImportsLikeExport(notes: map<string, Note>, rows: seq<Note>, env: ImportEnv, md5: Fingerprint -> string)
    ensures ImportFold(notes, NotesJson(rows), FromListIntended, env, md5) == ImportFold(notes, NotesJson(rows), FromExportFile, env, md5)
  {
    ExportPrefixImports(notes, rows, env, md5);
    ListRecordsSave(rows, env, md5);
    RecordsImportAll(notes, NotesJson(rows), SavedCopies(rows, env, md5), ImportStepOf(FromListIntended, env, md5), env.noteIds);
  }

  lemma ListRecordsSave(rows: seq<Note>, env: ImportEnv, md5: Fingerprint -> string)
    ensures forall k :: 0 <= k < |rows| ==>
      RecordSaves(ImportStepOf(FromListIntended, env, md5), NotesJson(rows)[k], k, env.noteIds, SavedCopies(rows, env, md5)[k])
  {
    forall k | 0 <= k < |rows|
      ensures RecordSaves(ImportStepOf(FromListIntended, env, md5), NotesJson(rows)[k], k, env.noteIds, SavedCopies(rows, env, md5)[k])
    {
      ListRecordSaves(rows[k], k, env, md5);
    }
  }

  /** In a list, an exported record is saved just as it is from an export file. */
  lemma ListRecordSaves(n: Note, k: nat, env: ImportEnv, md5: Fingerprint -> string)
    ensures RecordSaves(ImportStepOf(FromListIntended, env, md5), JObj(NoteToDict(n)), k, env.noteIds, Saved(Unlinked(n, env.noteIds(k)), env.now, md5))
  {
    ExportedRecordKeys(n);
    forall imp: Imported | imp.fault == None
      ensures ImportStep(imp, JObj(NoteToDict(n)), k, FromListIntended, env, md5)
           == Imported(imp.notes[env.noteIds(k) := Saved(Unlinked(n, env.noteIds(k)), env.now, md5)], imp.count + 1, None)
    {
      RecordStepIgnoresList(imp, NoteToDict(n), k, env, md5);
      ExportRecordImports(imp, n, k, env, md5);
    }
  }

  lemma ListImportRestoresExport(notes: map<string, Note>, rows: seq<Note>, tags: seq<Label>, at: Timestamp,
                                 env: ImportEnv, md5: Fingerprint -> string)
    ensures IntendedImport(notes, JArr(NotesJson(rows)), env, md5) == Import(notes, ExportFile(rows, tags, at), env, md5)
  {
    var data := ExportFile(rows, tags, at);
    assert "textContent" !in data.fields && "notes" in data.fields;
    ListImportsLikeExport(notes, rows, env, md5);
  }

  /**
   * As written, a list of exported notes that all carry labels imports
   * nothing: each record goes to the Takeout reader, which raises on the
   * label strings, and the list branch skips it. With the intended test the
   * same list imports every note (`ListImportRestoresExport`).
   */
  lemma LabelledExportListImportsNothing(notes: map<string, Note>, rows: seq<Note>, env: ImportEnv,
                                         md5: Fingerprint -> string)
    requires forall k :: 0 <= k < |rows| ==> rows[k].labels != []
    ensures Import(notes, JArr(NotesJson(rows)), env, md5) == Imported(notes, 0, None)
  {
    LabelledExportsSkipped(notes, rows, |rows|, env, md5);
    assert NotesJson(rows)[..|rows|] == NotesJson(rows);
  }

  /** The as-written list loop over the first `i` labelled exported records changes nothing. */
  lemma {:induction false} LabelledExportsSkipped(notes: map<string, Note>, rows: seq<Note>, i: nat, env: ImportEnv,
                                                  md5: Fingerprint -> string)
    requires i <= |rows|
    requires forall k :: 0 <= k < |rows| ==> rows[k].labels != []
    ensures ImportFold(notes, NotesJson(rows)[..i], FromList, env, md5) == Imported(notes, 0, None)
    decreases i
  {
    if i > 0 {
      LabelledExportsSkipped(notes, rows, i - 1, env, md5);
      ImportSnoc(notes, NotesJson(rows), i - 1, FromList, env, md5);
      LabelledExportSkipped(ImportFold(notes, NotesJson(rows)[..i - 1], FromList, env, md5), rows[i - 1], i - 1, env, md5);
    }
  }

  /** As written, the list loop skips an exported record of a note with labels. */
  lemma LabelledExportSkipped(imp: Imported, n: Note, k: nat, env: ImportEnv, md5: Fingerprint -> string)
    requires n.labels != []
    ensures ImportStep(imp, JObj(NoteToDict(n)), k, FromList, env, md5) == imp
  {
    ExportedRecordMistakenForTakeout(n, env.noteIds(k), env.itemIds(k), env.now, md5);
  }

  // ---------------------------------------------------------------------------
  // The import as the application runs it
  // ---------------------------------------------------------------------------

  /** The records a loop of the application reads: a bare list, or an export file's `notes`. */
  function SourceOf(fromList: bool): RecordSource {
    if fromList then FromList else FromExportFile
  }

  /** One turn of the import loop: read record `e` and save the note it yields. */
  method ImportRecord(db: NoteStore, e: Json, k: nat, fromList: bool, env: ImportEnv, count: nat)
    returns (count': nat, fault: Option<Fault>)
    requires db.Valid()
    modifies db
    ensures db.Valid()
    ensures Imported(db.notes, count', fault)
         == ImportStep(Imported(old(db.notes), count, None), e, k, SourceOf(fromList), env, db.md5)
    ensures db.labels == old(db.labels) && db.settings == old(db.settings) && db.syncLog == old(db.syncLog)
  {
    count', fault := count, None;
    match e {
      case JObj(d) =>
        var note: Note;
        if fromList && IsTakeoutItemAsWritten(d) {
          var parsed := TakeoutNote(d, env.noteIds(k), env.itemIds(k), env.now, db.md5);
          if parsed.None? {
            return;
          }
          note := parsed.value;
        } else {
          var decoded := NoteFromDict(d, env.itemIds(k), env.now, db.md5);
          if decoded.Err? {
            fault := Some(Malformed(decoded.error));
            return;
          }
          note := decoded.value;
        }
        var ok, saved := db.SaveNote(Unlinked(note, env.noteIds(k)), env.now);
        count' := count + 1;
      case _ =>
        if !fromList {
          fault := Some(NotAnObject);
        }
    }
  }

  /** The import loop over the records `es`, stopping at the first record that raises. */
  method ImportRecords(db: NoteStore, es: seq<Json>, fromList: bool, env: ImportEnv)
    returns (imported: nat, fault: Option<Fault>)
    requires db.Valid()
    modifies db
    ensures db.Valid()
    ensures Imported(db.notes, imported, fault) == ImportFold(old(db.notes), es, SourceOf(fromList), env, db.md5)
    ensures db.labels == old(db.labels) && db.settings == old(db.settings) && db.syncLog == old(db.syncLog)
  {
    imported, fault := 0, None;
    var i := 0;
    while i < |es|
      invariant 0 <= i <= |es| && db.Valid()
      invariant Imported(db.notes, imported, None) == ImportFold(old(db.notes), es[..i], SourceOf(fromList), env, db.md5)
      invariant fault.None?
      invariant db.labels == old(db.labels) && db.settings == old(db.settings) && db.syncLog == old(db.syncLog)
    {
      ImportSnoc(old(db.notes), es, i, SourceOf(fromList), env, db.md5);
      imported, fault := ImportRecord(db, es[i], i, fromList, env, imported);
      if fault.Some? {
        ImportFaultSticks(old(db.notes), es, i + 1, SourceOf(fromList), env, db.md5);
        return;
      }
      i := i + 1;
    }
    assert es[..i] == es;
  }

  /**
   * `_import_notes`, as written, on the decoded file `data` (the file dialog and the
   * message boxes are left out): how many notes were imported, and the
   * fault behind "Import Failed" if one ended it. Notes saved before a fault
   * stay saved.
   */
  method ImportNotes(db: NoteStore, data: Json, env: ImportEnv) returns (imported: nat, fault: Option<Fault>)
    requires db.Valid()
    modifies db
    ensures db.Valid()
    ensures Imported(db.notes, imported, fault) == Import(old(db.notes), data, env, db.md5)
    ensures db.labels == old(db.labels) && db.settings == old(db.settings) && db.syncLog == old(db.syncLog)
  {
    imported, fault := 0, None;
    match data {
      case JObj(d) =>
        if "textContent" in d {
          var note := TakeoutNote(d, env.noteIds(0), env.itemIds(0), env.now, db.md5);
          if note.Some? {
            var ok, saved := db.SaveNote(note.value, env.now);
            imported := 1;
          }
        } else if "notes" in d {
          var entries := NotesEntries(data);
          if entries.Err? {
            fault := Some(entries.error);
          } else {
            imported, fault := ImportRecords(db, entries.value, false, env);
          }
        }
      case JArr(a) =>
        imported, fault := ImportRecords(db, a, true, env);
      case _ =>
    }
  }
}
