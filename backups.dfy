/**
 * The two cloud backups (`GoogleDriveSync.sync`, `GitHubSync.sync`) as values:
 * the merge that downloads backed-up notes missing locally, the file the
 * Drive backup writes, the GitHub repository's note index and its upload
 * rule, and each provider's whole sync as a function of the state before it
 * and of the orders in which it visits rows and files.
 */
module Backups {
  import opened Wrappers
  import opened Json
  import opened Notes
  import opened Store
  import Sorting

  /** `DB_VERSION`, written into every Drive backup. */
  const DbVersion: int := 1
  /** `APP_VERSION`, written into the GitHub metadata file. */
  const AppVersion: string := "1.0.0"

  /** Why a backup sync stopped: the exception its `try` block caught. */
  datatype Fault =
    | Raised(message: string)    // a Drive or GitHub call raised, with its text
    | Malformed(e: DecodeError)  // `Note.from_dict` failed, or a record has no "id"
    | NotAnObject                // a value read by key is not a dict
    | NotIterable                // the "notes" value cannot be iterated
    | Unhashable                 // an id that is a list or a dict
    | Incomparable               // a remote `updated_at` that is not a string

  /** `str(e)` of the caught exception; `explain` stands for the texts Python composes itself. */
  function FaultText(f: Fault, explain: Fault -> string): string {
    if f.Raised? then f.message else explain(f)
  }

  /** The stats dict: `{}` from a refused call, otherwise the three counters. */
  datatype BackupStats = NoCounts | Counts(uploaded: nat, downloaded: nat, conflicts: nat)

  /** What `sync` returns. */
  datatype Outcome = Outcome(success: bool, message: string, stats: BackupStats)

  function Failed(f: Fault, explain: Fault -> string, stats: BackupStats): Outcome {
    Outcome(false, "Sync error: " + FaultText(f, explain), stats)
  }

  /** The rows both backups read: `get_all_notes(include_archived=True, include_trashed=False)`. */
  predicate InBackup(n: Note) {
    Listed(n, false, true)
  }

  /** The rows of `get_all_notes(include_archived=True)` are the rows a backup holds. */
  lemma BackupQueryRows(rows: seq<Note>, notes: map<string, Note>)
    requires RowsOf(rows, notes, n => Listed(n, false, true))
    ensures RowsOf(rows, notes, InBackup)
  {
  }

  /** The ids of those rows: the `local_ids` set and `local_notes_dict` keys. */
  function LocalIds(notes: map<string, Note>): set<string> {
    set id | id in notes && !notes[id].trashed
  }

  /** What `get_all_labels` returns: every label once, ordered by name. */
  ghost predicate LabelRows(r: seq<Label>, labels: map<string, Label>) {
    && |r| == |labels|
    && (forall i :: 0 <= i < |r| ==> r[i].id in labels && labels[r[i].id] == r[i])
    && (forall id :: id in labels ==> labels[id] in r)
    && Sorting.SortedBy(r, LabelBefore)
  }

  /** The rows of the backup query carry exactly the local ids. */
  lemma RowIdsAreLocalIds(rows: seq<Note>, notes: map<string, Note>, md5: Fingerprint -> string)
    requires NotesWellFormed(notes, md5) && RowsOf(rows, notes, InBackup)
    ensures (set i | 0 <= i < |rows| :: rows[i].id) == LocalIds(notes)
  {
    var ids := set i | 0 <= i < |rows| :: rows[i].id;
    forall id | id in LocalIds(notes) ensures id in ids {
      assert InBackup(notes[id]);
      var i :| 0 <= i < |rows| && rows[i] == notes[id];
    }
  }

  // ---------------------------------------------------------------------------
  // The merge loop
  // ---------------------------------------------------------------------------

  /**
   * What the merge loop body does with one backed-up record: `Ok(None)` when
   * its id is among `local`, the decoded note to save otherwise, or the fault
   * it raises. `itemIds(k)` are the uuids `from_dict` draws for record `k`.
   */
  function Download(e: Json, k: nat, local: set<string>, now: Timestamp, itemIds: nat -> nat -> string,
                    md5: Fingerprint -> string): (r: Result<Option<Note>, Fault>)
    ensures r.Ok? && r.value.Some? ==>
      && e.JObj? && "id" in e.fields && e.fields["id"] == JStr(r.value.value.id)
      && r.value.value.id !in local && HashCurrent(r.value.value, md5)
    ensures r == Ok(None) <==> e.JObj? && "id" in e.fields && e.fields["id"].JStr? && e.fields["id"].s in local
  {
    match e
    case JObj(d) =>
      if "id" !in d then Err(Malformed(MissingKey("id")))
      else if d["id"].JArr? || d["id"].JObj? then Err(Unhashable)
      else if d["id"].JStr? && d["id"].s in local then Ok(None)
      else
        (match NoteFromDict(d, itemIds(k), now, md5)
         case Ok(n) => Ok(Some(n))
         case Err(x) => Err(Malformed(x)))
    case _ => Err(NotAnObject)
  }

  /** The store and the `downloaded` counter after a prefix of the loop, and the fault that ended it. */
  datatype Merged = Merged(notes: map<string, Note>, downloaded: nat, fault: Option<Fault>)

  function MergeStep(m: Merged, e: Json, k: nat, local: set<string>, now: Timestamp,
                     itemIds: nat -> nat -> string, md5: Fingerprint -> string): Merged {
    if m.fault.Some? then m
    else
      match Download(e, k, local, now, itemIds, md5)
      case Err(f) => m.(fault := Some(f))
      case Ok(None) => m
      case Ok(Some(n)) => Merged(m.notes[n.id := Saved(n, now, md5)], m.downloaded + 1, None)
  }

  /**
   * The merge loop over the backed-up records `es`: each record whose id is not
   * among `local` (fixed before the loop) is decoded and saved; the first fault
   * stops the loop, and what was saved before it stays saved.
   */
  function Merge(notes: map<string, Note>, es: seq<Json>, local: set<string>, now: Timestamp,
                 itemIds: nat -> nat -> string, md5: Fingerprint -> string): Merged
  {
    MergeOver(Merged(notes, 0, None), es, MergeStepOf(local, now, itemIds, md5))
  }

  /** The merge step with the parameters fixed for the whole loop. */
  function MergeStepOf(local: set<string>, now: Timestamp, itemIds: nat -> nat -> string, md5: Fingerprint -> string)
    : (Merged, Json, nat) -> Merged
  {
    (m: Merged, e: Json, k: nat) => MergeStep(m, e, k, local, now, itemIds, md5)
  }

  /** A loop over `es` that applies `step` to each record and its position. */
  function MergeOver(init: Merged, es: seq<Json>, step: (Merged, Json, nat) -> Merged): Merged
    decreases |es|
  {
    if es == [] then init else step(MergeOver(init, es[..|es| - 1], step), es[|es| - 1], |es| - 1)
  }

  lemma MergeSnoc(notes: map<string, Note>, es: seq<Json>, e: Json, local: set<string>, now: Timestamp,
                  itemIds: nat -> nat -> string, md5: Fingerprint -> string)
    ensures Merge(notes, es + [e], local, now, itemIds, md5)
         == MergeStep(Merge(notes, es, local, now, itemIds, md5), e, |es|, local, now, itemIds, md5)
  {
    assert (es + [e])[..|es|] == es;
  }

  /** A fault-free step saves the record it downloads, and nothing else. */
  lemma MergeStepNotes(m: Merged, e: Json, k: nat, local: set<string>, now: Timestamp,
                       itemIds: nat -> nat -> string, md5: Fingerprint -> string)
    requires m.fault.None?
    ensures var d := Download(e, k, local, now, itemIds, md5);
      MergeStep(m, e, k, local, now, itemIds, md5).notes
        == if d.Ok? && d.value.Some? then m.notes[d.value.value.id := Saved(d.value.value, now, md5)] else m.notes
  {
  }

  /** Once a fault has ended the loop, the records after it change nothing. */
  lemma {:induction false} MergeFaultSticks(notes: map<string, Note>, es: seq<Json>, i: nat, local: set<string>,
                                            now: Timestamp, itemIds: nat -> nat -> string, md5: Fingerprint -> string)
    requires i <= |es| && Merge(notes, es[..i], local, now, itemIds, md5).fault.Some?
    ensures Merge(notes, es, local, now, itemIds, md5) == Merge(notes, es[..i], local, now, itemIds, md5)
    decreases |es| - i
  {
    if i < |es| {
      MergeSnoc(notes, es[..i], es[i], local, now, itemIds, md5);
      assert es[..i] + [es[i]] == es[..i + 1];
      MergeFaultSticks(notes, es, i + 1, local, now, itemIds, md5);
    } else {
      assert es[..i] == es;
    }
  }

  /** The merge ends without a fault exactly when every record can be skipped or decoded. */
  lemma MergeSucceedsIff(notes: map<string, Note>, es: seq<Json>, local: set<string>,
                         now: Timestamp, itemIds: nat -> nat -> string, md5: Fingerprint -> string)
    ensures Merge(notes, es, local, now, itemIds, md5).fault.None?
        <==> forall k :: 0 <= k < |es| ==> Download(es[k], k, local, now, itemIds, md5).Ok?
    ensures Merge(notes, es, local, now, itemIds, md5).downloaded <= |es|
  {
    var oks := seq(|es|, k requires 0 <= k < |es| => Download(es[k], k, local, now, itemIds, md5).Ok?);
    forall k | 0 <= k < |es| ensures StepFaultsIff(MergeStepOf(local, now, itemIds, md5), oks[k], es[k], k) {
      MergeStepFaults(es[k], k, local, now, itemIds, md5);
    }
    OverSucceedsIff(Merged(notes, 0, None), es, MergeStepOf(local, now, itemIds, md5), oks);
  }

  /** Whatever came before, `step` on the `k`-th record ends the loop unless it had not ended and `ok` holds. */
  ghost predicate StepFaultsIff(step: (Merged, Json, nat) -> Merged, ok: bool, e: Json, k: nat) {
    forall m: Merged {:trigger step(m, e, k)} ::
      (step(m, e, k).fault.None? <==> m.fault.None? && ok) && step(m, e, k).downloaded <= m.downloaded + 1
  }

  /** A loop whose steps each fail exactly when their record is bad succeeds exactly when no record is bad. */
  lemma {:induction false} OverSucceedsIff(init: Merged, es: seq<Json>, step: (Merged, Json, nat) -> Merged, oks: seq<bool>)
    requires |oks| == |es| && init.fault.None?
    requires forall k :: 0 <= k < |es| ==> StepFaultsIff(step, oks[k], es[k], k)
    ensures MergeOver(init, es, step).fault.None? <==> forall k :: 0 <= k < |es| ==> oks[k]
    ensures MergeOver(init, es, step).downloaded <= init.downloaded + |es|
    decreases |es|
  {
    if es != [] {
      var n := |es| - 1;
      var p := MergeOver(init, es[..n], step);
      assert forall k :: 0 <= k < n ==> es[..n][k] == es[k];
      OverSucceedsIff(init, es[..n], step, oks[..n]);
      assert StepFaultsIff(step, oks[n], es[n], n);
      assert MergeOver(init, es, step) == step(p, es[n], n);
    }
  }

  lemma MergeStepFaults(e: Json, k: nat, local: set<string>, now: Timestamp,
                        itemIds: nat -> nat -> string, md5: Fingerprint -> string)
    ensures StepFaultsIff(MergeStepOf(local, now, itemIds, md5), Download(e, k, local, now, itemIds, md5).Ok?, e, k)
  {
    forall m: Merged
      ensures var r := MergeStep(m, e, k, local, now, itemIds, md5);
        && (r.fault.None? <==> m.fault.None? && Download(e, k, local, now, itemIds, md5).Ok?)
        && r.downloaded <= m.downloaded + 1
    {
      MergeStepFault(m, e, k, local, now, itemIds, md5);
    }
  }

  /** A step ends the loop when the loop had ended or its record cannot be read, and downloads at most one note. */
  lemma MergeStepFault(m: Merged, e: Json, k: nat, local: set<string>, now: Timestamp,
                       itemIds: nat -> nat -> string, md5: Fingerprint -> string)
    ensures var r := MergeStep(m, e, k, local, now, itemIds, md5);
      && (r.fault.None? <==> m.fault.None? && Download(e, k, local, now, itemIds, md5).Ok?)
      && r.downloaded <= m.downloaded + 1
  {
  }

  /**
   * Local notes win: a note whose id is among `local` is never replaced, and
   * no note is removed.
   */
  lemma {:induction false} MergeKeepsLocal(notes: map<string, Note>, es: seq<Json>, local: set<string>,
                                           now: Timestamp, itemIds: nat -> nat -> string, md5: Fingerprint -> string)
    ensures var m := Merge(notes, es, local, now, itemIds, md5);
      && notes.Keys <= m.notes.Keys
      && forall id :: id in notes && id in local ==> m.notes[id] == notes[id]
    decreases |es|
  {
    if es != [] {
      MergeKeepsLocal(notes, es[..|es| - 1], local, now, itemIds, md5);
    }
  }

  /**
   * A record that is downloaded and not followed by another record with the
   * same id is what the store holds under that id after a fault-free merge.
   */
  lemma MergeLastRecordWins(notes: map<string, Note>, es: seq<Json>, i: nat, n: Note,
                             local: set<string>, now: Timestamp, itemIds: nat -> nat -> string,
                             md5: Fingerprint -> string)
    requires i < |es| && Download(es[i], i, local, now, itemIds, md5) == Ok(Some(n))
    requires forall j :: i < j < |es| ==> es[j].JObj? ==> "id" in es[j].fields ==> es[j].fields["id"] != JStr(n.id)
    requires Merge(notes, es, local, now, itemIds, md5).fault.None?
    ensures var m := Merge(notes, es, local, now, itemIds, md5);
      n.id in m.notes && m.notes[n.id] == Saved(n, now, md5)
  {
    var step := MergeStepOf(local, now, itemIds, md5);
    MergeStepSaves(es[i], i, n, local, now, itemIds, md5);
    forall j | i < j < |es| ensures StepKeeps(step, es[j], j, n.id) {
      MergeStepKeeps(es[j], j, local, now, itemIds, md5, n.id);
    }
    forall j | 0 <= j < |es| ensures StepSticks(step, es[j], j) {
      MergeStepSticks(es[j], j, local, now, itemIds, md5);
    }
    OverLastWins(Merged(notes, 0, None), es, i, step, n.id, Saved(n, now, md5));
  }

  /** Whatever came before, a fault-free `step` on the `k`-th record leaves `v` under `id`. */
  ghost predicate StepSaves(step: (Merged, Json, nat) -> Merged, e: Json, k: nat, id: string, v: Note) {
    forall m: Merged {:trigger step(m, e, k)} ::
      m.fault.None? && step(m, e, k).fault.None? ==> id in step(m, e, k).notes && step(m, e, k).notes[id] == v
  }

  /** Whatever came before, a fault-free `step` on the `k`-th record leaves what is under `id`. */
  ghost predicate StepKeeps(step: (Merged, Json, nat) -> Merged, e: Json, k: nat, id: string) {
    forall m: Merged {:trigger step(m, e, k)} ::
      m.fault.None? && id in m.notes && step(m, e, k).fault.None? ==>
        id in step(m, e, k).notes && step(m, e, k).notes[id] == m.notes[id]
  }

  /** Once the loop has ended, `step` on the `k`-th record does not resume it. */
  ghost predicate StepSticks(step: (Merged, Json, nat) -> Merged, e: Json, k: nat) {
    forall m: Merged {:trigger step(m, e, k)} :: m.fault.Some? ==> step(m, e, k).fault.Some?
  }

  /** In a fault-free loop, the value saved by the last step that touches `id` is what stays under it. */
  lemma {:induction false} OverLastWins(init: Merged, es: seq<Json>, i: nat, step: (Merged, Json, nat) -> Merged,
                                        id: string, v: Note)
    requires i < |es| && StepSaves(step, es[i], i, id, v)
    requires forall j :: i < j < |es| ==> StepKeeps(step, es[j], j, id)
    requires forall j :: 0 <= j < |es| ==> StepSticks(step, es[j], j)
    requires MergeOver(init, es, step).fault.None?
    ensures id in MergeOver(init, es, step).notes && MergeOver(init, es, step).notes[id] == v
    decreases |es|
  {
    var k := |es| - 1;
    var p := MergeOver(init, es[..k], step);
    assert MergeOver(init, es, step) == step(p, es[k], k);
    assert StepSticks(step, es[k], k);
    assert p.fault.None?;
    if i < k {
      assert forall j :: 0 <= j < k ==> es[..k][j] == es[j];
      OverLastWins(init, es[..k], i, step, id, v);
      assert StepKeeps(step, es[k], k, id);
    }
  }

  lemma MergeStepSaves(e: Json, k: nat, n: Note, local: set<string>, now: Timestamp,
                       itemIds: nat -> nat -> string, md5: Fingerprint -> string)
    requires Download(e, k, local, now, itemIds, md5) == Ok(Some(n))
    ensures StepSaves(MergeStepOf(local, now, itemIds, md5), e, k, n.id, Saved(n, now, md5))
  {
    forall m: Merged | m.fault.None?
      ensures MergeStep(m, e, k, local, now, itemIds, md5).notes == m.notes[n.id := Saved(n, now, md5)]
    {
      MergeStepNotes(m, e, k, local, now, itemIds, md5);
    }
  }

  lemma MergeStepKeeps(e: Json, k: nat, local: set<string>, now: Timestamp,
                       itemIds: nat -> nat -> string, md5: Fingerprint -> string, id: string)
    requires e.JObj? ==> "id" in e.fields ==> e.fields["id"] != JStr(id)
    ensures StepKeeps(MergeStepOf(local, now, itemIds, md5), e, k, id)
  {
    forall m: Merged | m.fault.None? && id in m.notes
      ensures var r := MergeStep(m, e, k, local, now, itemIds, md5); id in r.notes && r.notes[id] == m.notes[id]
    {
      MergeStepKeepsOther(m, e, k, local, now, itemIds, md5, id);
    }
  }

  lemma MergeStepSticks(e: Json, k: nat, local: set<string>, now: Timestamp,
                        itemIds: nat -> nat -> string, md5: Fingerprint -> string)
    ensures StepSticks(MergeStepOf(local, now, itemIds, md5), e, k)
  {
    forall m: Merged | m.fault.Some? ensures MergeStep(m, e, k, local, now, itemIds, md5).fault.Some? {
    }
  }

  /** A fault-free step on a record with another id leaves what the store holds under `id`. */
  lemma MergeStepKeepsOther(m: Merged, e: Json, k: nat, local: set<string>, now: Timestamp,
                            itemIds: nat -> nat -> string, md5: Fingerprint -> string, id: string)
    requires m.fault.None? && id in m.notes
    requires e.JObj? ==> "id" in e.fields ==> e.fields["id"] != JStr(id)
    ensures var r := MergeStep(m, e, k, local, now, itemIds, md5);
      id in r.notes && r.notes[id] == m.notes[id]
  {
    MergeStepNotes(m, e, k, local, now, itemIds, md5);
  }

  // ---------------------------------------------------------------------------
  // The Drive backup file
  // ---------------------------------------------------------------------------

  function NotesJson(rows: seq<Note>): (r: seq<Json>)
    ensures |r| == |rows| && forall i :: 0 <= i < |rows| ==> r[i] == JObj(NoteToDict(rows[i]))
  {
    seq(|rows|, i requires 0 <= i < |rows| => JObj(NoteToDict(rows[i])))
  }

  function LabelsJson(tags: seq<Label>): (r: seq<Json>)
    ensures |r| == |tags| && forall i :: 0 <= i < |tags| ==> r[i] == JObj(LabelToDict(tags[i]))
  {
    seq(|tags|, i requires 0 <= i < |tags| => JObj(LabelToDict(tags[i])))
  }

  /** `local_data`: the version, the time of the sync, and the notes and labels as dicts. */
  function BackupFile(rows: seq<Note>, tags: seq<Label>, now: Timestamp): Json {
    JObj(map["version" := JInt(DbVersion), "synced_at" := JTime(now),
             "notes" := JArr(NotesJson(rows)), "labels" := JArr(LabelsJson(tags))])
  }

  /**
   * `remote_data.get("notes", [])` and the values a `for` loop visits in it:
   * the items of a list; nothing for an empty string or dict. A non-empty
   * string or dict yields strings, which the loop body cannot read by key.
   */
  function NotesEntries(data: Json): (r: Result<seq<Json>, Fault>)
    ensures data.JObj? && "notes" !in data.fields ==> r == Ok([])
    ensures data.JObj? && "notes" in data.fields && data.fields["notes"].JArr? ==> r == Ok(data.fields["notes"].items)
    ensures !data.JObj? ==> r == Err(NotAnObject)
  {
    match data
    case JObj(d) =>
      if "notes" !in d then Ok([])
      else
        (match d["notes"]
         case JArr(a) => Ok(a)
         case JStr(s) => if s == "" then Ok([]) else Err(NotAnObject)
         case JObj(m) => if m == map[] then Ok([]) else Err(NotAnObject)
         case JTime(_) => Err(NotAnObject)
         case _ => Err(NotIterable))
    case _ => Err(NotAnObject)
  }

  /** Each record of a backup decodes back to the note it was written from. */
  lemma BackupRecordsDecode(rows: seq<Note>, tags: seq<Label>, now: Timestamp, i: nat,
                            ids: nat -> string, t: Timestamp, md5: Fingerprint -> string)
    requires i < |rows| && HashCurrent(rows[i], md5)
    ensures NotesEntries(BackupFile(rows, tags, now)) == Ok(NotesJson(rows))
    ensures NoteFromDict(NotesJson(rows)[i].fields, ids, t, md5) == Ok(rows[i])
  {
    NoteRoundTrip(rows[i], ids, t, md5);
  }

  /**
   * Merging the backup of a store's own rows into that store skips every
   * record: the second of two syncs in a row downloads nothing.
   */
  lemma {:induction false} MergeOwnRowsIsNoop(rows: seq<Note>, notes: map<string, Note>, now: Timestamp,
                                              itemIds: nat -> nat -> string, md5: Fingerprint -> string)
    requires forall i :: 0 <= i < |rows| ==> rows[i].id in notes && notes[rows[i].id] == rows[i] && InBackup(rows[i])
    ensures Merge(notes, NotesJson(rows), LocalIds(notes), now, itemIds, md5) == Merged(notes, 0, None)
    decreases |rows|
  {
    if rows != [] {
      var k := |rows| - 1;
      var es := NotesJson(rows);
      var local := LocalIds(notes);
      assert es[..k] == NotesJson(rows[..k]);
      MergeOwnRowsIsNoop(rows[..k], notes, now, itemIds, md5);
      assert rows[k].id in local;
      OwnRecordIsSkipped(rows[k], k, local, now, itemIds, md5);
      assert Merge(notes, es, local, now, itemIds, md5)
          == MergeStep(Merge(notes, es[..k], local, now, itemIds, md5), es[k], k, local, now, itemIds, md5);
    }
  }

  /** The record of a note whose id is local is skipped. */
  lemma OwnRecordIsSkipped(n: Note, k: nat, local: set<string>, now: Timestamp,
                           itemIds: nat -> nat -> string, md5: Fingerprint -> string)
    requires n.id in local
    ensures Download(JObj(NoteToDict(n)), k, local, now, itemIds, md5) == Ok(None)
  {
    ContentEntries(n);
  }

  // ---------------------------------------------------------------------------
  // Google Drive
  // ---------------------------------------------------------------------------

  /**
   * What one Drive sync takes from outside: the clock, the uuids `from_dict`
   * draws, whether listing or downloading the backup file raised, whether
   * uploading it raised, and the text of a fault.
   */
  datatype DriveEnv = DriveEnv(
    now: Timestamp,
    itemIds: nat -> nat -> string,
    fetchFailure: Option<string>,
    uploadFailure: Option<string>,
    explain: Fault -> string)

  /** The provider, the store and the backup file in the app's Drive folder. */
  datatype DriveState = DriveState(
    connected: bool,
    notes: map<string, Note>,
    labels: map<string, Label>,
    settings: map<string, SettingValue>,
    file: Option<Json>,
    lastSync: Option<Timestamp>)

  /** The orders `sync` read rows in: the notes it uploads and the labels. */
  datatype DriveTrace = DriveTrace(rows: seq<Note>, tags: seq<Label>)

  /** The merge step of a Drive sync; no file means nothing to merge. */
  function DriveMerge(b: DriveState, env: DriveEnv, md5: Fingerprint -> string): Merged {
    match b.file
    case None => Merged(b.notes, 0, None)
    case Some(data) =>
      (match NotesEntries(data)
       case Err(f) => Merged(b.notes, 0, Some(f))
       case Ok(es) => Merge(b.notes, es, LocalIds(b.notes), env.now, env.itemIds, md5))
  }

  /** The trace is what the queries after the merge may return. */
  ghost predicate DriveTraceFits(b: DriveState, t: DriveTrace, env: DriveEnv, md5: Fingerprint -> string) {
    var m := DriveMerge(b, env, md5);
    RowsOf(t.rows, m.notes, InBackup) && Sorting.SortedBy(t.rows, ListedBefore) && LabelRows(t.tags, b.labels)
  }

  /**
   * `GoogleDriveSync.sync`: refused when not connected; otherwise the backup
   * is merged into the store and, when that and the upload succeed, replaced
   * by a backup of the store as it is now, and the time is recorded.
   */
  function DriveRun(b: DriveState, t: DriveTrace, env: DriveEnv, md5: Fingerprint -> string): (DriveState, Outcome) {
    if !b.connected then (b, Outcome(false, "Not connected to Google Drive", NoCounts))
    else if env.fetchFailure.Some? then (b, Failed(Raised(env.fetchFailure.value), env.explain, Counts(0, 0, 0)))
    else
      DriveUpload(b.(notes := DriveMerge(b, env, md5).notes), DriveMerge(b, env, md5), t, env)
  }

  /** The part of a Drive sync after the merge, which left the store `a` and ended as `m`. */
  function DriveUpload(a: DriveState, m: Merged, t: DriveTrace, env: DriveEnv): (DriveState, Outcome) {
    if m.fault.Some? then (a, Failed(m.fault.value, env.explain, Counts(0, m.downloaded, 0)))
    else if env.uploadFailure.Some? then (a, Failed(Raised(env.uploadFailure.value), env.explain, Counts(0, m.downloaded, 0)))
    else
      (a.(file := Some(BackupFile(t.rows, t.tags, env.now)), lastSync := Some(env.now),
          settings := a.settings["gdrive_last_sync" := SettingTime(env.now)]),
       Outcome(true, "Sync completed", Counts(|t.rows|, m.downloaded, 0)))
  }

  /** Past its guards, a Drive sync is the upload step applied to what the merge left. */
  lemma DriveRunAfterMerge(b: DriveState, t: DriveTrace, env: DriveEnv, md5: Fingerprint -> string, m: Merged)
    requires b.connected && env.fetchFailure.None? && DriveMerge(b, env, md5) == m
    ensures DriveRun(b, t, env, md5) == DriveUpload(b.(notes := m.notes), m, t, env)
  {
  }

  /** A successful Drive sync merged without a fault and wrote the backup of the merged store. */
  lemma DriveSuccess(b: DriveState, t: DriveTrace, env: DriveEnv, md5: Fingerprint -> string)
    requires DriveRun(b, t, env, md5).1.success
    ensures var m := DriveMerge(b, env, md5);
      && b.connected && env.fetchFailure.None? && env.uploadFailure.None? && m.fault.None?
      && DriveRun(b, t, env, md5).0
         == b.(notes := m.notes, file := Some(BackupFile(t.rows, t.tags, env.now)), lastSync := Some(env.now),
               settings := b.settings["gdrive_last_sync" := SettingTime(env.now)])
  {
  }

  /**
   * The records written from the rows of the backup query decode back to the
   * stored notes, and every untrashed note is among those rows.
   */
  lemma RowRecordsDecode(rows: seq<Note>, notes: map<string, Note>, ids: nat -> string, when: Timestamp,
                         md5: Fingerprint -> string)
    requires NotesWellFormed(notes, md5) && RowsOf(rows, notes, InBackup)
    ensures forall i :: 0 <= i < |rows| ==>
      rows[i].id in notes && NoteFromDict(NoteToDict(rows[i]), ids, when, md5) == Ok(notes[rows[i].id])
    ensures forall id :: id in LocalIds(notes) ==> exists i :: 0 <= i < |rows| && rows[i] == notes[id]
  {
    forall i | 0 <= i < |rows|
      ensures rows[i].id in notes && NoteFromDict(NoteToDict(rows[i]), ids, when, md5) == Ok(notes[rows[i].id])
    {
      NoteRoundTrip(rows[i], ids, when, md5);
    }
    forall id | id in LocalIds(notes) ensures exists i :: 0 <= i < |rows| && rows[i] == notes[id] {
      assert InBackup(notes[id]);
      assert notes[id] in rows;
    }
  }

  /**
   * After a successful Drive sync the backup file holds exactly the store's
   * untrashed notes, each decoding back to the stored note, and no local
   * untrashed note was replaced by the merge.
   */
  lemma DriveSyncBacksUpStore(b: DriveState, t: DriveTrace, env: DriveEnv, md5: Fingerprint -> string,
                              ids: nat -> string, when: Timestamp)
    requires NotesWellFormed(b.notes, md5) && DriveTraceFits(b, t, env, md5)
    requires DriveRun(b, t, env, md5).1.success
    ensures var a := DriveRun(b, t, env, md5).0;
      && a.file == Some(BackupFile(t.rows, t.tags, env.now))
      && NotesEntries(a.file.value) == Ok(NotesJson(t.rows))
      && (forall i :: 0 <= i < |t.rows| ==>
            t.rows[i].id in a.notes && NoteFromDict(NoteToDict(t.rows[i]), ids, when, md5) == Ok(a.notes[t.rows[i].id]))
      && (forall id :: id in LocalIds(a.notes) ==> exists i :: 0 <= i < |t.rows| && t.rows[i] == a.notes[id])
      && (forall id :: id in LocalIds(b.notes) ==> id in a.notes && a.notes[id] == b.notes[id])
  {
    DriveSuccess(b, t, env, md5);
    DriveMergeKeepsLocal(b, env, md5);
    MergeKeepsWellFormed(b, env, md5);
    RowRecordsDecode(t.rows, DriveMerge(b, env, md5).notes, ids, when, md5);
  }

  /** The Drive merge keeps every note and replaces no untrashed one. */
  lemma DriveMergeKeepsLocal(b: DriveState, env: DriveEnv, md5: Fingerprint -> string)
    ensures var m := DriveMerge(b, env, md5);
      forall id :: id in LocalIds(b.notes) ==> id in m.notes && m.notes[id] == b.notes[id]
  {
    if b.file.Some? && NotesEntries(b.file.value).Ok? {
      MergeKeepsLocal(b.notes, NotesEntries(b.file.value).value, LocalIds(b.notes), env.now, env.itemIds, md5);
    }
  }

  /** Saving decoded notes keeps every stored hash current. */
  lemma MergeKeepsWellFormed(b: DriveState, env: DriveEnv, md5: Fingerprint -> string)
    requires NotesWellFormed(b.notes, md5)
    ensures NotesWellFormed(DriveMerge(b, env, md5).notes, md5)
  {
    if b.file.Some? && NotesEntries(b.file.value).Ok? {
      MergeWellFormed(b.notes, NotesEntries(b.file.value).value, LocalIds(b.notes), env.now, env.itemIds, md5);
    }
  }

  lemma {:induction false} MergeWellFormed(notes: map<string, Note>, es: seq<Json>, local: set<string>,
                                           now: Timestamp, itemIds: nat -> nat -> string, md5: Fingerprint -> string)
    requires NotesWellFormed(notes, md5)
    ensures NotesWellFormed(Merge(notes, es, local, now, itemIds, md5).notes, md5)
    decreases |es|
  {
    if es != [] {
      MergeWellFormed(notes, es[..|es| - 1], local, now, itemIds, md5);
    }
  }

  /**
   * Two Drive syncs in a row: the second merge skips every record of the
   * backup the first one wrote, so it downloads nothing and changes no note.
   */
  lemma DriveSyncIsIdempotent(b: DriveState, t: DriveTrace, env: DriveEnv, env2: DriveEnv, md5: Fingerprint -> string)
    requires DriveTraceFits(b, t, env, md5) && DriveRun(b, t, env, md5).1.success
    ensures var a := DriveRun(b, t, env, md5).0;
      DriveMerge(a, env2, md5) == Merged(a.notes, 0, None)
  {
    DriveSuccess(b, t, env, md5);
    var m := DriveMerge(b, env, md5);
    MergeOwnRowsIsNoop(t.rows, m.notes, env2.now, env2.itemIds, md5);
  }

  // ---------------------------------------------------------------------------
  // GitHub
  // ---------------------------------------------------------------------------

  /** One entry of `remote_notes`: the id a note file holds and the file's content. */
  datatype IndexEntry = IndexEntry(id: Json, data: map<string, Json>)

  /** The keys of `remote_notes`, in the dict's order. */
  function IndexIds(idx: seq<IndexEntry>): (r: seq<Json>)
    ensures |r| == |idx| && forall i :: 0 <= i < |idx| ==> r[i] == idx[i].id
  {
    seq(|idx|, i requires 0 <= i < |idx| => idx[i].id)
  }

  /** `remote_notes.get(id)`. */
  function Lookup(idx: seq<IndexEntry>, id: Json): (r: Option<map<string, Json>>)
    ensures r.None? <==> id !in IndexIds(idx)
    decreases |idx|
  {
    if idx == [] then None
    else if idx[0].id == id then Some(idx[0].data)
    else
      assert forall j :: 0 <= j < |idx| - 1 ==> IndexIds(idx[1..])[j] == IndexIds(idx)[j + 1];
      Lookup(idx[1..], id)
  }

  /** `remote_notes[id] = value`, on the dict as a sequence of entries in insertion order. */
  function Upsert(idx: seq<IndexEntry>, e: IndexEntry): seq<IndexEntry>
    decreases |idx|
  {
    if idx == [] then [e]
    else if idx[0].id == e.id then [e] + idx[1..]
    else [idx[0]] + Upsert(idx[1..], e)
  }

  /**
   * After `remote_notes[id] = value` the id looks up the new value and every
   * other id what it did before; a key already present keeps its place, a
   * new key goes to the end.
   */
  lemma UpsertSpec(idx: seq<IndexEntry>, e: IndexEntry)
    ensures Lookup(Upsert(idx, e), e.id) == Some(e.data)
    ensures forall k :: k != e.id ==> Lookup(Upsert(idx, e), k) == Lookup(idx, k)
    ensures IndexIds(Upsert(idx, e)) == if e.id in IndexIds(idx) then IndexIds(idx) else IndexIds(idx) + [e.id]
  {
    UpsertLookup(idx, e);
    UpsertOrder(idx, e);
  }

  lemma {:induction false} UpsertLookup(idx: seq<IndexEntry>, e: IndexEntry)
    ensures forall k :: Lookup(Upsert(idx, e), k) == if k == e.id then Some(e.data) else Lookup(idx, k)
    decreases |idx|
  {
    if idx == [] {
      IndexCons(e, []);
    } else if idx[0].id == e.id {
      IndexCons(idx[0], idx[1..]);
      IndexCons(e, idx[1..]);
    } else {
      UpsertLookup(idx[1..], e);
      IndexCons(idx[0], idx[1..]);
      IndexCons(idx[0], Upsert(idx[1..], e));
      assert idx == [idx[0]] + idx[1..];
    }
  }

  lemma {:induction false} UpsertOrder(idx: seq<IndexEntry>, e: IndexEntry)
    ensures IndexIds(Upsert(idx, e)) == if e.id in IndexIds(idx) then IndexIds(idx) else IndexIds(idx) + [e.id]
    decreases |idx|
  {
    if idx == [] {
      IndexCons(e, []);
      assert IndexIds([]) == [];
    } else if idx[0].id == e.id {
      IndexCons(idx[0], idx[1..]);
      IndexCons(e, idx[1..]);
      assert idx == [idx[0]] + idx[1..];
      assert IndexIds(idx)[0] == e.id;
    } else {
      UpsertOrder(idx[1..], e);
      IndexCons(idx[0], idx[1..]);
      IndexCons(idx[0], Upsert(idx[1..], e));
      assert idx == [idx[0]] + idx[1..];
      assert e.id in IndexIds(idx) <==> e.id in IndexIds(idx[1..]);
    }
  }

  /** The index with entry `x` in front. */
  lemma IndexCons(x: IndexEntry, rest: seq<IndexEntry>)
    ensures IndexIds([x] + rest) == [x.id] + IndexIds(rest)
    ensures forall k :: Lookup([x] + rest, k) == if x.id == k then Some(x.data) else Lookup(rest, k)
  {
    assert ([x] + rest)[1..] == rest;
  }

  /** `content.name.endswith('.json')`. */
  predicate IsJsonName(name: string) {
    |name| >= 5 && name[|name| - 5..] == ".json"
  }

  /** The file a note is uploaded to, inside the notes directory. */
  function NoteFileName(id: string): string {
    id + ".json"
  }

  lemma NoteFileNameInjective(a: string, b: string)
    ensures NoteFileName(a) == NoteFileName(b) ==> a == b
    ensures IsJsonName(NoteFileName(a))
  {
    if NoteFileName(a) == NoteFileName(b) {
      assert a == NoteFileName(a)[..|a|];
      assert b == NoteFileName(b)[..|b|];
    }
    assert NoteFileName(a)[|NoteFileName(a)| - 5..] == ".json";
  }

  /**
   * The loop that builds `remote_notes` from the notes directory, visiting
   * files in the order `listing`: `.json` files only, each holding a dict with
   * an `id`; the first file that does not aborts the sync.
   */
  function BuildIndex(files: map<string, Json>, listing: seq<string>): (r: Result<seq<IndexEntry>, Fault>)
    decreases |listing|
  {
    if listing == [] then Ok([])
    else
      var idx :- BuildIndex(files, listing[..|listing| - 1]);
      var name := listing[|listing| - 1];
      if !IsJsonName(name) || name !in files then Ok(idx)
      else
        match files[name]
        case JObj(d) =>
          if "id" !in d then Err(Malformed(MissingKey("id")))
          else if d["id"].JArr? || d["id"].JObj? then Err(Unhashable)
          else Ok(Upsert(idx, IndexEntry(d["id"], d)))
        case _ => Err(NotAnObject)
  }

  /** A file in the listing whose id no later `.json` file in the listing repeats. */
  ghost predicate LastFileWithId(files: map<string, Json>, listing: seq<string>, i: nat, d: map<string, Json>) {
    && i < |listing| && IsJsonName(listing[i]) && listing[i] in files && files[listing[i]] == JObj(d) && "id" in d
    && forall j :: i < j < |listing| && IsJsonName(listing[j]) && listing[j] in files ==>
         files[listing[j]].JObj? ==> "id" in files[listing[j]].fields ==> files[listing[j]].fields["id"] != d["id"]
  }

  /** The index holds, under each id, the last listed file that carries it. */
  lemma {:induction false} IndexLastFileWins(files: map<string, Json>, listing: seq<string>, i: nat, d: map<string, Json>)
    requires LastFileWithId(files, listing, i, d) && BuildIndex(files, listing).Ok?
    ensures Lookup(BuildIndex(files, listing).value, d["id"]) == Some(d)
    decreases |listing|
  {
    var k := |listing| - 1;
    var pre := listing[..k];
    var name := listing[k];
    IndexLastStepLookup(files, listing, d["id"]);
    if i < k {
      assert pre[i] == listing[i];
      forall j | i < j < |pre| && IsJsonName(pre[j]) && pre[j] in files
        ensures files[pre[j]].JObj? ==> "id" in files[pre[j]].fields ==> files[pre[j]].fields["id"] != d["id"]
      {
        assert pre[j] == listing[j];
      }
      IndexLastFileWins(files, pre, i, d);
      assert !(IsJsonName(name) && name in files && files[name].JObj? && "id" in files[name].fields
               && files[name].fields["id"] == d["id"]);
    }
  }

  /**
   * The last file of the listing changes the lookup of `id` only when it is a
   * `.json` dict whose `id` is `id`, and then to that dict.
   */
  lemma IndexLastStepLookup(files: map<string, Json>, listing: seq<string>, id: Json)
    requires listing != [] && BuildIndex(files, listing).Ok?
    ensures var pre := BuildIndex(files, listing[..|listing| - 1]);
      var name := listing[|listing| - 1];
      && pre.Ok?
      && if IsJsonName(name) && name in files && files[name].JObj? && "id" in files[name].fields
              && files[name].fields["id"] == id
         then Lookup(BuildIndex(files, listing).value, id) == Some(files[name].fields)
         else Lookup(BuildIndex(files, listing).value, id) == Lookup(pre.value, id)
  {
    var idx := BuildIndex(files, listing[..|listing| - 1]).value;
    var name := listing[|listing| - 1];
    if IsJsonName(name) && name in files && files[name].JObj? && "id" in files[name].fields {
      var f := files[name].fields;
      UpsertSpec(idx, IndexEntry(f["id"], f));
    }
  }

  /** Once a file has aborted the loop, the files after it change nothing. */
  lemma {:induction false} IndexFaultSticks(files: map<string, Json>, listing: seq<string>, i: nat)
    requires i <= |listing| && BuildIndex(files, listing[..i]).Err?
    ensures BuildIndex(files, listing) == BuildIndex(files, listing[..i])
    decreases |listing| - i
  {
    if i < |listing| {
      assert listing[..i + 1][..i] == listing[..i];
      IndexFaultSticks(files, listing, i + 1);
    } else {
      assert listing[..i] == listing;
    }
  }

  /** The index entries as the download loop visits them. */
  function EntriesOf(idx: seq<IndexEntry>): (r: seq<Json>)
    ensures |r| == |idx| && forall i :: 0 <= i < |idx| ==> r[i] == JObj(idx[i].data)
  {
    seq(|idx|, i requires 0 <= i < |idx| => JObj(idx[i].data))
  }

  /** How the GitHub call writing one note file fails: a 409 conflict, or any other error. */
  datatype WriteFault = Conflict409 | WriteFailed(message: string)

  /**
   * What one GitHub sync takes from outside: the clock, the uuids `from_dict`
   * draws, whether listing the notes directory raised (other than 404), the
   * note files whose write fails, whether writing the labels or metadata file
   * fails, how the ISO text of an instant compares with a foreign string, and
   * the text of a fault.
   */
  datatype GitHubEnv = GitHubEnv(
    now: Timestamp,
    itemIds: nat -> nat -> string,
    listFailure: Option<string>,
    writeFaults: map<string, WriteFault>,
    labelsFailure: Option<string>,
    metadataFailure: Option<string>,
    isoAbove: (Timestamp, string) -> bool,
    explain: Fault -> string)

  /**
   * `note.updated_at.isoformat() > remote_data.get('updated_at', '')`: a
   * missing value is the empty string, below every timestamp; a value that
   * is not a string cannot be compared.
   */
  function LocalIsNewer(n: Note, data: map<string, Json>, isoAbove: (Timestamp, string) -> bool): (r: Result<bool, Fault>)
    ensures "updated_at" !in data ==> r == Ok(true)
    ensures "updated_at" in data && data["updated_at"].JTime? ==> r == Ok(n.updatedAt > data["updated_at"].instant)
  {
    if "updated_at" !in data then Ok(true)
    else
      match data["updated_at"]
      case JTime(u) => Ok(n.updatedAt > u)
      case JStr(s) => Ok(isoAbove(n.updatedAt, s))
      case _ => Err(Incomparable)
  }

  /** A file written from a note is replaced only by a strictly newer version of it. */
  lemma NewerThanOwnCopy(n: Note, m: Note, isoAbove: (Timestamp, string) -> bool)
    ensures LocalIsNewer(n, NoteToDict(m), isoAbove) == Ok(n.updatedAt > m.updatedAt)
    ensures LocalIsNewer(m, NoteToDict(m), isoAbove) == Ok(false)
  {
    TimeEntries(m);
  }

  /** The note files, the `uploaded` and `conflicts` counters, and the fault that ended the loop. */
  datatype Uploaded = Uploaded(files: map<string, Json>, uploaded: nat, conflicts: nat, fault: Option<Fault>)

  /** Whether the upload loop writes note `n`: it is not in the repository, or it is newer there. */
  predicate Wants(n: Note, idx: seq<IndexEntry>, isoAbove: (Timestamp, string) -> bool) {
    match Lookup(idx, JStr(n.id))
    case None => true
    case Some(data) => LocalIsNewer(n, data, isoAbove) == Ok(true)
  }

  /** `create_file`/`update_file` of the note's file: a 409 is counted, any other failure raises. */
  function Write(u: Uploaded, n: Note, faults: map<string, WriteFault>): Uploaded {
    if n.id in faults then
      (match faults[n.id]
       case Conflict409 => u.(conflicts := u.conflicts + 1)
       case WriteFailed(msg) => u.(fault := Some(Raised(msg))))
    else u.(files := u.files[NoteFileName(n.id) := JObj(NoteToDict(n))], uploaded := u.uploaded + 1)
  }

  function UploadStep(u: Uploaded, n: Note, idx: seq<IndexEntry>, env: GitHubEnv): Uploaded {
    if u.fault.Some? then u
    else
      match Lookup(idx, JStr(n.id))
      case None => Write(u, n, env.writeFaults)
      case Some(data) =>
        match LocalIsNewer(n, data, env.isoAbove)
        case Err(f) => u.(fault := Some(f))
        case Ok(newer) => if newer then Write(u, n, env.writeFaults) else u
  }

  /** The upload loop over the local notes `rows`, against the index built before the download. */
  function Upload(files: map<string, Json>, rows: seq<Note>, idx: seq<IndexEntry>, env: GitHubEnv): Uploaded
  {
    UploadOver(Uploaded(files, 0, 0, None), rows, UploadStepOf(idx, env))
  }

  /** The upload step with the index and the outside world fixed for the whole loop. */
  function UploadStepOf(idx: seq<IndexEntry>, env: GitHubEnv): (Uploaded, Note) -> Uploaded {
    (u: Uploaded, n: Note) => UploadStep(u, n, idx, env)
  }

  /** A loop over `rows` that applies `step` to each row. */
  function UploadOver(u: Uploaded, rows: seq<Note>, step: (Uploaded, Note) -> Uploaded): Uploaded
    decreases |rows|
  {
    if rows == [] then u else step(UploadOver(u, rows[..|rows| - 1], step), rows[|rows| - 1])
  }

  /** One upload step changes at most the file of its own note. */
  lemma UploadStepFiles(u: Uploaded, n: Note, idx: seq<IndexEntry>, env: GitHubEnv)
    ensures var r := UploadStep(u, n, idx, env);
      && (forall name :: name != NoteFileName(n.id) ==> (name in r.files <==> name in u.files))
      && (forall name :: name != NoteFileName(n.id) && name in u.files ==> r.files[name] == u.files[name])
      && (r.fault.None? && Wants(n, idx, env.isoAbove) && n.id !in env.writeFaults ==>
            NoteFileName(n.id) in r.files && r.files[NoteFileName(n.id)] == JObj(NoteToDict(n)))
      && (!Wants(n, idx, env.isoAbove) || n.id in env.writeFaults ==> r.files == u.files)
      && r.uploaded + r.conflicts <= u.uploaded + u.conflicts + 1
  {
    if u.fault.None? {
      match Lookup(idx, JStr(n.id))
      case None =>
        WriteFiles(u, n, env.writeFaults);
      case Some(data) =>
        match LocalIsNewer(n, data, env.isoAbove)
        case Err(_) =>
        case Ok(newer) =>
          if newer {
            WriteFiles(u, n, env.writeFaults);
          }
    }
  }

  /** A write changes at most the note's own file, and counts at most one upload or conflict. */
  lemma WriteFiles(u: Uploaded, n: Note, faults: map<string, WriteFault>)
    ensures var r := Write(u, n, faults);
      && (forall name :: name != NoteFileName(n.id) ==> (name in r.files <==> name in u.files))
      && (forall name :: name != NoteFileName(n.id) && name in u.files ==> r.files[name] == u.files[name])
      && (n.id !in faults ==> r.fault == u.fault && NoteFileName(n.id) in r.files && r.files[NoteFileName(n.id)] == JObj(NoteToDict(n)))
      && (n.id in faults ==> r.files == u.files)
      && r.uploaded + r.conflicts <= u.uploaded + u.conflicts + 1
  {
  }

  /** Each note is counted at most once, as an upload or as a conflict. */
  lemma {:induction false} UploadCounts(files: map<string, Json>, rows: seq<Note>, idx: seq<IndexEntry>, env: GitHubEnv)
    ensures var u := Upload(files, rows, idx, env); u.uploaded + u.conflicts <= |rows|
    decreases |rows|
  {
    if rows != [] {
      UploadCounts(files, rows[..|rows| - 1], idx, env);
      UploadStepFiles(Upload(files, rows[..|rows| - 1], idx, env), rows[|rows| - 1], idx, env);
    }
  }

  /** Distinct notes are uploaded to distinct files. */
  lemma DistinctFileNames(rows: seq<Note>)
    requires forall i, j :: 0 <= i < j < |rows| ==> rows[i].id != rows[j].id
    ensures forall i, j :: 0 <= i < j < |rows| ==> NoteFileName(rows[i].id) != NoteFileName(rows[j].id)
  {
    forall i, j | 0 <= i < j < |rows| ensures NoteFileName(rows[i].id) != NoteFileName(rows[j].id) {
      NoteFileNameInjective(rows[i].id, rows[j].id);
    }
  }

  /** A file that is no listed note's is left as it was. */
  lemma {:induction false} UploadLeavesOtherFiles(files: map<string, Json>, rows: seq<Note>, idx: seq<IndexEntry>,
                                                  env: GitHubEnv, name: string)
    requires forall i :: 0 <= i < |rows| ==> name != NoteFileName(rows[i].id)
    ensures var u := Upload(files, rows, idx, env);
      (name in u.files <==> name in files) && (name in files ==> u.files[name] == files[name])
    decreases |rows|
  {
    if rows != [] {
      var k := |rows| - 1;
      assert forall i :: 0 <= i < k ==> rows[..k][i] == rows[i];
      UploadLeavesOtherFiles(files, rows[..k], idx, env, name);
      UploadStepFiles(Upload(files, rows[..k], idx, env), rows[k], idx, env);
    }
  }

  /** The file of a note the loop does not write, or may not write, is left as it was. */
  lemma UploadLeavesUnwanted(files: map<string, Json>, rows: seq<Note>, idx: seq<IndexEntry>, env: GitHubEnv, i: nat)
    requires forall i, j :: 0 <= i < j < |rows| ==> rows[i].id != rows[j].id
    requires i < |rows| && (!Wants(rows[i], idx, env.isoAbove) || rows[i].id in env.writeFaults)
    ensures var u := Upload(files, rows, idx, env); var name := NoteFileName(rows[i].id);
      (name in u.files <==> name in files) && (name in files ==> u.files[name] == files[name])
  {
    var name := NoteFileName(rows[i].id);
    var pre, post := rows[..i], rows[i + 1..];
    assert rows == pre + [rows[i]] + post;
    DistinctFileNames(rows);
    UploadLeavesOtherFiles(files, pre, idx, env, name);
    var p := Upload(files, pre, idx, env);
    UploadSnoc(files, pre, rows[i], idx, env);
    UploadStepFiles(p, rows[i], idx, env);
    UploadSplit(files, pre + [rows[i]], post, idx, env);
    var q := Upload(files, pre + [rows[i]], idx, env);
    UploadFromLeavesOther(q, post, idx, env, name);
  }

  /** The note file of a wanted note that may be written holds the note after a fault-free loop. */
  lemma UploadWritesWanted(files: map<string, Json>, rows: seq<Note>, idx: seq<IndexEntry>, env: GitHubEnv, i: nat)
    requires forall i, j :: 0 <= i < j < |rows| ==> rows[i].id != rows[j].id
    requires i < |rows| && Wants(rows[i], idx, env.isoAbove) && rows[i].id !in env.writeFaults
    requires Upload(files, rows, idx, env).fault.None?
    ensures var u := Upload(files, rows, idx, env); var name := NoteFileName(rows[i].id);
      name in u.files && u.files[name] == JObj(NoteToDict(rows[i]))
  {
    var name := NoteFileName(rows[i].id);
    var post := rows[i + 1..];
    var p := Upload(files, rows[..i], idx, env);
    var q := UploadStep(p, rows[i], idx, env);
    UploadAround(files, rows, i, idx, env);
    UploadFromFaultFree(q, post, idx, env);
    assert q.fault.None?;
    UploadStepFiles(p, rows[i], idx, env);
    assert name in q.files && q.files[name] == JObj(NoteToDict(rows[i]));
    DistinctFileNames(rows);
    forall k | 0 <= k < |post| ensures name != NoteFileName(post[k].id) {
      assert post[k] == rows[i + 1 + k];
    }
    UploadFromLeavesOther(q, post, idx, env, name);
  }

  /** The loop over `rows` is the loop up to row `i`, the step on it, and the loop on from there. */
  lemma UploadAround(files: map<string, Json>, rows: seq<Note>, i: nat, idx: seq<IndexEntry>, env: GitHubEnv)
    requires i < |rows|
    ensures Upload(files, rows, idx, env)
         == UploadFrom(UploadStep(Upload(files, rows[..i], idx, env), rows[i], idx, env), rows[i + 1..], idx, env)
  {
    var pre, post := rows[..i], rows[i + 1..];
    assert rows == (pre + [rows[i]]) + post;
    UploadSnoc(files, pre, rows[i], idx, env);
    UploadSplit(files, pre + [rows[i]], post, idx, env);
  }

  /** The upload loop continued from state `u`. */
  function UploadFrom(u: Uploaded, rows: seq<Note>, idx: seq<IndexEntry>, env: GitHubEnv): Uploaded
  {
    UploadOver(u, rows, UploadStepOf(idx, env))
  }

  lemma UploadSnoc(files: map<string, Json>, rows: seq<Note>, n: Note, idx: seq<IndexEntry>, env: GitHubEnv)
    ensures Upload(files, rows + [n], idx, env) == UploadStep(Upload(files, rows, idx, env), n, idx, env)
  {
    assert (rows + [n])[..|rows|] == rows;
  }

  /** Running the loop over `a + c` is running it over `a`, then on over `c`. */
  lemma {:induction false} UploadSplit(files: map<string, Json>, a: seq<Note>, c: seq<Note>, idx: seq<IndexEntry>, env: GitHubEnv)
    ensures Upload(files, a + c, idx, env) == UploadFrom(Upload(files, a, idx, env), c, idx, env)
    decreases |c|
  {
    if c == [] {
      assert a + c == a;
    } else {
      var k := |c| - 1;
      assert (a + c)[..|a + c| - 1] == a + c[..k];
      UploadSplit(files, a, c[..k], idx, env);
    }
  }

  /** Once a fault has ended the upload loop, the notes after it change nothing. */
  lemma UploadFaultSticks(files: map<string, Json>, rows: seq<Note>, i: nat, idx: seq<IndexEntry>, env: GitHubEnv)
    requires i <= |rows| && Upload(files, rows[..i], idx, env).fault.Some?
    ensures Upload(files, rows, idx, env) == Upload(files, rows[..i], idx, env)
  {
    assert rows == rows[..i] + rows[i..];
    UploadSplit(files, rows[..i], rows[i..], idx, env);
    UploadFromFaulted(Upload(files, rows[..i], idx, env), rows[i..], idx, env);
  }

  lemma {:induction false} UploadFromFaulted(u: Uploaded, rows: seq<Note>, idx: seq<IndexEntry>, env: GitHubEnv)
    requires u.fault.Some?
    ensures UploadFrom(u, rows, idx, env) == u
    decreases |rows|
  {
    if rows != [] {
      UploadFromFaulted(u, rows[..|rows| - 1], idx, env);
    }
  }

  /** A fault, once raised, stays. */
  lemma {:induction false} UploadFromFaultFree(u: Uploaded, rows: seq<Note>, idx: seq<IndexEntry>, env: GitHubEnv)
    ensures UploadFrom(u, rows, idx, env).fault.None? ==> u.fault.None?
    decreases |rows|
  {
    if rows != [] {
      UploadFromFaultFree(u, rows[..|rows| - 1], idx, env);
    }
  }

  /** Continuing the loop leaves alone a file that none of the remaining notes owns. */
  lemma {:induction false} UploadFromLeavesOther(u: Uploaded, rows: seq<Note>, idx: seq<IndexEntry>, env: GitHubEnv, name: string)
    requires forall i :: 0 <= i < |rows| ==> name != NoteFileName(rows[i].id)
    ensures var r := UploadFrom(u, rows, idx, env);
      (name in r.files <==> name in u.files) && (name in u.files ==> r.files[name] == u.files[name])
    decreases |rows|
  {
    if rows != [] {
      var k := |rows| - 1;
      assert forall i :: 0 <= i < k ==> rows[..k][i] == rows[i];
      UploadFromLeavesOther(u, rows[..k], idx, env, name);
      UploadStepFiles(UploadFrom(u, rows[..k], idx, env), rows[k], idx, env);
    }
  }

  /** The repository: the notes directory, the labels file and the metadata file. */
  datatype GitHubState = GitHubState(
    connected: bool,
    notes: map<string, Note>,
    labels: map<string, Label>,
    settings: map<string, SettingValue>,
    noteFiles: map<string, Json>,
    labelsFile: Option<Json>,
    metadataFile: Option<Json>,
    lastSync: Option<Timestamp>)

  /** The orders `sync` visited things in: the directory listing, the local notes and the labels. */
  datatype GitHubTrace = GitHubTrace(listing: seq<string>, rows: seq<Note>, tags: seq<Label>)

  ghost predicate GitHubTraceFits(b: GitHubState, t: GitHubTrace) {
    && (forall i, j :: 0 <= i < j < |t.listing| ==> t.listing[i] != t.listing[j])
    && (forall name :: name in b.noteFiles <==> name in t.listing)
    && RowsOf(t.rows, b.notes, InBackup) && Sorting.SortedBy(t.rows, ListedBefore)
    && LabelRows(t.tags, b.labels)
  }

  /** The content of `metadata.json`. */
  function Metadata(noteCount: nat, now: Timestamp): Json {
    JObj(map["last_sync" := JTime(now), "note_count" := JInt(noteCount), "app_version" := JStr(AppVersion)])
  }

  /**
   * `GitHubSync.sync`: refused when not connected; otherwise the index is
   * built, new remote notes are downloaded, newer local notes uploaded, and
   * the labels and metadata files written; the first fault ends it.
   */
  function GitHubRun(b: GitHubState, t: GitHubTrace, env: GitHubEnv, md5: Fingerprint -> string): (GitHubState, Outcome) {
    if !b.connected then (b, Outcome(false, "Not connected to GitHub", NoCounts))
    else if env.listFailure.Some? then (b, Failed(Raised(env.listFailure.value), env.explain, Counts(0, 0, 0)))
    else
      match BuildIndex(b.noteFiles, t.listing)
      case Err(f) => (b, Failed(f, env.explain, Counts(0, 0, 0)))
      case Ok(idx) => GitHubExchange(b, idx, t, env, md5)
  }

  /** Download, then upload, against the index `idx`. */
  function GitHubExchange(b: GitHubState, idx: seq<IndexEntry>, t: GitHubTrace, env: GitHubEnv,
                          md5: Fingerprint -> string): (GitHubState, Outcome) {
    var m := Merge(b.notes, EntriesOf(idx), LocalIds(b.notes), env.now, env.itemIds, md5);
    if m.fault.Some? then (b.(notes := m.notes), Failed(m.fault.value, env.explain, Counts(0, m.downloaded, 0)))
    else GitHubPublish(b.(notes := m.notes), Upload(b.noteFiles, t.rows, idx, env), m.downloaded, t, env)
  }

  /** After the upload loop ended as `u`: the labels and metadata files, and the recorded time. */
  function GitHubPublish(a: GitHubState, u: Uploaded, downloaded: nat, t: GitHubTrace, env: GitHubEnv): (GitHubState, Outcome) {
    var a1 := a.(noteFiles := u.files);
    var counts := Counts(u.uploaded, downloaded, u.conflicts);
    if u.fault.Some? then (a1, Failed(u.fault.value, env.explain, counts))
    else if env.labelsFailure.Some? then (a1, Failed(Raised(env.labelsFailure.value), env.explain, counts))
    else
      var a2 := a1.(labelsFile := Some(JArr(LabelsJson(t.tags))));
      if env.metadataFailure.Some? then (a2, Failed(Raised(env.metadataFailure.value), env.explain, counts))
      else
        (a2.(metadataFile := Some(Metadata(|t.rows|, env.now)), lastSync := Some(env.now),
             settings := a2.settings["github_last_sync" := SettingTime(env.now)]),
         Outcome(true, "Sync completed", counts))
  }

  /** Publishing ignores the state's own note files: only the upload loop's files `u.files` reach the result. */
  lemma PublishKeepsOwnFiles(a: GitHubState, u: Uploaded, downloaded: nat, t: GitHubTrace, env: GitHubEnv)
    ensures GitHubPublish(a, u, downloaded, t, env) == GitHubPublish(a.(noteFiles := u.files), u, downloaded, t, env)
  {
  }

  /** A successful GitHub sync built its index, downloaded and uploaded without a fault. */
  lemma GitHubSuccess(b: GitHubState, t: GitHubTrace, env: GitHubEnv, md5: Fingerprint -> string)
    requires GitHubRun(b, t, env, md5).1.success
    ensures b.connected && BuildIndex(b.noteFiles, t.listing).Ok?
    ensures var idx := BuildIndex(b.noteFiles, t.listing).value;
      var m := Merge(b.notes, EntriesOf(idx), LocalIds(b.notes), env.now, env.itemIds, md5);
      var u := Upload(b.noteFiles, t.rows, idx, env);
      && m.fault.None? && u.fault.None?
      && GitHubRun(b, t, env, md5).0
         == b.(notes := m.notes, noteFiles := u.files, labelsFile := Some(JArr(LabelsJson(t.tags))),
               metadataFile := Some(Metadata(|t.rows|, env.now)), lastSync := Some(env.now),
               settings := b.settings["github_last_sync" := SettingTime(env.now)])
      && GitHubRun(b, t, env, md5).1 == Outcome(true, "Sync completed", Counts(u.uploaded, m.downloaded, u.conflicts))
  {
    assert b.connected && env.listFailure.None?;
    var bi := BuildIndex(b.noteFiles, t.listing);
    assert bi.Ok?;
    var m := Merge(b.notes, EntriesOf(bi.value), LocalIds(b.notes), env.now, env.itemIds, md5);
    assert m.fault.None?;
    var u := Upload(b.noteFiles, t.rows, bi.value, env);
    assert GitHubRun(b, t, env, md5) == GitHubPublish(b.(notes := m.notes), u, m.downloaded, t, env);
    PublishSucceeds(b.(notes := m.notes), u, m.downloaded, t, env);
  }

  /** Publishing succeeds only after a fault-free upload, and then writes both files and the time. */
  lemma PublishSucceeds(a: GitHubState, u: Uploaded, downloaded: nat, t: GitHubTrace, env: GitHubEnv)
    requires GitHubPublish(a, u, downloaded, t, env).1.success
    ensures u.fault.None?
    ensures GitHubPublish(a, u, downloaded, t, env)
         == (a.(noteFiles := u.files, labelsFile := Some(JArr(LabelsJson(t.tags))),
                metadataFile := Some(Metadata(|t.rows|, env.now)), lastSync := Some(env.now),
                settings := a.settings["github_last_sync" := SettingTime(env.now)]),
             Outcome(true, "Sync completed", Counts(u.uploaded, downloaded, u.conflicts)))
  {
  }

  /**
   * After a successful GitHub sync: no untrashed local note was replaced by
   * the download, every local note the repository lacked or held an older
   * version of (and whose write did not conflict) is in its file, and the
   * file of every other local note is as it was.
   */
  lemma GitHubSyncUploadsNewer(b: GitHubState, t: GitHubTrace, env: GitHubEnv, md5: Fingerprint -> string)
    requires GitHubTraceFits(b, t) && GitHubRun(b, t, env, md5).1.success
    ensures BuildIndex(b.noteFiles, t.listing).Ok?
    ensures var a := GitHubRun(b, t, env, md5).0;
      var idx := BuildIndex(b.noteFiles, t.listing).value;
      && (forall id :: id in LocalIds(b.notes) ==> id in a.notes && a.notes[id] == b.notes[id])
      && (forall i :: 0 <= i < |t.rows| && Wants(t.rows[i], idx, env.isoAbove) && t.rows[i].id !in env.writeFaults ==>
            NoteFileName(t.rows[i].id) in a.noteFiles && a.noteFiles[NoteFileName(t.rows[i].id)] == JObj(NoteToDict(t.rows[i])))
      && (forall i :: 0 <= i < |t.rows| && !Wants(t.rows[i], idx, env.isoAbove) ==>
            (NoteFileName(t.rows[i].id) in a.noteFiles <==> NoteFileName(t.rows[i].id) in b.noteFiles)
            && (NoteFileName(t.rows[i].id) in b.noteFiles ==> a.noteFiles[NoteFileName(t.rows[i].id)] == b.noteFiles[NoteFileName(t.rows[i].id)]))
  {
    GitHubSuccess(b, t, env, md5);
    var idx := BuildIndex(b.noteFiles, t.listing).value;
    MergeKeepsLocal(b.notes, EntriesOf(idx), LocalIds(b.notes), env.now, env.itemIds, md5);
    var u := Upload(b.noteFiles, t.rows, idx, env);
    forall i | 0 <= i < |t.rows| && Wants(t.rows[i], idx, env.isoAbove) && t.rows[i].id !in env.writeFaults
      ensures NoteFileName(t.rows[i].id) in u.files && u.files[NoteFileName(t.rows[i].id)] == JObj(NoteToDict(t.rows[i]))
    {
      UploadWritesWanted(b.noteFiles, t.rows, idx, env, i);
    }
    forall i | 0 <= i < |t.rows| && !Wants(t.rows[i], idx, env.isoAbove)
      ensures (NoteFileName(t.rows[i].id) in u.files <==> NoteFileName(t.rows[i].id) in b.noteFiles)
        && (NoteFileName(t.rows[i].id) in b.noteFiles ==> u.files[NoteFileName(t.rows[i].id)] == b.noteFiles[NoteFileName(t.rows[i].id)])
    {
      UploadLeavesUnwanted(b.noteFiles, t.rows, idx, env, i);
    }
  }
}
