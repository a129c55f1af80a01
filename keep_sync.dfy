/**
 * One Google Keep sync cycle (`KeepSyncEngine`): pull every remote note into
 * the store, push every pending local note to Keep, then commit. The passes
 * are specified as folds over the order in which they visit notes; the engine
 * class below runs them as loops over the store and the remote account.
 */
module KeepSync {
  import opened Wrappers
  import opened Notes
  import opened Store
  import opened KeepRemote

  /**
   * Everything a cycle takes from outside the model: the clock reading, the
   * uuids drawn for new local notes and their items, the ids Keep gives new
   * remote notes, the notes whose pull or push raises (with the message),
   * and the outcome of the refreshing and the committing `keep.sync()`.
   */
  datatype Env = Env(
    now: Timestamp,
    noteIds: string -> string,
    itemIds: string -> nat -> string,
    remoteIds: string -> string,
    pullFailures: map<string, string>,
    pushFailures: map<string, string>,
    refresh: Result<map<string, RemoteNote>, string>,
    commitFailure: Option<string>)

  // ---------------------------------------------------------------------------
  // Pull
  // ---------------------------------------------------------------------------

  datatype PullStats = PullStats(added: nat, updated: nat, skipped: nat)

  datatype PullState = PullState(notes: map<string, Note>, log: seq<LogEntry>, stats: PullStats)

  /** `keep_note.timestamps.updated > (remote_modified or datetime.min)`. */
  predicate RemoteIsNewer(t: Timestamp, known: Option<Timestamp>) {
    t > known.GetOr(DatetimeMin)
  }

  /** The local note pull saves for `r`, with status synced and the store's stamp. */
  function Pulled(r: RemoteNote, existing: Option<Note>, env: Env, md5: Fingerprint -> string): Note {
    Saved(KeepNoteToLocal(r, existing, env.noteIds(r.id), env.itemIds(r.id), env.now, md5).(syncStatus := Synced),
          env.now, md5)
  }

  /** One iteration of `_pull_from_keep`; `m` is the keep_id lookup's answer. */
  function PullStep(s: PullState, r: RemoteNote, m: Option<string>, env: Env, md5: Fingerprint -> string): PullState {
    if r.id in env.pullFailures then
      s.(log := s.log + [LogEntry(env.now, "pull", r.id, "error", env.pullFailures[r.id])])
    else if m.Some? && m.value in s.notes then
      var local := s.notes[m.value];
      if RemoteIsNewer(r.updated, local.remoteModified) then
        var n := Pulled(r, Some(local), env, md5);
        s.(notes := s.notes[n.id := n], stats := s.stats.(updated := s.stats.updated + 1))
      else
        s.(stats := s.stats.(skipped := s.stats.skipped + 1))
    else
      var n := Pulled(r, None, env, md5);
      s.(notes := s.notes[n.id := n], stats := s.stats.(added := s.stats.added + 1))
  }

  /** `_pull_from_keep` over the remote notes `rs` in iteration order, with the lookups' answers `ms`. */
  function Pull(s: PullState, rs: seq<RemoteNote>, ms: seq<Option<string>>, env: Env, md5: Fingerprint -> string): PullState
    requires |rs| == |ms|
  {
    PullOver(s, rs, ms, PullStepOf(env, md5))
  }

  /** The pull step with the parameters fixed for the whole loop. */
  function PullStepOf(env: Env, md5: Fingerprint -> string): (PullState, RemoteNote, Option<string>) -> PullState {
    (s: PullState, r: RemoteNote, m: Option<string>) => PullStep(s, r, m, env, md5)
  }

  /** A loop over `rs` and the lookups' answers `ms` that applies `step` to each pair. */
  function PullOver(s: PullState, rs: seq<RemoteNote>, ms: seq<Option<string>>,
                    step: (PullState, RemoteNote, Option<string>) -> PullState): PullState
    requires |rs| == |ms|
    decreases |rs|
  {
    if rs == [] then s
    else step(PullOver(s, rs[..|rs| - 1], ms[..|ms| - 1], step), rs[|rs| - 1], ms[|ms| - 1])
  }

  /** Each lookup answer is a possible answer against the store as it stood at that step. */
  ghost predicate MatchesValid(s: PullState, rs: seq<RemoteNote>, ms: seq<Option<string>>, env: Env,
                               md5: Fingerprint -> string)
    requires |rs| == |ms|
    decreases |rs|
  {
    rs == [] ||
    (&& MatchesValid(s, rs[..|rs| - 1], ms[..|ms| - 1], env, md5)
     && IsMatch(Pull(s, rs[..|rs| - 1], ms[..|ms| - 1], env, md5).notes, rs[|rs| - 1].id, ms[|ms| - 1]))
  }

  /** Extending the pull by one remote note is one more step. */
  lemma PullSnoc(s: PullState, rs: seq<RemoteNote>, ms: seq<Option<string>>, r: RemoteNote, m: Option<string>,
                 env: Env, md5: Fingerprint -> string)
    requires |rs| == |ms|
    ensures Pull(s, rs + [r], ms + [m], env, md5) == PullStep(Pull(s, rs, ms, env, md5), r, m, env, md5)
    ensures MatchesValid(s, rs + [r], ms + [m], env, md5)
      <==> MatchesValid(s, rs, ms, env, md5) && IsMatch(Pull(s, rs, ms, env, md5).notes, r.id, m)
  {
    assert (rs + [r])[..|rs|] == rs && (ms + [m])[..|ms|] == ms;
  }

  /** `rs` is `keep.all()`: every remote note once, in some order. */
  ghost predicate SnapshotOf(rs: seq<RemoteNote>, remote: map<string, RemoteNote>) {
    && |rs| == |remote|
    && (forall i :: 0 <= i < |rs| ==> rs[i].id in remote && remote[rs[i].id] == rs[i])
    && (forall i, j :: 0 <= i < j < |rs| ==> rs[i].id != rs[j].id)
    && (forall k :: k in remote ==> remote[k] in rs)
  }

  /** Listing a keyed map's values in the order of an enumeration of its keys lists each once. */
  lemma KeyOrderIsSnapshot(ks: seq<string>, rs: seq<RemoteNote>, remote: map<string, RemoteNote>)
    requires RemoteKeyed(remote)
    requires |ks| == |remote| == |rs|
    requires forall i, j :: 0 <= i < j < |ks| ==> ks[i] != ks[j]
    requires forall k :: k in remote <==> k in ks
    requires forall j :: 0 <= j < |rs| ==> rs[j] == remote[ks[j]]
    ensures SnapshotOf(rs, remote)
  {
    forall k | k in remote ensures remote[k] in rs {
      var j :| 0 <= j < |ks| && ks[j] == k;
      assert rs[j] == remote[k];
    }
  }

  /** A remote note with no linked local note is added under a fresh id, linked and synced. */
  lemma PullAddsUnmatched(s: PullState, r: RemoteNote, env: Env, md5: Fingerprint -> string)
    requires r.id !in env.pullFailures && IsMatch(s.notes, r.id, None)
    ensures var t := PullStep(s, r, None, env, md5); var f := env.noteIds(r.id);
      && f in t.notes && t.notes[f].id == f
      && t.notes[f].keepId == Some(r.id) && t.notes[f].syncStatus == Synced
      && t.notes[f].remoteModified == Some(r.updated) && t.notes[f].title == r.title
      && (forall id :: id in s.notes && id != f ==> id in t.notes && t.notes[id] == s.notes[id])
      && t.notes.Keys == s.notes.Keys + {f}
      && t.log == s.log && t.stats == s.stats.(added := s.stats.added + 1)
  {
  }

  /**
   * A linked note whose recorded remote time is older than the remote's is
   * overwritten from Keep, keeping its id and creation time; nothing else changes.
   */
  lemma PullOverwritesNewer(s: PullState, r: RemoteNote, id: string, env: Env, md5: Fingerprint -> string)
    requires NotesWellFormed(s.notes, md5)
    requires r.id !in env.pullFailures && IsMatch(s.notes, r.id, Some(id))
    requires RemoteIsNewer(r.updated, s.notes[id].remoteModified)
    ensures var t := PullStep(s, r, Some(id), env, md5);
      && t.notes.Keys == s.notes.Keys
      && t.notes[id].id == id && t.notes[id].createdAt == s.notes[id].createdAt
      && t.notes[id].keepId == Some(r.id) && t.notes[id].syncStatus == Synced
      && t.notes[id].remoteModified == Some(r.updated) && t.notes[id].title == r.title
      && (forall k :: k in s.notes && k != id ==> t.notes[k] == s.notes[k])
      && t.log == s.log && t.stats == s.stats.(updated := s.stats.updated + 1)
  {
  }

  /** A remote time equal to or older than the recorded one leaves the store as it was. */
  lemma PullSkipsNotNewer(s: PullState, r: RemoteNote, id: string, env: Env, md5: Fingerprint -> string)
    requires r.id !in env.pullFailures && IsMatch(s.notes, r.id, Some(id))
    requires !RemoteIsNewer(r.updated, s.notes[id].remoteModified)
    ensures var t := PullStep(s, r, Some(id), env, md5);
      t.notes == s.notes && t.log == s.log && t.stats == s.stats.(skipped := s.stats.skipped + 1)
  {
  }

  /** A note whose pull raises is only logged. */
  lemma PullFailureOnlyLogs(s: PullState, r: RemoteNote, m: Option<string>, env: Env, md5: Fingerprint -> string)
    requires r.id in env.pullFailures
    ensures var t := PullStep(s, r, m, env, md5);
      && t.notes == s.notes && t.stats == s.stats
      && t.log == s.log + [LogEntry(env.now, "pull", r.id, "error", env.pullFailures[r.id])]
  {
  }

  /** Pull keeps every stored note under its own id with a current hash. */
  lemma {:induction false} PullKeepsWellFormed(s: PullState, rs: seq<RemoteNote>, ms: seq<Option<string>>, env: Env,
                                               md5: Fingerprint -> string)
    requires |rs| == |ms| && NotesWellFormed(s.notes, md5)
    ensures NotesWellFormed(Pull(s, rs, ms, env, md5).notes, md5)
    decreases |rs|
  {
    if rs != [] {
      PullKeepsWellFormed(s, rs[..|rs| - 1], ms[..|ms| - 1], env, md5);
    }
  }

  // --- Pulling the same snapshot twice -----------------------------------------

  /** No two stored notes link the same remote note. */
  ghost predicate LinksUnique(notes: map<string, Note>) {
    forall a, b :: a in notes && b in notes && notes[a].keepId.Some? && notes[a].keepId == notes[b].keepId ==> a == b
  }

  /** The store holds a note linked to `r`, and no linked note is older than `r`. */
  ghost predicate Mirrored(notes: map<string, Note>, r: RemoteNote) {
    && (exists id :: LinkedTo(notes, id, r.id))
    && (forall id :: LinkedTo(notes, id, r.id) ==> !RemoteIsNewer(r.updated, notes[id].remoteModified))
  }

  /** The uuids drawn for new notes are new to the store and pairwise distinct. */
  ghost predicate FreshNoteIds(notes: map<string, Note>, rs: seq<RemoteNote>, env: Env) {
    && (forall i :: 0 <= i < |rs| ==> env.noteIds(rs[i].id) !in notes)
    && (forall i, j :: 0 <= i < j < |rs| ==> rs[i].id != rs[j].id && env.noteIds(rs[i].id) != env.noteIds(rs[j].id))
  }

  ghost predicate NoPullFailures(rs: seq<RemoteNote>, env: Env) {
    forall i :: 0 <= i < |rs| ==> rs[i].id !in env.pullFailures
  }

  /** What holds after the first `k` steps of a pull over `rs`. */
  ghost predicate PullInvariant(notes: map<string, Note>, rs: seq<RemoteNote>, k: nat, env: Env, md5: Fingerprint -> string) {
    && NotesWellFormed(notes, md5)
    && LinksUnique(notes)
    && (forall i :: 0 <= i < k && i < |rs| ==> Mirrored(notes, rs[i]))
    && (forall j :: k <= j < |rs| ==> env.noteIds(rs[j].id) !in notes)
  }

  /** The key a successful pull step writes: the matched note's, or the fresh uuid. */
  function PullKey(r: RemoteNote, m: Option<string>, env: Env): string {
    if m.Some? then m.value else env.noteIds(r.id)
  }

  /**
   * A successful pull step writes at most the one key, and leaves a note
   * there linked to `r` and not older than it.
   */
  lemma PullStepShape(s: PullState, r: RemoteNote, m: Option<string>, env: Env, md5: Fingerprint -> string)
    requires NotesWellFormed(s.notes, md5)
    requires r.id !in env.pullFailures && IsMatch(s.notes, r.id, m)
    ensures var t := PullStep(s, r, m, env, md5).notes; var key := PullKey(r, m, env);
      && NotesWellFormed(t, md5)
      && t.Keys == s.notes.Keys + {key}
      && (forall id :: id in s.notes && id != key ==> t[id] == s.notes[id])
      && LinkedTo(t, key, r.id) && !RemoteIsNewer(r.updated, t[key].remoteModified)
  {
    var t := PullStep(s, r, m, env, md5).notes;
    var key := PullKey(r, m, env);
    if m.Some? {
      var local := s.notes[m.value];
      if RemoteIsNewer(r.updated, local.remoteModified) {
        PulledShape(r, Some(local), env, md5);
        assert t == s.notes[key := Pulled(r, Some(local), env, md5)];
      } else {
        assert t == s.notes;
      }
    } else {
      PulledShape(r, None, env, md5);
      assert t == s.notes[key := Pulled(r, None, env, md5)];
    }
  }

  /** The note pull saves sits under the existing note's id or the fresh one, linked to `r` and stamped with its time. */
  lemma PulledShape(r: RemoteNote, existing: Option<Note>, env: Env, md5: Fingerprint -> string)
    ensures var n := Pulled(r, existing, env, md5);
      && n.id == (if existing.Some? then existing.value.id else env.noteIds(r.id))
      && n.keepId == Some(r.id) && n.remoteModified == Some(r.updated) && HashCurrent(n, md5)
      && !RemoteIsNewer(r.updated, n.remoteModified)
  {
  }

  lemma PullStepPreserves(s: PullState, rs: seq<RemoteNote>, k: nat, m: Option<string>, t: map<string, Note>,
                          env: Env, md5: Fingerprint -> string)
    requires k < |rs|
    requires PullInvariant(s.notes, rs, k, env, md5)
    requires forall i, j :: 0 <= i < j < |rs| ==> rs[i].id != rs[j].id && env.noteIds(rs[i].id) != env.noteIds(rs[j].id)
    requires IsMatch(s.notes, rs[k].id, m)
    requires var key := PullKey(rs[k], m, env);
      && NotesWellFormed(t, md5)
      && t.Keys == s.notes.Keys + {key}
      && (forall id :: id in s.notes && id != key ==> t[id] == s.notes[id])
      && LinkedTo(t, key, rs[k].id) && !RemoteIsNewer(rs[k].updated, t[key].remoteModified)
    ensures PullInvariant(t, rs, k + 1, env, md5)
  {
    var r := rs[k];
    var key := PullKey(r, m, env);
    assert m.None? ==> key !in s.notes;
    OnlyKeyLinked(s.notes, t, key, r.id, m);
    WriteKeepsLinksUnique(s.notes, t, key, r.id);
    forall i | 0 <= i < k
      ensures Mirrored(t, rs[i])
    {
      assert rs[i].id != r.id;
      assert key in s.notes ==> LinkedTo(s.notes, key, r.id);
      WriteKeepsMirror(s.notes, t, key, r.id, rs[i]);
    }
    forall j | k + 1 <= j < |rs|
      ensures env.noteIds(rs[j].id) !in t
    {
      assert env.noteIds(rs[k].id) != env.noteIds(rs[j].id);
    }
  }

  /** `t` is `notes` with at most the key `key` written, and a note linked to `rid` there. */
  ghost predicate WroteLinked(notes: map<string, Note>, t: map<string, Note>, key: string, rid: string) {
    && t.Keys == notes.Keys + {key}
    && (forall id :: id in notes && id != key ==> t[id] == notes[id])
    && LinkedTo(t, key, rid)
  }

  /** After the write, the written key is the only one linked to `rid`. */
  lemma OnlyKeyLinked(notes: map<string, Note>, t: map<string, Note>, key: string, rid: string, m: Option<string>)
    requires LinksUnique(notes) && WroteLinked(notes, t, key, rid) && IsMatch(notes, rid, m)
    requires m.Some? ==> key == m.value
    requires m.None? ==> key !in notes
    ensures forall id :: LinkedTo(t, id, rid) ==> id == key
  {
    forall id | LinkedTo(t, id, rid)
      ensures id == key
    {
      if id != key {
        assert LinkedTo(notes, id, rid);
      }
    }
  }

  lemma WriteKeepsLinksUnique(notes: map<string, Note>, t: map<string, Note>, key: string, rid: string)
    requires LinksUnique(notes) && WroteLinked(notes, t, key, rid)
    requires forall id :: LinkedTo(t, id, rid) ==> id == key
    ensures LinksUnique(t)
  {
    forall a, b | a in t && b in t && t[a].keepId.Some? && t[a].keepId == t[b].keepId
      ensures a == b
    {
      if a == key || b == key {
        assert LinkedTo(t, a, rid) && LinkedTo(t, b, rid);
      }
    }
  }

  /** A remote note other than the written one stays mirrored. */
  lemma WriteKeepsMirror(notes: map<string, Note>, t: map<string, Note>, key: string, rid: string, q: RemoteNote)
    requires WroteLinked(notes, t, key, rid) && q.id != rid && Mirrored(notes, q)
    requires key in notes ==> LinkedTo(notes, key, rid)
    ensures Mirrored(t, q)
  {
    var w :| LinkedTo(notes, w, q.id);
    assert w != key;
    assert LinkedTo(t, w, q.id);
  }

  lemma {:induction false} PullEstablishes(s: PullState, rs: seq<RemoteNote>, ms: seq<Option<string>>, k: nat, env: Env,
                                           md5: Fingerprint -> string)
    requires k <= |rs| == |ms|
    requires NotesWellFormed(s.notes, md5) && LinksUnique(s.notes)
    requires FreshNoteIds(s.notes, rs, env) && NoPullFailures(rs, env)
    requires MatchesValid(s, rs[..k], ms[..k], env, md5)
    ensures PullInvariant(Pull(s, rs[..k], ms[..k], env, md5).notes, rs, k, env, md5)
    decreases k
  {
    if k > 0 {
      assert rs[..k][..k - 1] == rs[..k - 1];
      assert ms[..k][..k - 1] == ms[..k - 1];
      PullEstablishes(s, rs, ms, k - 1, env, md5);
      var before := Pull(s, rs[..k - 1], ms[..k - 1], env, md5);
      PullStepShape(before, rs[k - 1], ms[k - 1], env, md5);
      PullStepPreserves(before, rs, k - 1, ms[k - 1], PullStep(before, rs[k - 1], ms[k - 1], env, md5).notes, env, md5);
    }
  }

  /** Pulling remote notes the store already mirrors changes nothing and skips them all. */
  lemma {:induction false} PullSkipsMirrored(t: PullState, rs: seq<RemoteNote>, ms: seq<Option<string>>, env: Env,
                                             md5: Fingerprint -> string)
    requires |rs| == |ms| && NoPullFailures(rs, env)
    requires forall i :: 0 <= i < |rs| ==> Mirrored(t.notes, rs[i])
    requires MatchesValid(t, rs, ms, env, md5)
    ensures var u := Pull(t, rs, ms, env, md5);
      u.notes == t.notes && u.log == t.log && u.stats == t.stats.(skipped := t.stats.skipped + |rs|)
    decreases |rs|
  {
    if rs != [] {
      var n := |rs| - 1;
      PullSkipsMirrored(t, rs[..n], ms[..n], env, md5);
      assert Mirrored(t.notes, rs[n]);
      assert ms[n].Some?;
    }
  }

  /**
   * Pulling the same snapshot a second time changes no note, whatever rows
   * the lookups return: every remote note is found linked and not newer.
   */
  lemma PullIsIdempotent(s: PullState, rs: seq<RemoteNote>, ms: seq<Option<string>>, ms2: seq<Option<string>>,
                         env: Env, md5: Fingerprint -> string)
    requires |rs| == |ms| == |ms2|
    requires NotesWellFormed(s.notes, md5) && LinksUnique(s.notes)
    requires FreshNoteIds(s.notes, rs, env) && NoPullFailures(rs, env)
    requires MatchesValid(s, rs, ms, env, md5)
    requires MatchesValid(Pull(s, rs, ms, env, md5), rs, ms2, env, md5)
    ensures var t := Pull(s, rs, ms, env, md5);
      Pull(t, rs, ms2, env, md5).notes == t.notes
  {
    assert rs[..|rs|] == rs && ms[..|ms|] == ms;
    PullEstablishes(s, rs, ms, |rs|, env, md5);
    PullSkipsMirrored(Pull(s, rs, ms, env, md5), rs, ms2, env, md5);
  }

  // ---------------------------------------------------------------------------
  // Push
  // ---------------------------------------------------------------------------

  datatype PushStats = PushStats(created: nat, updated: nat, errors: nat)

  datatype PushState = PushState(notes: map<string, Note>, remote: map<string, RemoteNote>, log: seq<LogEntry>,
                                 stats: PushStats)

  /** The rows `_push_to_keep` selects: not trashed, status pending_push or local_only. */
  predicate NeedsPush(n: Note) {
    !n.trashed && (n.syncStatus == PendingPush || n.syncStatus == LocalOnly)
  }

  /** The local note after a successful push: synced, remote time now, saved by the store. */
  function MarkPushed(n: Note, env: Env, md5: Fingerprint -> string): Note {
    Saved(n.(syncStatus := Synced, remoteModified := Some(env.now)), env.now, md5)
  }

  /**
   * One iteration of `_push_to_keep` on the selected row `n`. A linked note
   * updates its remote note when Keep still has it and is marked synced
   * either way; an unlinked one creates a remote note and takes its id.
   */
  function PushStep(s: PushState, n: Note, env: Env, md5: Fingerprint -> string): PushState {
    if n.id in env.pushFailures then
      s.(log := s.log + [LogEntry(env.now, "push", n.id, "error", env.pushFailures[n.id])],
         stats := s.stats.(errors := s.stats.errors + 1))
    else if IsLinked(n) then
      var k := n.keepId.value;
      var s1 := if k in s.remote
        then s.(remote := s.remote[k := UpdateRemote(s.remote[k], n, env.now)],
                stats := s.stats.(updated := s.stats.updated + 1))
        else s;
      s1.(notes := s1.notes[n.id := MarkPushed(n, env, md5)])
    else
      var rid := env.remoteIds(n.id);
      s.(remote := s.remote[rid := CreateRemote(n, rid, env.now)],
         notes := s.notes[n.id := MarkPushed(n.(keepId := Some(rid)), env, md5)],
         stats := s.stats.(created := s.stats.created + 1))
  }

  /** `_push_to_keep` over the selected rows in fetch order. */
  function Push(s: PushState, rows: seq<Note>, env: Env, md5: Fingerprint -> string): PushState
  {
    PushOver(s, rows, PushStepOf(env, md5))
  }

  /** The push step with the parameters fixed for the whole loop. */
  function PushStepOf(env: Env, md5: Fingerprint -> string): (PushState, Note) -> PushState {
    (s: PushState, n: Note) => PushStep(s, n, env, md5)
  }

  /** A loop over `rows` that applies `step` to each row. */
  function PushOver(s: PushState, rows: seq<Note>, step: (PushState, Note) -> PushState): PushState
    decreases |rows|
  {
    if rows == [] then s else step(PushOver(s, rows[..|rows| - 1], step), rows[|rows| - 1])
  }

  lemma PushSnoc(s: PushState, rows: seq<Note>, i: nat, env: Env, md5: Fingerprint -> string)
    requires i < |rows|
    ensures Push(s, rows[..i + 1], env, md5) == PushStep(Push(s, rows[..i], env, md5), rows[i], env, md5)
  {
    assert rows[..i + 1][..i] == rows[..i];
  }

  /** A failing note leaves the store and Keep as they were; the error is counted and logged. */
  lemma PushFailureLeavesNote(s: PushState, n: Note, env: Env, md5: Fingerprint -> string)
    requires n.id in env.pushFailures
    ensures var t := PushStep(s, n, env, md5);
      && t.notes == s.notes && t.remote == s.remote
      && t.stats == s.stats.(errors := s.stats.errors + 1)
      && t.log == s.log + [LogEntry(env.now, "push", n.id, "error", env.pushFailures[n.id])]
  {
  }

  /**
   * A successful push stores the row synced, with remote time now and linked:
   * to its old remote note, or to the one just created under Keep's new id.
   * Content and labels are the row's. The log is untouched.
   */
  lemma PushSuccessSyncs(s: PushState, n: Note, env: Env, md5: Fingerprint -> string)
    requires n.id !in env.pushFailures
    ensures var t := PushStep(s, n, env, md5); var p := t.notes[n.id];
      && t.notes.Keys == s.notes.Keys + {n.id}
      && p.id == n.id && p.syncStatus == Synced && p.remoteModified == Some(env.now) && HashCurrent(p, md5)
      && p.keepId == (if IsLinked(n) then n.keepId else Some(env.remoteIds(n.id)))
      && p.title == n.title && p.content == n.content && p.checklistItems == n.checklistItems
      && p.labels == n.labels && p.trashed == n.trashed && p.createdAt == n.createdAt
      && !NeedsPush(p) && t.log == s.log
  {
    var w := if IsLinked(n) then n else n.(keepId := Some(env.remoteIds(n.id)));
    var t := PushStep(s, n, env, md5);
    if IsLinked(n) {
      assert t.notes == s.notes[n.id := MarkPushed(w, env, md5)];
    } else {
      assert t.notes == s.notes[n.id := MarkPushed(w, env, md5)];
    }
    var p := MarkPushed(w, env, md5);
    assert p.(contentHash := w.contentHash, updatedAt := w.updatedAt) == w.(syncStatus := Synced, remoteModified := Some(env.now));
  }

  /** Creating a remote note adds it under Keep's id and counts it. */
  lemma PushCreatesUnlinked(s: PushState, n: Note, env: Env, md5: Fingerprint -> string)
    requires n.id !in env.pushFailures && !IsLinked(n)
    ensures var t := PushStep(s, n, env, md5); var rid := env.remoteIds(n.id);
      && t.remote == s.remote[rid := CreateRemote(n, rid, env.now)]
      && t.stats == s.stats.(created := s.stats.created + 1)
  {
  }

  /**
   * A linked note whose remote note Keep no longer has changes nothing on
   * Keep and is not counted, yet it is still stored as synced.
   */
  lemma PushMissingRemoteStillSynced(s: PushState, n: Note, env: Env, md5: Fingerprint -> string)
    requires n.id !in env.pushFailures && IsLinked(n) && n.keepId.value !in s.remote
    ensures var t := PushStep(s, n, env, md5);
      && t.remote == s.remote && t.stats == s.stats
      && t.notes[n.id].syncStatus == Synced && t.notes[n.id].keepId == n.keepId
  {
  }

  /** No row of `rows` has id `id`. */
  predicate NotARow(rows: seq<Note>, id: string) {
    forall i :: 0 <= i < |rows| ==> rows[i].id != id
  }

  /** One push step writes only the row's own id, the synced note when it succeeds. */
  lemma PushStepFrame(s: PushState, n: Note, env: Env, md5: Fingerprint -> string)
    ensures var t := PushStep(s, n, env, md5);
      && (forall id :: id != n.id ==> (id in t.notes <==> id in s.notes) && (id in s.notes ==> t.notes[id] == s.notes[id]))
      && (n.id !in env.pushFailures ==> n.id in t.notes && t.notes[n.id].syncStatus == Synced)
  {
    var t := PushStep(s, n, env, md5);
    if n.id in env.pushFailures {
      assert t.notes == s.notes;
    } else {
      var w := if IsLinked(n) then n else n.(keepId := Some(env.remoteIds(n.id)));
      assert t.notes == s.notes[n.id := MarkPushed(w, env, md5)];
      assert MarkPushed(w, env, md5).syncStatus == Synced;
    }
  }

  /** Push writes only the selected rows' ids. */
  lemma {:induction false} PushFrame(s: PushState, rows: seq<Note>, env: Env, md5: Fingerprint -> string)
    ensures var t := Push(s, rows, env, md5);
      forall id :: NotARow(rows, id) ==> (id in t.notes <==> id in s.notes) && (id in s.notes ==> t.notes[id] == s.notes[id])
    decreases |rows|
  {
    if rows != [] {
      var front := rows[..|rows| - 1];
      PushFrame(s, front, env, md5);
      PushStepFrame(Push(s, front, env, md5), rows[|rows| - 1], env, md5);
      forall id | NotARow(rows, id) ensures NotARow(front, id) {
        forall i | 0 <= i < |front| ensures front[i].id != id {
          assert front[i] == rows[i];
        }
      }
    }
  }

  /** Push keeps every stored note under its own id with a current hash. */
  lemma {:induction false} PushKeepsWellFormed(s: PushState, rows: seq<Note>, env: Env, md5: Fingerprint -> string)
    requires NotesWellFormed(s.notes, md5)
    ensures NotesWellFormed(Push(s, rows, env, md5).notes, md5)
    decreases |rows|
  {
    if rows != [] {
      PushKeepsWellFormed(s, rows[..|rows| - 1], env, md5);
    }
  }

  ghost predicate NoPushFailures(rows: seq<Note>, env: Env) {
    forall i :: 0 <= i < |rows| ==> rows[i].id !in env.pushFailures
  }

  /** With no failures, every selected row ends up stored as synced. */
  lemma {:induction false} PushClearsRows(s: PushState, rows: seq<Note>, env: Env, md5: Fingerprint -> string)
    requires forall i, j :: 0 <= i < j < |rows| ==> rows[i].id != rows[j].id
    requires NoPushFailures(rows, env)
    ensures var t := Push(s, rows, env, md5);
      forall i :: 0 <= i < |rows| ==> rows[i].id in t.notes && t.notes[rows[i].id].syncStatus == Synced
    decreases |rows|
  {
    if rows != [] {
      var n := |rows| - 1;
      var front := rows[..n];
      PushClearsRows(s, front, env, md5);
      var before := Push(s, front, env, md5);
      PushStepFrame(before, rows[n], env, md5);
      assert forall i :: 0 <= i < n ==> front[i] == rows[i];
    }
  }

  // ---------------------------------------------------------------------------
  // The cycle
  // ---------------------------------------------------------------------------

  /** The `stats` dict `sync` returns; the early exits return an empty dict. */
  datatype SyncStats = NoStats | Stats(pulled: nat, pushed: nat, conflicts: nat, errors: nat)

  /** What `_notify_callbacks` announces during a cycle. */
  datatype Notice = Syncing | SyncedCounts(pulled: nat, pushed: nat) | SyncFailed(message: string)

  /** The visiting orders of one cycle: `keep.all()`, the lookups' answers, the push rows. */
  datatype Trace = Trace(pulled: seq<RemoteNote>, matches: seq<Option<string>>, pushed: seq<Note>)

  datatype CycleResult = CycleResult(
    success: bool, message: string, stats: SyncStats,
    notes: map<string, Note>, remote: map<string, RemoteNote>, log: seq<LogEntry>,
    settings: map<string, SettingValue>, notice: Notice)

  function PullStart(notes: map<string, Note>, log: seq<LogEntry>): PullState {
    PullState(notes, log, PullStats(0, 0, 0))
  }

  /** The pull and push orders fit the refreshed account and the store the cycle met. */
  ghost predicate TraceFits(notes: map<string, Note>, log: seq<LogEntry>, remote: map<string, RemoteNote>, t: Trace,
                            env: Env, md5: Fingerprint -> string)
  {
    && SnapshotOf(t.pulled, remote)
    && |t.matches| == |t.pulled|
    && MatchesValid(PullStart(notes, log), t.pulled, t.matches, env, md5)
    && RowsOf(t.pushed, Pull(PullStart(notes, log), t.pulled, t.matches, env, md5).notes, NeedsPush)
  }

  /** The log entry for an exception that aborts a cycle. */
  function CycleError(e: string, env: Env): LogEntry {
    LogEntry(env.now, "sync", "", "error", e)
  }

  /**
   * The body of `sync` after its guards: refresh, pull, push, commit. A
   * failing refresh aborts before any note is touched; a failing commit
   * keeps what pull and push already stored and reports their counts with
   * one error; a clean run records `last_sync`.
   */
  function Cycle(notes: map<string, Note>, remote: map<string, RemoteNote>, log: seq<LogEntry>,
                 settings: map<string, SettingValue>, t: Trace, env: Env, md5: Fingerprint -> string): CycleResult
    requires |t.matches| == |t.pulled|
  {
    match env.refresh
    case Err(e) => Aborted(e, Stats(0, 0, 0, 1), notes, remote, log, settings, env)
    case Ok(snapshot) => AfterRefresh(notes, snapshot, log, settings, t, env, md5)
  }

  /** A cycle ended by an exception from `keep.sync()`. */
  function Aborted(e: string, stats: SyncStats, notes: map<string, Note>, remote: map<string, RemoteNote>,
                   log: seq<LogEntry>, settings: map<string, SettingValue>, env: Env): CycleResult
  {
    CycleResult(false, "Sync error: " + e, stats, notes, remote, log + [CycleError(e, env)], settings,
                SyncFailed("Sync error: " + e))
  }

  /** Pull, push and commit against the refreshed account `snapshot`. */
  function AfterRefresh(notes: map<string, Note>, snapshot: map<string, RemoteNote>, log: seq<LogEntry>,
                        settings: map<string, SettingValue>, t: Trace, env: Env, md5: Fingerprint -> string): CycleResult
    requires |t.matches| == |t.pulled|
  {
    CommitAfterPull(Pull(PullStart(notes, log), t.pulled, t.matches, env, md5), snapshot, settings, t.pushed, env, md5)
  }

  /** The cycle after a refresh is the commit applied to what pull and push leave. */
  lemma AfterRefreshIsCommitted(notes: map<string, Note>, snapshot: map<string, RemoteNote>, log: seq<LogEntry>,
                                settings: map<string, SettingValue>, t: Trace, env: Env, md5: Fingerprint -> string,
                                pulled: nat, pushed: nat, notes': map<string, Note>, remote': map<string, RemoteNote>,
                                log': seq<LogEntry>)
    requires |t.matches| == |t.pulled|
    requires var p := Pull(PullStart(notes, log), t.pulled, t.matches, env, md5);
      var q := Push(PushState(p.notes, snapshot, p.log, PushStats(0, 0, 0)), t.pushed, env, md5);
      && pulled == p.stats.added + p.stats.updated && pushed == q.stats.created + q.stats.updated
      && notes' == q.notes && remote' == q.remote && log' == q.log
    ensures AfterRefresh(notes, snapshot, log, settings, t, env, md5) == Committed(pulled, pushed, notes', remote', log', settings, env)
  {
    var p := Pull(PullStart(notes, log), t.pulled, t.matches, env, md5);
    PullIsCommitted(p, snapshot, settings, t.pushed, env, md5, pulled, pushed, notes', remote', log');
  }

  /** An unfolding step for `AfterRefreshIsCommitted`: `CommitAfterPull` is `Committed` over what push leaves. */
  lemma PullIsCommitted(p: PullState, snapshot: map<string, RemoteNote>, settings: map<string, SettingValue>,
                        rows: seq<Note>, env: Env, md5: Fingerprint -> string,
                        pulled: nat, pushed: nat, notes': map<string, Note>, remote': map<string, RemoteNote>,
                        log': seq<LogEntry>)
    requires var q := Push(PushState(p.notes, snapshot, p.log, PushStats(0, 0, 0)), rows, env, md5);
      && pulled == p.stats.added + p.stats.updated && pushed == q.stats.created + q.stats.updated
      && notes' == q.notes && remote' == q.remote && log' == q.log
    ensures CommitAfterPull(p, snapshot, settings, rows, env, md5) == Committed(pulled, pushed, notes', remote', log', settings, env)
  {
  }

  /** What pull leaves, pushed and committed. */
  function CommitAfterPull(p: PullState, snapshot: map<string, RemoteNote>, settings: map<string, SettingValue>,
                           rows: seq<Note>, env: Env, md5: Fingerprint -> string): CycleResult
  {
    var q := Push(PushState(p.notes, snapshot, p.log, PushStats(0, 0, 0)), rows, env, md5);
    Committed(p.stats.added + p.stats.updated, q.stats.created + q.stats.updated, q.notes, q.remote, q.log, settings, env)
  }

  /** The committing `keep.sync()`: an exception reports the counts with one error; success records `last_sync`. */
  function Committed(pulled: nat, pushed: nat, notes: map<string, Note>, remote: map<string, RemoteNote>,
                     log: seq<LogEntry>, settings: map<string, SettingValue>, env: Env): CycleResult
  {
    match env.commitFailure
    case Some(e) => Aborted(e, Stats(pulled, pushed, 0, 1), notes, remote, log, settings, env)
    case None =>
      CycleResult(true, "Sync completed successfully", Stats(pulled, pushed, 0, 0), notes, remote, log,
                  settings["last_sync" := SettingTime(env.now)], SyncedCounts(pulled, pushed))
  }

  /** A cycle fails exactly when a `keep.sync()` raises, and then reports one error. */
  lemma CycleFailsOnlyOnSyncError(notes: map<string, Note>, remote: map<string, RemoteNote>, log: seq<LogEntry>,
                                  settings: map<string, SettingValue>, t: Trace, env: Env, md5: Fingerprint -> string)
    requires |t.matches| == |t.pulled|
    ensures var c := Cycle(notes, remote, log, settings, t, env, md5);
      && (c.success <==> env.refresh.Ok? && env.commitFailure.None?)
      && (!c.success ==> c.stats.Stats? && c.stats.errors == 1 && c.stats.conflicts == 0)
      && (c.success ==> c.settings == settings["last_sync" := SettingTime(env.now)] && c.stats.errors == 0)
      && (env.refresh.Err? ==> c.notes == notes && c.remote == remote)
  {
  }

  /** Every stored note a query keeps is one of its rows. */
  lemma RowsCoverIds(rows: seq<Note>, notes: map<string, Note>, keep: Note -> bool, md5: Fingerprint -> string)
    requires RowsOf(rows, notes, keep) && NotesWellFormed(notes, md5)
    ensures forall id :: id in notes && keep(notes[id]) ==> !NotARow(rows, id)
  {
    forall id | id in notes && keep(notes[id]) ensures !NotARow(rows, id) {
      var i :| 0 <= i < |rows| && rows[i] == notes[id];
      assert rows[i].id == id;
    }
  }

  /**
   * After a clean cycle with no per-note failure, no stored note is left
   * pending: every note push selected is synced, and pull and the rest of
   * push left the others as pull found them, which push did not select.
   */
  lemma CleanCycleLeavesNothingPending(notes: map<string, Note>, remote: map<string, RemoteNote>, log: seq<LogEntry>,
                                       settings: map<string, SettingValue>, t: Trace, env: Env,
                                       md5: Fingerprint -> string)
    requires NotesWellFormed(notes, md5)
    requires env.refresh.Ok? && env.commitFailure.None?
    requires TraceFits(notes, log, env.refresh.value, t, env, md5)
    requires NoPushFailures(t.pushed, env)
    ensures var c := Cycle(notes, remote, log, settings, t, env, md5);
      c.success && forall id :: id in c.notes ==> !NeedsPush(c.notes[id])
  {
    var p := Pull(PullStart(notes, log), t.pulled, t.matches, env, md5);
    var s := PushState(p.notes, env.refresh.value, p.log, PushStats(0, 0, 0));
    var q := Push(s, t.pushed, env, md5);
    PullKeepsWellFormed(PullStart(notes, log), t.pulled, t.matches, env, md5);
    PushLeavesNothingPending(s, t.pushed, env, md5);
    var pulled, pushed := p.stats.added + p.stats.updated, q.stats.created + q.stats.updated;
    AfterRefreshIsCommitted(notes, env.refresh.value, log, settings, t, env, md5, pulled, pushed, q.notes, q.remote, q.log);
    var c := Committed(pulled, pushed, q.notes, q.remote, q.log, settings, env);
    assert c.success && c.notes == q.notes;
    assert Cycle(notes, remote, log, settings, t, env, md5) == c;
  }

  /** A push over every pending row, none of which fails, leaves no stored note pending. */
  lemma PushLeavesNothingPending(s: PushState, rows: seq<Note>, env: Env, md5: Fingerprint -> string)
    requires NotesWellFormed(s.notes, md5)
    requires RowsOf(rows, s.notes, NeedsPush)
    requires NoPushFailures(rows, env)
    ensures var q := Push(s, rows, env, md5);
      forall id :: id in q.notes ==> !NeedsPush(q.notes[id])
  {
    var q := Push(s, rows, env, md5);
    RowsCoverIds(rows, s.notes, NeedsPush, md5);
    PushFrame(s, rows, env, md5);
    PushClearsRows(s, rows, env, md5);
    forall id | id in q.notes && !NotARow(rows, id) ensures !NeedsPush(q.notes[id]) {
      var i :| 0 <= i < |rows| && rows[i].id == id;
    }
  }

  // ---------------------------------------------------------------------------
  // Unlinking
  // ---------------------------------------------------------------------------

  /** The note `unlink_note` saves: no keep_id, status local_only. */
  function Unlinked(n: Note, now: Timestamp, md5: Fingerprint -> string): Note {
    Saved(n.(keepId := None, syncStatus := LocalOnly), now, md5)
  }

  /** An unlinked note is no longer linked, and the next push creates it anew unless it is trashed. */
  lemma UnlinkedIsPushedAsNew(n: Note, now: Timestamp, env: Env, s: PushState, md5: Fingerprint -> string)
    requires n.id !in env.pushFailures
    ensures var u := Unlinked(n, now, md5);
      && !IsLinked(u) && u.syncStatus == LocalOnly && u.id == n.id
      && (NeedsPush(u) <==> !n.trashed)
      && PushStep(s, u, env, md5).notes[n.id].keepId == Some(env.remoteIds(n.id))
  {
  }

  // ---------------------------------------------------------------------------
  // The engine
  // ---------------------------------------------------------------------------

  class KeepSyncEngine {
    const db: NoteStore
    /** The Keep account as gkeepapi holds it after its last `sync()`. */
    var remote: map<string, RemoteNote>
    var isAuthenticated: bool
    var syncInProgress: bool
    var lastSync: Option<Timestamp>
    /** What the registered callbacks have been told, oldest first. */
    var notices: seq<Notice>

    ghost predicate Valid()
      reads this, db
    {
      db.Valid() && RemoteKeyed(remote)
    }

    constructor (db: NoteStore)
      requires db.Valid()
      ensures Valid() && this.db == db
      ensures remote == map[] && !isAuthenticated && !syncInProgress && lastSync == None && notices == []
    {
      this.db := db;
      remote := map[];
      isAuthenticated := false;
      syncInProgress := false;
      lastSync := None;
      notices := [];
    }

    /** One iteration of `_pull_from_keep`, on remote note `r` with lookup answer `m`. */
    method PullOne(r: RemoteNote, m: Option<string>, stats: PullStats, env: Env) returns (stats': PullStats)
      requires Valid() && IsMatch(db.notes, r.id, m)
      modifies db
      ensures Valid()
      ensures PullState(db.notes, db.syncLog, stats') == PullStep(PullState(old(db.notes), old(db.syncLog), stats), r, m, env, db.md5)
      ensures db.labels == old(db.labels) && db.settings == old(db.settings)
    {
      stats' := stats;
      if r.id in env.pullFailures {
        db.LogSync("pull", r.id, "error", env.pullFailures[r.id], env.now);
      } else if m.Some? {
        var local := db.notes[m.value];
        if RemoteIsNewer(r.updated, local.remoteModified) {
          var n := KeepNoteToLocal(r, Some(local), env.noteIds(r.id), env.itemIds(r.id), env.now, db.md5);
          var ok, saved := db.SaveNote(n.(syncStatus := Synced), env.now);
          stats' := stats.(updated := stats.updated + 1);
        } else {
          stats' := stats.(skipped := stats.skipped + 1);
        }
      } else {
        var n := KeepNoteToLocal(r, None, env.noteIds(r.id), env.itemIds(r.id), env.now, db.md5);
        var ok, saved := db.SaveNote(n.(syncStatus := Synced), env.now);
        stats' := stats.(added := stats.added + 1);
      }
    }

    /** `_pull_from_keep`: visits `keep.all()` in the order `pulled`. */
    method PullFromKeep(env: Env) returns (stats: PullStats, pulled: seq<RemoteNote>, matches: seq<Option<string>>)
      requires Valid()
      modifies db
      ensures Valid()
      ensures SnapshotOf(pulled, remote) && |matches| == |pulled|
      ensures MatchesValid(PullStart(old(db.notes), old(db.syncLog)), pulled, matches, env, db.md5)
      ensures var p := Pull(PullStart(old(db.notes), old(db.syncLog)), pulled, matches, env, db.md5);
        db.notes == p.notes && db.syncLog == p.log && stats == p.stats
      ensures db.labels == old(db.labels) && db.settings == old(db.settings)
    {
      var ks := EnumerateKeys(remote);
      ghost var start := PullStart(db.notes, db.syncLog);
      stats, pulled, matches := PullStats(0, 0, 0), [], [];
      var i := 0;
      while i < |ks|
        invariant 0 <= i <= |ks| && |pulled| == i && |matches| == i
        invariant forall j :: 0 <= j < i ==> pulled[j] == remote[ks[j]]
        invariant db.Valid()
        invariant MatchesValid(start, pulled, matches, env, db.md5)
        invariant PullState(db.notes, db.syncLog, stats) == Pull(start, pulled, matches, env, db.md5)
        invariant db.labels == old(db.labels) && db.settings == old(db.settings)
      {
        var r := remote[ks[i]];
        var m;
        stats, m := PullNext(r, start, pulled, matches, stats, env);
        pulled, matches := pulled + [r], matches + [m];
        i := i + 1;
      }
      KeyOrderIsSnapshot(ks, pulled, remote);
    }

    /** The lookup by `keep_id`, then one iteration of `_pull_from_keep`, extending the pull so far by `r`. */
    method PullNext(r: RemoteNote, ghost start: PullState, ghost pulled: seq<RemoteNote>, ghost matches: seq<Option<string>>,
                    stats: PullStats, env: Env) returns (stats': PullStats, m: Option<string>)
      requires Valid() && |pulled| == |matches|
      requires MatchesValid(start, pulled, matches, env, db.md5)
      requires PullState(db.notes, db.syncLog, stats) == Pull(start, pulled, matches, env, db.md5)
      modifies db
      ensures Valid()
      ensures MatchesValid(start, pulled + [r], matches + [m], env, db.md5)
      ensures PullState(db.notes, db.syncLog, stats') == Pull(start, pulled + [r], matches + [m], env, db.md5)
      ensures db.labels == old(db.labels) && db.settings == old(db.settings)
    {
      m := db.FindByKeepId(r.id);
      PullSnoc(start, pulled, matches, r, m, env, db.md5);
      stats' := PullOne(r, m, stats, env);
    }

    /** One iteration of `_push_to_keep`, on the selected row `n`. */
    method PushOne(n: Note, stats: PushStats, env: Env) returns (stats': PushStats)
      requires Valid()
      modifies this, db
      ensures Valid()
      ensures PushState(db.notes, remote, db.syncLog, stats')
        == PushStep(PushState(old(db.notes), old(remote), old(db.syncLog), stats), n, env, db.md5)
      ensures db.labels == old(db.labels) && db.settings == old(db.settings)
      ensures isAuthenticated == old(isAuthenticated) && syncInProgress == old(syncInProgress)
      ensures lastSync == old(lastSync) && notices == old(notices)
    {
      stats' := stats;
      if n.id in env.pushFailures {
        db.LogSync("push", n.id, "error", env.pushFailures[n.id], env.now);
        stats' := stats.(errors := stats.errors + 1);
      } else {
        var local;
        stats', local := SendToKeep(n, stats, env);
        var ok, saved := db.SaveNote(local.(syncStatus := Synced, remoteModified := Some(env.now)), env.now);
      }
    }

    /**
     * The Keep half of a successful push: update the linked remote note if
     * Keep still has it, or create one and link the row to its new id.
     */
    method SendToKeep(n: Note, stats: PushStats, env: Env) returns (stats': PushStats, local: Note)
      requires Valid() && n.id !in env.pushFailures
      modifies this
      ensures Valid()
      ensures var t := PushStep(PushState(db.notes, old(remote), db.syncLog, stats), n, env, db.md5);
        && remote == t.remote && stats' == t.stats && db.syncLog == t.log
        && t.notes == db.notes[n.id := MarkPushed(local, env, db.md5)] && local.id == n.id
      ensures isAuthenticated == old(isAuthenticated) && syncInProgress == old(syncInProgress)
      ensures lastSync == old(lastSync) && notices == old(notices)
    {
      stats', local := stats, n;
      if IsLinked(n) {
        var k := n.keepId.value;
        if k in remote {
          var r := UpdateRemote(remote[k], n, env.now);
          PutKeepsKeyed(remote, r);
          remote := remote[k := r];
          stats' := stats.(updated := stats.updated + 1);
        }
      } else {
        var rid := env.remoteIds(n.id);
        var r := CreateRemote(n, rid, env.now);
        PutKeepsKeyed(remote, r);
        remote := remote[rid := r];
        local := n.(keepId := Some(rid));
        stats' := stats.(created := stats.created + 1);
      }
    }

    /** `_push_to_keep`: `rows` is the SELECT's result in fetch order. */
    method PushToKeep(env: Env) returns (stats: PushStats, rows: seq<Note>)
      requires Valid()
      modifies this, db
      ensures Valid()
      ensures RowsOf(rows, old(db.notes), NeedsPush)
      ensures PushState(db.notes, remote, db.syncLog, stats)
        == Push(PushState(old(db.notes), old(remote), old(db.syncLog), PushStats(0, 0, 0)), rows, env, db.md5)
      ensures db.labels == old(db.labels) && db.settings == old(db.settings)
      ensures isAuthenticated == old(isAuthenticated) && syncInProgress == old(syncInProgress)
      ensures lastSync == old(lastSync) && notices == old(notices)
    {
      rows := db.Select(NeedsPush);
      ghost var start := PushState(db.notes, remote, db.syncLog, PushStats(0, 0, 0));
      stats := PushStats(0, 0, 0);
      var i := 0;
      while i < |rows|
        invariant 0 <= i <= |rows|
        invariant Valid()
        invariant PushState(db.notes, remote, db.syncLog, stats) == Push(start, rows[..i], env, db.md5)
        invariant db.labels == old(db.labels) && db.settings == old(db.settings)
        invariant isAuthenticated == old(isAuthenticated) && syncInProgress == old(syncInProgress)
        invariant lastSync == old(lastSync) && notices == old(notices)
      {
        PushSnoc(start, rows, i, env, db.md5);
        stats := PushOne(rows[i], stats, env);
        i := i + 1;
      }
      assert rows[..|rows|] == rows;
    }

    /** The state a cycle's result describes has been reached. */
    ghost predicate Reached(c: CycleResult)
      reads this, db
    {
      db.notes == c.notes && remote == c.remote && db.syncLog == c.log && db.settings == c.settings
    }

    /** The committing `keep.sync()` and what `sync` does after it. */
    method Commit(pulled: nat, pushed: nat, env: Env) returns (success: bool, message: string, stats: SyncStats, ghost c: CycleResult)
      requires Valid()
      modifies this, db
      ensures Valid()
      ensures c == Committed(pulled, pushed, old(db.notes), old(remote), old(db.syncLog), old(db.settings), env)
      ensures Reached(c) && success == c.success && message == c.message && stats == c.stats
      ensures lastSync == (if c.success then Some(env.now) else old(lastSync))
      ensures notices == old(notices) + [c.notice]
      ensures db.labels == old(db.labels)
      ensures isAuthenticated == old(isAuthenticated) && syncInProgress == old(syncInProgress)
    {
      c := Committed(pulled, pushed, db.notes, remote, db.syncLog, db.settings, env);
      if env.commitFailure.Some? {
        var e := env.commitFailure.value;
        db.LogSync("sync", "", "error", e, env.now);
        success, message, stats := false, "Sync error: " + e, Stats(pulled, pushed, 0, 1);
        notices := notices + [SyncFailed(message)];
      } else {
        lastSync := Some(env.now);
        var ok := db.SetSetting("last_sync", SettingTime(env.now));
        success, message, stats := true, "Sync completed successfully", Stats(pulled, pushed, 0, 0);
        notices := notices + [SyncedCounts(pulled, pushed)];
      }
    }

    /** The `try` block of `sync` after the refreshing `keep.sync()` succeeded with `snapshot`. */
    method PullPushCommit(snapshot: map<string, RemoteNote>, env: Env)
      returns (success: bool, message: string, stats: SyncStats, trace: Trace, ghost c: CycleResult)
      requires Valid() && RemoteKeyed(snapshot)
      modifies this, db
      ensures Valid()
      ensures |trace.matches| == |trace.pulled|
      ensures TraceFits(old(db.notes), old(db.syncLog), snapshot, trace, env, db.md5)
      ensures c == AfterRefresh(old(db.notes), snapshot, old(db.syncLog), old(db.settings), trace, env, db.md5)
      ensures Reached(c) && success == c.success && message == c.message && stats == c.stats
      ensures lastSync == (if c.success then Some(env.now) else old(lastSync))
      ensures notices == old(notices) + [c.notice]
      ensures db.labels == old(db.labels)
      ensures isAuthenticated == old(isAuthenticated) && syncInProgress == old(syncInProgress)
    {
      remote := snapshot;
      var pullStats, pulled, matches := PullFromKeep(env);
      var pushStats, rows := PushToKeep(env);
      trace := Trace(pulled, matches, rows);
      var pulledCount, pushedCount := pullStats.added + pullStats.updated, pushStats.created + pushStats.updated;
      AfterRefreshIsCommitted(old(db.notes), snapshot, old(db.syncLog), old(db.settings), trace, env, db.md5,
                              pulledCount, pushedCount, db.notes, remote, db.syncLog);
      success, message, stats, c := Commit(pulledCount, pushedCount, env);
    }

    /**
     * `sync`: refused when not signed in or when a cycle is running;
     * otherwise one cycle, after which the in-progress flag is down again
     * whichever way the cycle ended.
     */
    method Sync(env: Env) returns (success: bool, message: string, stats: SyncStats, trace: Trace)
      requires Valid()
      requires env.refresh.Ok? ==> RemoteKeyed(env.refresh.value)
      modifies this, db
      ensures Valid()
      ensures !old(isAuthenticated) ==>
        !success && message == "Not authenticated with Google Keep" && stats == NoStats && unchanged(this, db)
      ensures old(isAuthenticated) && old(syncInProgress) ==>
        !success && message == "Sync already in progress" && stats == NoStats && unchanged(this, db)
      ensures old(isAuthenticated) && !old(syncInProgress) ==>
        && |trace.matches| == |trace.pulled|
        && (env.refresh.Ok? ==> TraceFits(old(db.notes), old(db.syncLog), env.refresh.value, trace, env, db.md5))
        && (var c := Cycle(old(db.notes), old(remote), old(db.syncLog), old(db.settings), trace, env, db.md5);
            && Reached(c) && success == c.success && message == c.message && stats == c.stats
            && lastSync == (if c.success then Some(env.now) else old(lastSync))
            && notices == old(notices) + [Syncing, c.notice])
        && db.labels == old(db.labels) && !syncInProgress && isAuthenticated
    {
      trace := Trace([], [], []);
      if !isAuthenticated {
        return false, "Not authenticated with Google Keep", NoStats, trace;
      }
      if syncInProgress {
        return false, "Sync already in progress", NoStats, trace;
      }
      syncInProgress := true;
      notices := notices + [Syncing];
      ghost var before := notices;
      ghost var c;
      match env.refresh {
        case Err(e) =>
          success, message, stats, c := Abort(e, env);
        case Ok(snapshot) =>
          success, message, stats, trace, c := PullPushCommit(snapshot, env);
      }
      assert c == Cycle(old(db.notes), old(remote), old(db.syncLog), old(db.settings), trace, env, db.md5);
      assert notices == before + [c.notice];
      assert before + [c.notice] == old(notices) + [Syncing, c.notice];
      syncInProgress := false;
    }

    /** The `except` branch of `sync` for a failing `keep.sync()`: log the error and report it. */
    method Abort(e: string, env: Env) returns (success: bool, message: string, stats: SyncStats, ghost c: CycleResult)
      requires Valid()
      modifies this, db
      ensures Valid()
      ensures c == Aborted(e, Stats(0, 0, 0, 1), old(db.notes), old(remote), old(db.syncLog), old(db.settings), env)
      ensures Reached(c) && success == c.success && message == c.message && stats == c.stats
      ensures notices == old(notices) + [c.notice]
      ensures db.labels == old(db.labels) && lastSync == old(lastSync)
      ensures isAuthenticated == old(isAuthenticated) && syncInProgress == old(syncInProgress)
    {
      c := Aborted(e, Stats(0, 0, 0, 1), db.notes, remote, db.syncLog, db.settings, env);
      db.LogSync("sync", "", "error", e, env.now);
      success, message, stats := false, "Sync error: " + e, Stats(0, 0, 0, 1);
      notices := notices + [SyncFailed(message)];
    }

    /**
     * `unlink_note`: false for an unknown id. Otherwise the note is saved
     * without its keep_id and as local_only; when asked, signed in and linked,
     * its remote note is deleted first, a failure there being only logged.
     */
    method UnlinkNote(noteId: string, deleteFromKeep: bool, failure: Option<string>, now: Timestamp) returns (ok: bool)
      requires Valid()
      modifies this, db
      ensures Valid()
      ensures ok <==> noteId in old(db.notes)
      ensures !ok ==> unchanged(this, db)
      ensures ok ==>
        var note := old(db.notes)[noteId];
        var deleting := deleteFromKeep && IsLinked(note) && isAuthenticated;
        && db.notes == old(db.notes)[noteId := Unlinked(note, now, db.md5)]
        && remote == (if deleting && failure.None? then old(remote) - {note.keepId.value} else old(remote))
        && db.syncLog == (if deleting && failure.Some?
                          then old(db.syncLog) + [LogEntry(now, "unlink", noteId, "error", failure.value)]
                          else old(db.syncLog))
        && db.labels == old(db.labels) && db.settings == old(db.settings)
      ensures isAuthenticated == old(isAuthenticated) && syncInProgress == old(syncInProgress)
      ensures lastSync == old(lastSync) && notices == old(notices)
    {
      var found := db.GetNote(noteId);
      if found.None? {
        return false;
      }
      var note := found.value;
      if deleteFromKeep && IsLinked(note) && isAuthenticated {
        DeleteRemote(note, failure, now);
      }
      var saved, _ := db.SaveNote(note.(keepId := None, syncStatus := LocalOnly), now);
      ok := true;
    }

    /** `keep_note.delete()` for a linked note; a failure is logged and the note stays in Keep. */
    method DeleteRemote(note: Note, failure: Option<string>, now: Timestamp)
      requires Valid() && IsLinked(note)
      modifies this, db
      ensures Valid()
      ensures remote == (if failure.None? then old(remote) - {note.keepId.value} else old(remote))
      ensures db.syncLog == (if failure.Some?
                             then old(db.syncLog) + [LogEntry(now, "unlink", note.id, "error", failure.value)]
                             else old(db.syncLog))
      ensures db.notes == old(db.notes) && db.labels == old(db.labels) && db.settings == old(db.settings)
      ensures isAuthenticated == old(isAuthenticated) && syncInProgress == old(syncInProgress)
      ensures lastSync == old(lastSync) && notices == old(notices)
    {
      if failure.Some? {
        db.LogSync("unlink", note.id, "error", failure.value, now);
      } else {
        remote := remote - {note.keepId.value};
      }
    }
  }
}
