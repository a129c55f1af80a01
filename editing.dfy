/**
 * The note editor's effects on the data: adding a label without duplicating
 * it, and the edits (`_save_note`, `_toggle_pin`, `_archive_note`) that mark
 * a note linked to Keep as `pending_push`, so that the next push sends it.
 */
module Editing {
  import opened Wrappers
  import opened Notes
  import opened Store
  import opened KeepSync

  // ---------------------------------------------------------------------------
  // str.strip()
  // ---------------------------------------------------------------------------

  /**
   * The characters `str.isspace` accepts (Unicode category Zs or
   * bidirectional class WS, B or S): tab to carriage return, the separators
   * 28 to 31, space, NEL, no-break space, the Ogham space mark, the spaces
   * U+2000 to U+200A, the line and paragraph separators, the narrow no-break
   * space, the medium mathematical space and the ideographic space.
   */
  predicate IsSpace(c: char) {
    var n := c as int;
    || n == 0x20 || 0x09 <= n <= 0x0D || 0x1C <= n <= 0x1F
    || n == 0x85 || n == 0xA0 || n == 0x1680
    || 0x2000 <= n <= 0x200A || n == 0x2028 || n == 0x2029 || n == 0x202F || n == 0x205F
    || n == 0x3000
  }

  /** `s` without its leading whitespace. */
  function TrimStart(s: string): (r: string)
    ensures |r| <= |s| && r == s[|s| - |r|..]
    ensures forall k :: 0 <= k < |s| - |r| ==> IsSpace(s[k])
    ensures r != [] ==> !IsSpace(r[0])
    decreases |s|
  {
    if s != [] && IsSpace(s[0]) then TrimStart(s[1..]) else s
  }

  /** `s` without its trailing whitespace. */
  function TrimEnd(s: string): (r: string)
    ensures |r| <= |s| && r == s[..|r|]
    ensures forall k :: |r| <= k < |s| ==> IsSpace(s[k])
    ensures r != [] ==> !IsSpace(r[|r| - 1])
    decreases |s|
  {
    if s != [] && IsSpace(s[|s| - 1]) then TrimEnd(s[..|s| - 1]) else s
  }

  /** `s.strip()`: a slice of `s` that neither starts nor ends with whitespace; only whitespace is cut. */
  function Strip(s: string): (r: string)
    ensures |r| <= |s|
    ensures r != [] ==> !IsSpace(r[0]) && !IsSpace(r[|r| - 1])
  {
    TrimEnd(TrimStart(s))
  }

  /** Whether `s` is all whitespace. */
  predicate Blank(s: string) {
    forall k :: 0 <= k < |s| ==> IsSpace(s[k])
  }

  /** A string strips to nothing (is falsy after `strip()`) exactly when it is blank. */
  lemma StripEmptyIff(s: string)
    ensures Strip(s) == [] <==> Blank(s)
  {
    var t := TrimStart(s);
    if Strip(s) == [] {
      TrimEndEmpty(t);
    }
  }

  lemma TrimEndEmpty(t: string)
    requires TrimEnd(t) == []
    ensures Blank(t)
  {
  }

  // ---------------------------------------------------------------------------
  // Labels
  // ---------------------------------------------------------------------------

  /** No label occurs twice. */
  predicate NoDuplicates(labels: seq<string>) {
    forall i, j :: 0 <= i < j < |labels| ==> labels[i] != labels[j]
  }

  /**
   * `_add_label`: the stripped entry is appended when it is not blank and
   * not already one of the note's labels; otherwise nothing changes.
   */
  function AddLabel(labels: seq<string>, entry: string): (r: seq<string>)
    ensures labels <= r && |r| <= |labels| + 1
    ensures Strip(entry) != "" ==> Strip(entry) in r
    ensures forall l :: l in r <==> l in labels || (l == Strip(entry) && l != "")
    ensures Strip(entry) in labels || Strip(entry) == "" ==> r == labels
  {
    var tag := Strip(entry);
    if tag != "" && tag !in labels then labels + [tag] else labels
  }

  /** Adding a label keeps a label list free of duplicates. */
  lemma AddLabelKeepsNoDuplicates(labels: seq<string>, entry: string)
    requires NoDuplicates(labels)
    ensures NoDuplicates(AddLabel(labels, entry))
  {
    var r := AddLabel(labels, entry);
    if r != labels {
      forall i, j | 0 <= i < j < |r|
        ensures r[i] != r[j]
      {
        if j == |labels| {
          assert r[i] == labels[i];
        }
      }
    }
  }

  /** Adding the same entry twice is adding it once. */
  lemma AddLabelIdempotent(labels: seq<string>, entry: string)
    ensures AddLabel(AddLabel(labels, entry), entry) == AddLabel(labels, entry)
  {
  }

  /** An entry of Unicode spaces, such as a no-break or an ideographic space, adds no label. */
  lemma UnicodeSpacesAddNoLabel(labels: seq<string>)
    ensures AddLabel(labels, "\U{00A0}") == labels
    ensures AddLabel(labels, "\U{3000}\U{2003} ") == labels
  {
    NoBreakSpaceIsBlank();
    IdeographicSpacesAreBlank();
  }

  lemma NoBreakSpaceIsBlank()
    ensures Strip("\U{00A0}") == ""
  {
    var s := "\U{00A0}";
    assert IsSpace(s[0]);
    StripEmptyIff(s);
  }

  lemma IdeographicSpacesAreBlank()
    ensures Strip("\U{3000}\U{2003} ") == ""
  {
    var s := "\U{3000}\U{2003} ";
    assert IsSpace(s[0]) && IsSpace(s[1]) && IsSpace(s[2]);
    StripEmptyIff(s);
  }

  // ---------------------------------------------------------------------------
  // Local edits
  // ---------------------------------------------------------------------------

  /**
   * The sync bookkeeping of every local edit: `local_modified` becomes the
   * current time, and a note linked to Keep becomes `pending_push`.
   */
  function Touched(n: Note, now: Timestamp): (r: Note)
    ensures r.localModified == Some(now)
    ensures r.syncStatus == if IsLinked(n) then PendingPush else n.syncStatus
    ensures r.(localModified := n.localModified, syncStatus := n.syncStatus) == n
  {
    var m := n.(localModified := Some(now));
    if IsLinked(n) then m.(syncStatus := PendingPush) else m
  }

  /** A checklist row of the editor: its entry text and its check box. */
  datatype ItemRow = ItemRow(text: string, checked: bool)

  /** What the editor's widgets hold when the note is saved. */
  datatype EditorContent = EditorContent(title: string, noteType: NoteType, text: string, rows: seq<ItemRow>)

  /**
   * The checklist rows whose entry is not blank (`if widget.entry.get().strip()`,
   * see `StripEmptyIff`), as new items; the `j`-th draws the uuid `ids(j)`.
   */
  function KeptItems(rows: seq<ItemRow>, ids: nat -> string): (r: seq<ChecklistItem>)
    ensures |r| <= |rows|
    ensures forall j :: 0 <= j < |r| ==> !Blank(r[j].text) && r[j].id == ids(j)
    decreases |rows|
  {
    if rows == [] then []
    else
      var r := KeptItems(rows[..|rows| - 1], ids);
      var w := rows[|rows| - 1];
      if !Blank(w.text) then r + [ChecklistItem(w.text, w.checked, ids(|r|))] else r
  }

  /** Every non-blank row of `rows` is among `items`, with its text and check mark. */
  predicate CoversRows(rows: seq<ItemRow>, items: seq<ChecklistItem>) {
    forall k :: 0 <= k < |rows| && !Blank(rows[k].text) ==>
      exists j :: 0 <= j < |items| && items[j].text == rows[k].text && items[j].checked == rows[k].checked
  }

  /** Every non-blank row becomes an item with its text and check mark. */
  lemma {:induction false} KeptItemsCoverRows(rows: seq<ItemRow>, ids: nat -> string)
    ensures CoversRows(rows, KeptItems(rows, ids))
    decreases |rows|
  {
    if rows != [] {
      var p := rows[..|rows| - 1];
      KeptItemsCoverRows(p, ids);
      var q := KeptItems(p, ids);
      var r := KeptItems(rows, ids);
      var w := rows[|rows| - 1];
      var kept := !Blank(w.text);
      assert r == if kept then q + [ChecklistItem(w.text, w.checked, ids(|q|))] else q;
      forall k | 0 <= k < |rows| && !Blank(rows[k].text)
        ensures exists j :: 0 <= j < |r| && r[j].text == rows[k].text && r[j].checked == rows[k].checked
      {
        if k < |p| {
          assert rows[k] == p[k];
          var j :| 0 <= j < |q| && q[j].text == p[k].text && q[j].checked == p[k].checked;
          assert r[j] == q[j];
        } else {
          assert rows[k] == w && kept;
          assert r[|q|].text == rows[k].text && r[|q|].checked == rows[k].checked;
        }
      }
      assert CoversRows(rows, r);
    }
  }

  /** A checklist whose rows are all blank saves no items. */
  lemma {:induction false} BlankRowsKeepNothing(rows: seq<ItemRow>, ids: nat -> string)
    requires forall k :: 0 <= k < |rows| ==> Blank(rows[k].text)
    ensures KeptItems(rows, ids) == []
    decreases |rows|
  {
    if rows != [] {
      BlankRowsKeepNothing(rows[..|rows| - 1], ids);
    }
  }

  /**
   * `_save_note`'s update of the note from the editor: title and type; a
   * checklist takes the non-blank rows and drops the text, a plain note
   * takes the text and drops the items. Nothing else changes here.
   */
  function Edited(n: Note, e: EditorContent, ids: nat -> string): (r: Note)
    ensures r.title == e.title && r.noteType == e.noteType
    ensures e.noteType == Checklist ==> r.content == "" && r.checklistItems == KeptItems(e.rows, ids)
    ensures e.noteType == PlainNote ==> r.content == e.text && r.checklistItems == []
    ensures r.(title := n.title, noteType := n.noteType, content := n.content, checklistItems := n.checklistItems) == n
  {
    var m := n.(title := e.title, noteType := e.noteType);
    if e.noteType == Checklist then m.(checklistItems := KeptItems(e.rows, ids), content := "")
    else m.(content := e.text, checklistItems := [])
  }

  /** `_toggle_pin`: the pin flips, and the edit is bookkept. */
  function TogglePin(n: Note, now: Timestamp): (r: Note)
    ensures r.pinned == !n.pinned && r == Touched(n.(pinned := r.pinned), now)
  {
    Touched(n.(pinned := !n.pinned), now)
  }

  /** `_archive_note`: the note is archived, and the edit is bookkept. */
  function Archive(n: Note, now: Timestamp): (r: Note)
    ensures r.archived && r == Touched(n.(archived := true), now)
  {
    Touched(n.(archived := true), now)
  }

  /**
   * A saved edit of a linked note that is not in the trash is selected by
   * the next push, which, when it succeeds, sends it to the note's own
   * remote note and stores it as synced with the edited content.
   */
  lemma EditedLinkedNoteIsPushed(n: Note, now: Timestamp, md5: Fingerprint -> string, s: PushState, env: KeepSync.Env)
    requires IsLinked(n) && !n.trashed
    ensures var u := Saved(Touched(n, now), now, md5);
      && u.syncStatus == PendingPush && NeedsPush(u)
      && (u.id !in env.pushFailures ==>
            var p := PushStep(s, u, env, md5).notes[n.id];
            && p.syncStatus == Synced && p.keepId == n.keepId
            && p.title == n.title && p.content == n.content && p.checklistItems == n.checklistItems
            && p.labels == n.labels)
  {
    var u := Saved(Touched(n, now), now, md5);
    PushSuccessSyncsIfOk(s, u, env, md5);
  }

  lemma PushSuccessSyncsIfOk(s: PushState, u: Note, env: KeepSync.Env, md5: Fingerprint -> string)
    ensures u.id !in env.pushFailures ==>
      var p := PushStep(s, u, env, md5).notes[u.id];
      && p.syncStatus == Synced && p.keepId == (if IsLinked(u) then u.keepId else Some(env.remoteIds(u.id)))
      && p.title == u.title && p.content == u.content && p.checklistItems == u.checklistItems && p.labels == u.labels
  {
    if u.id !in env.pushFailures {
      PushSuccessSyncs(s, u, env, md5);
    }
  }

  /** An edit never withdraws a note from the push: a note the push selected stays selected. */
  lemma TouchedStaysSelected(n: Note, now: Timestamp, md5: Fingerprint -> string)
    requires NeedsPush(n)
    ensures NeedsPush(Saved(Touched(n, now), now, md5))
  {
  }

  /** Pinning or archiving a linked note that is not in the trash also queues it for the push. */
  lemma PinAndArchiveQueueLinkedNote(n: Note, now: Timestamp, md5: Fingerprint -> string)
    requires IsLinked(n) && !n.trashed
    ensures NeedsPush(Saved(TogglePin(n, now), now, md5)) && NeedsPush(Saved(Archive(n, now), now, md5))
    ensures Saved(TogglePin(n, now), now, md5).syncStatus == PendingPush
    ensures Saved(Archive(n, now), now, md5).syncStatus == PendingPush
  {
  }

  /** An edit of a note without a Keep link leaves its sync status alone. */
  lemma UnlinkedEditKeepsStatus(n: Note, e: EditorContent, ids: nat -> string, now: Timestamp, md5: Fingerprint -> string)
    requires !IsLinked(n)
    ensures Saved(Touched(Edited(n, e, ids), now), now, md5).syncStatus == n.syncStatus
  {
  }

  // ---------------------------------------------------------------------------
  // The edits as the editor saves them
  // ---------------------------------------------------------------------------

  /** `_save_note`: the editor's content is written into the note, bookkept and saved. */
  method SaveEdits(db: NoteStore, n: Note, e: EditorContent, ids: nat -> string, now: Timestamp)
    returns (saved: Note)
    requires db.Valid()
    modifies db
    ensures db.Valid()
    ensures saved == Saved(Touched(Edited(n, e, ids), now), now, db.md5)
    ensures db.notes == old(db.notes)[n.id := saved]
    ensures db.labels == old(db.labels) && db.settings == old(db.settings) && db.syncLog == old(db.syncLog)
  {
    var ok;
    ok, saved := db.SaveNote(Touched(Edited(n, e, ids), now), now);
  }

  /** `_toggle_pin`: the note with its pin flipped is saved. */
  method SaveTogglePin(db: NoteStore, n: Note, now: Timestamp) returns (saved: Note)
    requires db.Valid()
    modifies db
    ensures db.Valid()
    ensures saved == Saved(TogglePin(n, now), now, db.md5)
    ensures db.notes == old(db.notes)[n.id := saved]
    ensures db.labels == old(db.labels) && db.settings == old(db.settings) && db.syncLog == old(db.syncLog)
  {
    var ok;
    ok, saved := db.SaveNote(TogglePin(n, now), now);
  }

  /** `_archive_note`: the archived note is saved. */
  method SaveArchive(db: NoteStore, n: Note, now: Timestamp) returns (saved: Note)
    requires db.Valid()
    modifies db
    ensures db.Valid()
    ensures saved == Saved(Archive(n, now), now, db.md5)
    ensures db.notes == old(db.notes)[n.id := saved]
    ensures db.labels == old(db.labels) && db.settings == old(db.settings) && db.syncLog == old(db.syncLog)
  {
    var ok;
    ok, saved := db.SaveNote(Archive(n, now), now);
  }
}
