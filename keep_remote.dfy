/**
 * The Google Keep side of the sync: a remote note as gkeepapi presents it,
 * the conversion of a remote note into a local one (`_keep_note_to_local`),
 * and the two remote mutations push performs, each taken as a single step
 * on the remote note (`_create_keep_note`, `_update_keep_note`).
 */
module KeepRemote {
  import opened Wrappers
  import opened Notes

  datatype RemoteItem = RemoteItem(text: string, checked: bool)

  /** What the sync reads of a gkeepapi note. `color` is the colour enum's value. */
  datatype RemoteNote = RemoteNote(
    id: string,
    title: string,
    text: string,
    items: seq<RemoteItem>,
    labels: seq<string>,
    pinned: bool,
    archived: bool,
    trashed: bool,
    color: string,
    updated: Timestamp,
    created: Option<Timestamp>)

  /** The remote account: every note sits under its own id. */
  predicate RemoteKeyed(remote: map<string, RemoteNote>) {
    forall k :: k in remote ==> remote[k].id == k
  }

  /** Storing a note under its own id keeps the account keyed by id. */
  lemma PutKeepsKeyed(remote: map<string, RemoteNote>, r: RemoteNote)
    requires RemoteKeyed(remote)
    ensures RemoteKeyed(remote[r.id := r])
  {
  }

  /** The colour gkeepapi gives a new note (`ColorValue.White`). */
  const DefaultColor: string := "DEFAULT"

  /** A checklist item as Keep sees it: text and tick, without the local item id. */
  function ItemsView(items: seq<ChecklistItem>): (r: seq<RemoteItem>)
    ensures |r| == |items|
    ensures forall i :: 0 <= i < |r| ==> r[i] == RemoteItem(items[i].text, items[i].checked)
  {
    seq(|items|, i requires 0 <= i < |items| => RemoteItem(items[i].text, items[i].checked))
  }

  /**
   * `_keep_note_to_local`: a remote note with items becomes a checklist with
   * empty content, any other a plain note carrying the remote text. An
   * existing local note lends its id and creation time; otherwise the id is
   * fresh and the creation time is the remote one, or now. Sync status is the
   * record's default; the caller sets it.
   */
  function KeepNoteToLocal(r: RemoteNote, existing: Option<Note>, freshId: string, itemIds: nat -> string,
                           now: Timestamp, md5: Fingerprint -> string): (n: Note)
    ensures n.id == (if existing.Some? then existing.value.id else freshId)
    ensures n.keepId == Some(r.id) && n.remoteModified == Some(r.updated) && n.localModified == None
    ensures n.syncStatus == LocalOnly
    ensures n.title == r.title && n.labels == r.labels && n.color == r.color
    ensures n.pinned == r.pinned && n.archived == r.archived && n.trashed == r.trashed
    ensures n.noteType == Checklist <==> |r.items| > 0
    ensures n.noteType == Checklist ==> n.content == "" && ItemsView(n.checklistItems) == r.items
    ensures n.noteType == PlainNote ==> n.content == r.text && n.checklistItems == []
    ensures forall i :: 0 <= i < |n.checklistItems| ==> n.checklistItems[i].id == itemIds(i)
    ensures n.createdAt == (if existing.Some? then existing.value.createdAt else r.created.GetOr(now))
    ensures n.updatedAt == now && HashCurrent(n, md5)
  {
    var isList := |r.items| > 0;
    var items := if isList
      then seq(|r.items|, i requires 0 <= i < |r.items| => ChecklistItem(r.items[i].text, r.items[i].checked, itemIds(i)))
      else [];
    assert isList ==> forall i :: 0 <= i < |items| ==> ItemsView(items)[i] == r.items[i];
    assert isList ==> ItemsView(items) == r.items;
    UpdateHash(Note(
      id := if existing.Some? then existing.value.id else freshId,
      title := r.title,
      content := if isList then "" else r.text,
      noteType := if isList then Checklist else PlainNote,
      checklistItems := items,
      labels := r.labels,
      pinned := r.pinned,
      archived := r.archived,
      trashed := r.trashed,
      color := r.color,
      keepId := Some(r.id),
      syncStatus := LocalOnly,
      localModified := None,
      remoteModified := Some(r.updated),
      contentHash := "",
      createdAt := if existing.Some? then existing.value.createdAt else r.created.GetOr(now),
      updatedAt := now), md5)
  }

  /**
   * `_create_keep_note`: a list (title and items) for a checklist, a text
   * note otherwise; pinned, archived and the labels are copied. Keep gives the
   * note the id `rid` and stamps it with the current time.
   */
  function CreateRemote(n: Note, rid: string, now: Timestamp): (r: RemoteNote)
    ensures r.id == rid && r.title == n.title && r.labels == n.labels
    ensures r.pinned == n.pinned && r.archived == n.archived && !r.trashed
    ensures n.noteType == Checklist ==> r.items == ItemsView(n.checklistItems) && r.text == ""
    ensures n.noteType == PlainNote ==> r.items == [] && r.text == n.content
    ensures r.updated == now && r.created == Some(now)
  {
    RemoteNote(
      id := rid,
      title := n.title,
      text := if n.noteType == Checklist then "" else n.content,
      items := if n.noteType == Checklist then ItemsView(n.checklistItems) else [],
      labels := n.labels,
      pinned := n.pinned,
      archived := n.archived,
      trashed := false,
      color := DefaultColor,
      updated := now,
      created := Some(now))
  }

  /**
   * `_update_keep_note`: title, text (emptied for a checklist), pinned and
   * archived are overwritten; the items, labels, trash flag and colour of the
   * remote note are left as they were.
   */
  function UpdateRemote(k: RemoteNote, n: Note, now: Timestamp): (r: RemoteNote)
    ensures r.id == k.id && r.items == k.items && r.labels == k.labels
    ensures r.trashed == k.trashed && r.color == k.color && r.created == k.created
    ensures r.title == n.title && r.pinned == n.pinned && r.archived == n.archived
    ensures r.text == (if n.noteType == Checklist then "" else n.content)
    ensures r.updated == now
  {
    k.(title := n.title,
       text := if n.noteType == Checklist then "" else n.content,
       pinned := n.pinned,
       archived := n.archived,
       updated := now)
  }

  /** A note's kind agrees with its items: a checklist has some, a plain note none. */
  predicate KindConsistent(n: Note) {
    (n.noteType == Checklist && |n.checklistItems| > 0) || (n.noteType == PlainNote && n.checklistItems == [])
  }

  /**
   * Creating a note on Keep and pulling it back over the same local note
   * gives back its content: title, kind, items (text and tick), labels,
   * pinned, archived and, for a plain note, the text, with the link to the
   * new remote note.
   */
  lemma CreateThenPullRoundTrip(n: Note, rid: string, now: Timestamp, itemIds: nat -> string,
                                later: Timestamp, md5: Fingerprint -> string)
    requires KindConsistent(n)
    ensures var m := KeepNoteToLocal(CreateRemote(n, rid, now), Some(n), n.id, itemIds, later, md5);
      && m.id == n.id && m.title == n.title && m.noteType == n.noteType
      && (n.noteType == PlainNote ==> m.content == n.content)
      && ItemsView(m.checklistItems) == ItemsView(n.checklistItems)
      && m.labels == n.labels && m.pinned == n.pinned && m.archived == n.archived
      && m.keepId == Some(rid) && m.remoteModified == Some(now) && m.createdAt == n.createdAt
  {
    var r := CreateRemote(n, rid, now);
    if n.noteType == Checklist {
      assert |r.items| == |n.checklistItems| > 0;
    }
  }

  /**
   * Updating a plain note on Keep and pulling it back over the same local
   * note gives back its title, content, pinned and archived only when the
   * remote note had no items; the items and labels always come from Keep.
   */
  lemma UpdateThenPullPlain(k: RemoteNote, n: Note, now: Timestamp, itemIds: nat -> string,
                            later: Timestamp, md5: Fingerprint -> string)
    requires n.noteType == PlainNote && k.items == []
    ensures var m := KeepNoteToLocal(UpdateRemote(k, n, now), Some(n), n.id, itemIds, later, md5);
      && m.id == n.id && m.title == n.title && m.content == n.content && m.noteType == PlainNote
      && m.pinned == n.pinned && m.archived == n.archived && m.labels == k.labels
      && m.keepId == Some(k.id) && m.remoteModified == Some(now)
  {
  }
}
