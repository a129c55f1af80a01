/**
 * The note record and its sync metadata (keepsync_notes.py, "DATA MODELS"):
 * the status taxonomy, checklist items, notes and labels, the content hash,
 * and the `to_dict`/`from_dict` serialisation every backup and export uses.
 */
module Notes {
  import opened Wrappers
  import opened Json

  /** A point in time. `datetime` values are modelled by the instant they denote. */
  type Timestamp = nat

  /** `datetime.min`, the value a missing `remote_modified` is compared as. */
  const DatetimeMin: Timestamp := 0

  datatype SyncStatus = LocalOnly | Synced | PendingPush | PendingPull | Conflict | DeletedRemote | Error

  /** The lower-case string an enum member is stored and exported as. */
  function StatusValue(s: SyncStatus): string {
    match s
    case LocalOnly => "local_only"
    case Synced => "synced"
    case PendingPush => "pending_push"
    case PendingPull => "pending_pull"
    case Conflict => "conflict"
    case DeletedRemote => "deleted_remote"
    case Error => "error"
  }

  /** `SyncStatus(value)`; `None` where Python raises ValueError. */
  function ParseStatus(v: string): Option<SyncStatus> {
    if v == "local_only" then Some(LocalOnly)
    else if v == "synced" then Some(Synced)
    else if v == "pending_push" then Some(PendingPush)
    else if v == "pending_pull" then Some(PendingPull)
    else if v == "conflict" then Some(Conflict)
    else if v == "deleted_remote" then Some(DeletedRemote)
    else if v == "error" then Some(Error)
    else None
  }

  /** A string names a status exactly when it is that status's value. */
  lemma ParseStatusIsInverse(v: string, s: SyncStatus)
    ensures ParseStatus(v) == Some(s) <==> v == StatusValue(s)
  {
  }

  datatype NoteType = PlainNote | Checklist

  function NoteTypeValue(t: NoteType): string {
    match t
    case PlainNote => "note"
    case Checklist => "checklist"
  }

  function ParseNoteType(v: string): Option<NoteType> {
    if v == "note" then Some(PlainNote)
    else if v == "checklist" then Some(Checklist)
    else None
  }

  lemma ParseNoteTypeIsInverse(v: string, t: NoteType)
    ensures ParseNoteType(v) == Some(t) <==> v == NoteTypeValue(t)
  {
  }

  datatype ChecklistItem = ChecklistItem(text: string, checked: bool, id: string)

  datatype Note = Note(
    id: string,
    title: string,
    content: string,
    noteType: NoteType,
    checklistItems: seq<ChecklistItem>,
    labels: seq<string>,
    pinned: bool,
    archived: bool,
    trashed: bool,
    color: string,
    // sync metadata
    keepId: Option<string>,
    syncStatus: SyncStatus,
    localModified: Option<Timestamp>,
    remoteModified: Option<Timestamp>,
    contentHash: string,
    // timestamps
    createdAt: Timestamp,
    updatedAt: Timestamp)

  datatype Label = Label(id: string, name: string, color: string, keepId: Option<string>)

  /** A note is linked when its `keep_id` is truthy: present and not empty. */
  predicate IsLinked(n: Note) {
    n.keepId.Some? && n.keepId.value != ""
  }

  // ---------------------------------------------------------------------------
  // The content hash
  // ---------------------------------------------------------------------------

  /** Everything `update_hash` feeds to md5: title, content, the item dicts, pinned, archived. */
  datatype Fingerprint = Fingerprint(
    title: string, content: string, items: seq<ChecklistItem>, pinned: bool, archived: bool)

  function FingerprintOf(n: Note): Fingerprint {
    Fingerprint(n.title, n.content, n.checklistItems, n.pinned, n.archived)
  }

  /** The stored hash is the digest of the note's current fingerprint. */
  predicate HashCurrent(n: Note, md5: Fingerprint -> string) {
    n.contentHash == md5(FingerprintOf(n))
  }

  /** `update_hash`: recomputes `content_hash` and touches nothing else. */
  function UpdateHash(n: Note, md5: Fingerprint -> string): (r: Note)
    ensures HashCurrent(r, md5)
    ensures r.(contentHash := n.contentHash) == n
  {
    n.(contentHash := md5(FingerprintOf(n)))
  }

  /**
   * The hash depends on nothing but title, content, checklist items, pinned
   * and archived: labels, trash, colour, sync metadata and timestamps may all
   * change without changing it.
   */
  lemma HashIgnoresMetadata(n: Note, m: Note, md5: Fingerprint -> string)
    requires n.title == m.title && n.content == m.content && n.checklistItems == m.checklistItems
    requires n.pinned == m.pinned && n.archived == m.archived
    ensures UpdateHash(n, md5).contentHash == UpdateHash(m, md5).contentHash
    ensures HashCurrent(n, md5) && n.contentHash == m.contentHash ==> HashCurrent(m, md5)
  {
  }

  // ---------------------------------------------------------------------------
  // to_dict / from_dict
  // ---------------------------------------------------------------------------

  function ItemToDict(i: ChecklistItem): Json {
    JObj(map["id" := JStr(i.id), "text" := JStr(i.text), "checked" := JBool(i.checked)])
  }

  /** `ChecklistItem.from_dict`; `freshId` is the uuid4 used when the dict has no id. */
  function ItemFromDict(j: Json, freshId: string): (r: Result<ChecklistItem, DecodeError>)
    ensures r.Ok? ==> j.JObj? && (("id" !in j.fields) ==> r.value.id == freshId)
  {
    match j
    case JObj(d) =>
      var id :- GetStr(d, "id", freshId);
      var text :- GetStr(d, "text", "");
      var checked :- GetBool(d, "checked", false);
      Ok(ChecklistItem(text, checked, id))
    case _ => Err(WrongType("checklist_items"))
  }

  lemma ItemRoundTrip(i: ChecklistItem, freshId: string)
    ensures ItemFromDict(ItemToDict(i), freshId) == Ok(i)
  {
  }

  function ItemsToJson(items: seq<ChecklistItem>): (r: seq<Json>)
    ensures |r| == |items| && forall k :: 0 <= k < |items| ==> r[k] == ItemToDict(items[k])
  {
    if items == [] then [] else [ItemToDict(items[0])] + ItemsToJson(items[1..])
  }

  /** The items of a `checklist_items` list; item `k` draws `ids(from + k)` if it has no id. */
  function ItemsFromJson(a: seq<Json>, ids: nat -> string, from: nat): (r: Result<seq<ChecklistItem>, DecodeError>)
    ensures r.Ok? ==> |r.value| == |a|
    decreases |a|
  {
    if a == [] then Ok([])
    else
      var first :- ItemFromDict(a[0], ids(from));
      var rest :- ItemsFromJson(a[1..], ids, from + 1);
      Ok([first] + rest)
  }

  lemma {:induction false} ItemsRoundTrip(items: seq<ChecklistItem>, ids: nat -> string, from: nat)
    ensures ItemsFromJson(ItemsToJson(items), ids, from) == Ok(items)
    decreases |items|
  {
    if items != [] {
      ItemRoundTrip(items[0], ids(from));
      ItemsRoundTrip(items[1..], ids, from + 1);
      assert ItemsToJson(items)[1..] == ItemsToJson(items[1..]);
      assert items == [items[0]] + items[1..];
    }
  }

  function TimeToJson(t: Option<Timestamp>): Json {
    match t
    case Some(v) => JTime(v)
    case None => JNull
  }

  function OptStrToJson(s: Option<string>): Json {
    match s
    case Some(v) => JStr(v)
    case None => JNull
  }

  /** `Note.to_dict`. */
  function NoteToDict(n: Note): map<string, Json> {
    map[
      "id" := JStr(n.id),
      "title" := JStr(n.title),
      "content" := JStr(n.content),
      "note_type" := JStr(NoteTypeValue(n.noteType)),
      "checklist_items" := JArr(ItemsToJson(n.checklistItems)),
      "labels" := JArr(StringsToJson(n.labels)),
      "pinned" := JBool(n.pinned),
      "archived" := JBool(n.archived),
      "trashed" := JBool(n.trashed),
      "color" := JStr(n.color),
      "keep_id" := OptStrToJson(n.keepId),
      "sync_status" := JStr(StatusValue(n.syncStatus)),
      "local_modified" := TimeToJson(n.localModified),
      "remote_modified" := TimeToJson(n.remoteModified),
      "content_hash" := JStr(n.contentHash),
      "created_at" := JTime(n.createdAt),
      "updated_at" := JTime(n.updatedAt)
    ]
  }

  /** `NoteType(data.get(key, default))`. */
  function GetNoteType(d: map<string, Json>): Result<NoteType, DecodeError> {
    var v :- GetStr(d, "note_type", "note");
    match ParseNoteType(v)
    case Some(t) => Ok(t)
    case None => Err(BadValue("note_type"))
  }

  /** `SyncStatus(data.get(key, default))`. */
  function GetStatus(d: map<string, Json>): Result<SyncStatus, DecodeError> {
    var v :- GetStr(d, "sync_status", "local_only");
    match ParseStatus(v)
    case Some(s) => Ok(s)
    case None => Err(BadValue("sync_status"))
  }

  /** `created_at`/`updated_at`: parsed when truthy, otherwise the current time. */
  function GetTimeOr(d: map<string, Json>, key: string, now: Timestamp): Result<Timestamp, DecodeError> {
    var t :- GetTime(d, key);
    Ok(t.GetOr(now))
  }

  /** The identity and content fields of `Note.from_dict`, in the order it reads them. */
  function DecodeContent(d: map<string, Json>, ids: nat -> string): (r: Result<Note, DecodeError>)
    requires "id" in d
    ensures r.Ok? ==> d["id"] == JStr(r.value.id)
  {
    var id :- match d["id"] case JStr(s) => Ok(s) case _ => Err(WrongType("id"));
    var title :- GetStr(d, "title", "");
    var content :- GetStr(d, "content", "");
    var noteType :- GetNoteType(d);
    var itemList :- GetList(d, "checklist_items");
    var items :- ItemsFromJson(itemList, ids, 0);
    var labelList :- GetList(d, "labels");
    var labels :- StringList(labelList, "labels");
    Ok(Note(id, title, content, noteType, items, labels, false, false, false, "",
            None, LocalOnly, None, None, "", 0, 0))
  }

  /** The flags and sync fields of `Note.from_dict`, read into `n`. */
  function DecodeFlags(d: map<string, Json>, n: Note): (r: Result<Note, DecodeError>)
    ensures r.Ok? ==> r.value.id == n.id && FingerprintOf(r.value).title == n.title
    ensures r.Ok? ==> r.value == n.(pinned := r.value.pinned, archived := r.value.archived, trashed := r.value.trashed,
                                    color := r.value.color, keepId := r.value.keepId, syncStatus := r.value.syncStatus)
    ensures r.Ok? ==> GetBool(d, "pinned", false) == Ok(r.value.pinned) && GetBool(d, "archived", false) == Ok(r.value.archived)
                      && GetBool(d, "trashed", false) == Ok(r.value.trashed) && GetStr(d, "color", "") == Ok(r.value.color)
                      && GetOptStr(d, "keep_id") == Ok(r.value.keepId) && GetStatus(d) == Ok(r.value.syncStatus)
    ensures r.Ok? && "sync_status" !in d ==> r.value.syncStatus == LocalOnly
  {
    var pinned :- GetBool(d, "pinned", false);
    var archived :- GetBool(d, "archived", false);
    var trashed :- GetBool(d, "trashed", false);
    var color :- GetStr(d, "color", "");
    var keepId :- GetOptStr(d, "keep_id");
    var status :- GetStatus(d);
    Ok(n.(pinned := pinned, archived := archived, trashed := trashed, color := color,
          keepId := keepId, syncStatus := status))
  }

  /** The four timestamps of `Note.from_dict`, read into `n`. */
  function DecodeTimes(d: map<string, Json>, n: Note, now: Timestamp): (r: Result<Note, DecodeError>)
    ensures r.Ok? ==> r.value == n.(localModified := r.value.localModified, remoteModified := r.value.remoteModified,
                                    createdAt := r.value.createdAt, updatedAt := r.value.updatedAt)
    ensures r.Ok? && "created_at" !in d ==> r.value.createdAt == now
  {
    var localModified :- GetTime(d, "local_modified");
    var remoteModified :- GetTime(d, "remote_modified");
    var createdAt :- GetTimeOr(d, "created_at", now);
    var updatedAt :- GetTimeOr(d, "updated_at", now);
    Ok(n.(localModified := localModified, remoteModified := remoteModified,
          createdAt := createdAt, updatedAt := updatedAt))
  }

  /**
   * `Note.from_dict`: fields are read in the order the constructor call lists
   * them, so the first failing one decides the error. Checklist items without
   * an id draw `ids(k)`; `now` stands for `datetime.now()`. The constructor's
   * `__post_init__` recomputes the content hash, so `content_hash` is ignored.
   */
  function NoteFromDict(d: map<string, Json>, ids: nat -> string, now: Timestamp, md5: Fingerprint -> string)
    : (r: Result<Note, DecodeError>)
    ensures "id" !in d ==> r == Err(MissingKey("id"))
    ensures r.Ok? ==> HashCurrent(r.value, md5) && d["id"] == JStr(r.value.id)
    ensures r.Ok? && "sync_status" !in d ==> r.value.syncStatus == LocalOnly
    ensures r.Ok? && "created_at" !in d ==> r.value.createdAt == now
  {
    if "id" !in d then Err(MissingKey("id"))
    else
      var n1 :- DecodeContent(d, ids);
      var n2 :- DecodeFlags(d, n1);
      var n3 :- DecodeTimes(d, n2, now);
      Ok(UpdateHash(n3, md5))
  }

  /** What `to_dict` writes under the identity and content keys. */
  lemma ContentEntries(n: Note)
    ensures var d := NoteToDict(n);
      && "id" in d && "title" in d && "content" in d && "note_type" in d
      && d["id"] == JStr(n.id) && d["title"] == JStr(n.title) && d["content"] == JStr(n.content)
      && d["note_type"] == JStr(NoteTypeValue(n.noteType))
  {
    IdEntries(n);
    TextEntries(n);
  }

  /** What `to_dict` writes under `id` and `title`. */
  lemma IdEntries(n: Note)
    ensures var d := NoteToDict(n);
      && "id" in d && "title" in d && d["id"] == JStr(n.id) && d["title"] == JStr(n.title)
  {
  }

  /** What `to_dict` writes under `content` and `note_type`. */
  lemma TextEntries(n: Note)
    ensures var d := NoteToDict(n);
      && "content" in d && "note_type" in d && d["content"] == JStr(n.content)
      && d["note_type"] == JStr(NoteTypeValue(n.noteType))
  {
  }

  /** What `to_dict` writes under the list keys. */
  lemma ListEntries(n: Note)
    ensures var d := NoteToDict(n);
      && "checklist_items" in d && "labels" in d
      && d["checklist_items"] == JArr(ItemsToJson(n.checklistItems))
      && d["labels"] == JArr(StringsToJson(n.labels))
  {
  }

  /** What `to_dict` writes under the flag keys. */
  lemma FlagEntries(n: Note)
    ensures var d := NoteToDict(n);
      && "pinned" in d && "archived" in d && "trashed" in d
      && d["pinned"] == JBool(n.pinned) && d["archived"] == JBool(n.archived) && d["trashed"] == JBool(n.trashed)
  {
  }

  /** What `to_dict` writes under the sync keys. */
  lemma SyncEntries(n: Note)
    ensures var d := NoteToDict(n);
      && "color" in d && "keep_id" in d && "sync_status" in d
      && d["color"] == JStr(n.color) && d["keep_id"] == OptStrToJson(n.keepId)
      && d["sync_status"] == JStr(StatusValue(n.syncStatus))
  {
  }

  /** What `to_dict` writes under the timestamp keys. */
  lemma TimeEntries(n: Note)
    ensures var d := NoteToDict(n);
      && "local_modified" in d && "remote_modified" in d && "created_at" in d && "updated_at" in d
      && d["local_modified"] == TimeToJson(n.localModified) && d["remote_modified"] == TimeToJson(n.remoteModified)
      && d["created_at"] == JTime(n.createdAt) && d["updated_at"] == JTime(n.updatedAt)
  {
  }

  lemma DecodeContentOfDict(n: Note, ids: nat -> string)
    ensures DecodeContent(NoteToDict(n), ids)
         == Ok(Note(n.id, n.title, n.content, n.noteType, n.checklistItems, n.labels, false, false, false, "",
                    None, LocalOnly, None, None, "", 0, 0))
  {
    ContentEntries(n);
    ListEntries(n);
    DecodeContentOf(NoteToDict(n), n, ids);
  }

  /** A dict holding `n`'s identity and content fields as `to_dict` writes them decodes to them. */
  lemma DecodeContentOf(d: map<string, Json>, n: Note, ids: nat -> string)
    requires "id" in d && "title" in d && "content" in d && "note_type" in d && "checklist_items" in d && "labels" in d
    requires d["id"] == JStr(n.id) && d["title"] == JStr(n.title) && d["content"] == JStr(n.content)
    requires d["note_type"] == JStr(NoteTypeValue(n.noteType))
    requires d["checklist_items"] == JArr(ItemsToJson(n.checklistItems)) && d["labels"] == JArr(StringsToJson(n.labels))
    ensures DecodeContent(d, ids)
         == Ok(Note(n.id, n.title, n.content, n.noteType, n.checklistItems, n.labels, false, false, false, "",
                    None, LocalOnly, None, None, "", 0, 0))
  {
    ItemsRoundTrip(n.checklistItems, ids, 0);
    StringListRoundTrip(n.labels, "labels");
    ParseNoteTypeIsInverse(NoteTypeValue(n.noteType), n.noteType);
    assert GetStr(d, "title", "") == Ok(n.title);
    assert GetStr(d, "content", "") == Ok(n.content);
    assert GetNoteType(d) == Ok(n.noteType);
    assert GetList(d, "checklist_items") == Ok(ItemsToJson(n.checklistItems));
    assert GetList(d, "labels") == Ok(StringsToJson(n.labels));
  }

  lemma DecodeFlagsOfDict(n: Note, m: Note)
    ensures DecodeFlags(NoteToDict(n), m)
         == Ok(m.(pinned := n.pinned, archived := n.archived, trashed := n.trashed, color := n.color,
                  keepId := n.keepId, syncStatus := n.syncStatus))
  {
    FlagEntries(n);
    SyncEntries(n);
    DecodeFlagsOf(NoteToDict(n), n, m);
  }

  /** A dict holding `n`'s flags and sync fields as `to_dict` writes them decodes to them. */
  lemma DecodeFlagsOf(d: map<string, Json>, n: Note, m: Note)
    requires "pinned" in d && "archived" in d && "trashed" in d && "color" in d && "keep_id" in d && "sync_status" in d
    requires d["pinned"] == JBool(n.pinned) && d["archived"] == JBool(n.archived) && d["trashed"] == JBool(n.trashed)
    requires d["color"] == JStr(n.color) && d["keep_id"] == OptStrToJson(n.keepId)
    requires d["sync_status"] == JStr(StatusValue(n.syncStatus))
    ensures DecodeFlags(d, m)
         == Ok(m.(pinned := n.pinned, archived := n.archived, trashed := n.trashed, color := n.color,
                  keepId := n.keepId, syncStatus := n.syncStatus))
  {
    ParseStatusIsInverse(StatusValue(n.syncStatus), n.syncStatus);
    assert GetBool(d, "pinned", false) == Ok(n.pinned);
    assert GetBool(d, "archived", false) == Ok(n.archived);
    assert GetBool(d, "trashed", false) == Ok(n.trashed);
    assert GetStr(d, "color", "") == Ok(n.color);
    assert GetOptStr(d, "keep_id") == Ok(n.keepId);
    assert GetStatus(d) == Ok(n.syncStatus);
  }

  lemma DecodeTimesOfDict(n: Note, m: Note, now: Timestamp)
    ensures DecodeTimes(NoteToDict(n), m, now)
         == Ok(m.(localModified := n.localModified, remoteModified := n.remoteModified,
                  createdAt := n.createdAt, updatedAt := n.updatedAt))
  {
    var d := NoteToDict(n);
    TimeEntries(n);
    assert GetTime(d, "local_modified") == Ok(n.localModified);
    assert GetTime(d, "remote_modified") == Ok(n.remoteModified);
    assert GetTimeOr(d, "created_at", now) == Ok(n.createdAt);
    assert GetTimeOr(d, "updated_at", now) == Ok(n.updatedAt);
  }

  /**
   * Serialising a note and reading it back gives the same note, with its hash
   * recomputed (so exactly the same note when its hash was current).
   */
  lemma NoteRoundTrip(n: Note, ids: nat -> string, now: Timestamp, md5: Fingerprint -> string)
    ensures NoteFromDict(NoteToDict(n), ids, now, md5) == Ok(UpdateHash(n, md5))
    ensures HashCurrent(n, md5) ==> NoteFromDict(NoteToDict(n), ids, now, md5) == Ok(n)
  {
    var d := NoteToDict(n);
    DecodeContentOfDict(n, ids);
    var n1 := DecodeContent(d, ids).value;
    DecodeFlagsOfDict(n, n1);
    var n2 := DecodeFlags(d, n1).value;
    DecodeTimesOfDict(n, n2, now);
    var n3 := DecodeTimes(d, n2, now).value;
    assert n3.(contentHash := n.contentHash) == n;
  }

  /** `Label.to_dict`. */
  function LabelToDict(l: Label): map<string, Json> {
    map["id" := JStr(l.id), "name" := JStr(l.name), "color" := JStr(l.color), "keep_id" := OptStrToJson(l.keepId)]
  }

  /** `Label.from_dict`: `id` and `name` are required. */
  function LabelFromDict(d: map<string, Json>): (r: Result<Label, DecodeError>)
    ensures "id" !in d ==> r == Err(MissingKey("id"))
    ensures "id" in d && "name" !in d ==> r == Err(MissingKey("name"))
  {
    if "id" !in d then Err(MissingKey("id"))
    else if "name" !in d then Err(MissingKey("name"))
    else
      var id :- match d["id"] case JStr(s) => Ok(s) case _ => Err(WrongType("id"));
      var name :- match d["name"] case JStr(s) => Ok(s) case _ => Err(WrongType("name"));
      var color :- GetStr(d, "color", "");
      var keepId :- GetOptStr(d, "keep_id");
      Ok(Label(id, name, color, keepId))
  }

  lemma LabelRoundTrip(l: Label)
    ensures LabelFromDict(LabelToDict(l)) == Ok(l)
  {
  }
}
