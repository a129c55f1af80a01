/**
 * The local note store (`DatabaseManager`): the notes, labels, settings and
 * sync_log tables of the SQLite file, as maps and an append-only sequence.
 * Each method is one SQL statement; the table scan behind a SELECT is a loop
 * over the keys, and `ORDER BY` is a sort.
 */
module Store {
  import opened Wrappers
  import opened Notes
  import opened SqlText
  import Sorting

  /** One row of the sync_log table. */
  datatype LogEntry = LogEntry(timestamp: Timestamp, action: string, noteId: string, status: string, message: string)

  /** A stored setting: JSON `null`, a string, or the ISO-8601 text of an instant. */
  datatype SettingValue = SettingNull | SettingText(text: string) | SettingTime(instant: Timestamp)

  /** Every stored note sits under its own id and carries a current hash. */
  ghost predicate NotesWellFormed(notes: map<string, Note>, md5: Fingerprint -> string) {
    forall id :: id in notes ==> notes[id].id == id && HashCurrent(notes[id], md5)
  }

  /** Labels sit under their ids, and the UNIQUE constraint on `name` holds. */
  ghost predicate LabelsWellFormed(labels: map<string, Label>) {
    && (forall id :: id in labels ==> labels[id].id == id)
    && (forall a, b :: a in labels && b in labels && labels[a].name == labels[b].name ==> a == b)
  }

  /** What `save_note` writes: the note with `updated_at` re-stamped and its hash recomputed. */
  function Saved(n: Note, now: Timestamp, md5: Fingerprint -> string): (r: Note)
    ensures HashCurrent(r, md5) && r.updatedAt == now
    ensures r.(contentHash := n.contentHash, updatedAt := n.updatedAt) == n
  {
    UpdateHash(n.(updatedAt := now), md5)
  }

  /** Upserting a saved note keeps the table well formed. */
  lemma SaveKeepsWellFormed(notes: map<string, Note>, n: Note, now: Timestamp, md5: Fingerprint -> string)
    requires NotesWellFormed(notes, md5)
    ensures NotesWellFormed(notes[n.id := Saved(n, now, md5)], md5)
  {
  }

  /**
   * `UPDATE notes SET trashed = ?, updated_at = ? WHERE id = ?`: only the
   * row with that id changes, and only in those two columns; an unknown id
   * changes nothing.
   */
  function SetTrashed(notes: map<string, Note>, id: string, trashed: bool, now: Timestamp): (r: map<string, Note>)
    ensures r.Keys == notes.Keys
    ensures forall k :: k in notes && k != id ==> r[k] == notes[k]
    ensures id in notes ==> r[id] == notes[id].(trashed := trashed, updatedAt := now)
  {
    if id in notes then notes[id := notes[id].(trashed := trashed, updatedAt := now)] else notes
  }

  /** The trash flag is not part of the hash, so the UPDATE leaves every hash current. */
  lemma SetTrashedKeepsWellFormed(notes: map<string, Note>, id: string, trashed: bool, now: Timestamp,
                                  md5: Fingerprint -> string)
    requires NotesWellFormed(notes, md5)
    ensures NotesWellFormed(SetTrashed(notes, id, trashed, now), md5)
  {
    var r := SetTrashed(notes, id, trashed, now);
    forall k | k in r ensures r[k].id == k && HashCurrent(r[k], md5) {
      if k == id {
        HashIgnoresMetadata(notes[k], r[k], md5);
      }
    }
  }

  /**
   * `INSERT OR REPLACE INTO labels`: the row with the label's id and any row
   * holding the same name (the UNIQUE constraint's conflict) are replaced by
   * the new row.
   */
  function ReplaceLabel(labels: map<string, Label>, l: Label): (r: map<string, Label>)
    ensures l.id in r && r[l.id] == l
    ensures forall k :: k in r && k != l.id ==> k in labels && r[k] == labels[k] && labels[k].name != l.name
    ensures forall k :: k in labels && k != l.id && labels[k].name != l.name ==> k in r
  {
    (map k | k in labels && k != l.id && labels[k].name != l.name :: labels[k])[l.id := l]
  }

  lemma ReplaceLabelKeepsWellFormed(labels: map<string, Label>, l: Label)
    requires LabelsWellFormed(labels)
    ensures LabelsWellFormed(ReplaceLabel(labels, l))
  {
  }

  // ---------------------------------------------------------------------------
  // Query results
  // ---------------------------------------------------------------------------

  /** A SELECT's rows: exactly the stored notes that satisfy `keep`, each once. */
  ghost predicate RowsOf(rows: seq<Note>, notes: map<string, Note>, keep: Note -> bool) {
    && (forall i :: 0 <= i < |rows| ==> rows[i].id in notes && notes[rows[i].id] == rows[i] && keep(rows[i]))
    && (forall i, j :: 0 <= i < j < |rows| ==> rows[i].id != rows[j].id)
    && (forall id :: id in notes && keep(notes[id]) ==> notes[id] in rows)
  }

  /** Rows with distinct ids hold each note at most once. */
  lemma {:induction false} DistinctIdsOnce(rows: seq<Note>, x: Note)
    requires forall i, j :: 0 <= i < j < |rows| ==> rows[i].id != rows[j].id
    ensures multiset(rows)[x] <= 1
  {
    if rows != [] {
      assert rows == [rows[0]] + rows[1..];
      DistinctIdsOnce(rows[1..], x);
      if rows[0] == x {
        assert x !in rows[1..] by {
          forall b | 1 <= b < |rows| ensures rows[b] != x {
            assert rows[b].id != rows[0].id;
          }
        }
      }
    }
  }

  /** A note at two positions occurs at least twice. */
  lemma TwiceAt(r: seq<Note>, i: nat, j: nat)
    requires i < j < |r| && r[i] == r[j]
    ensures multiset(r)[r[i]] >= 2
  {
    assert r == r[..i] + [r[i]] + r[i + 1..j] + [r[j]] + r[j + 1..];
  }

  /** Reordering a query's rows keeps them the query's rows. */
  lemma RowsOfPermutation(rows: seq<Note>, r: seq<Note>, notes: map<string, Note>, keep: Note -> bool)
    requires RowsOf(rows, notes, keep)
    requires multiset(r) == multiset(rows)
    ensures RowsOf(r, notes, keep)
  {
    forall i | 0 <= i < |r| ensures r[i].id in notes && notes[r[i].id] == r[i] && keep(r[i]) {
      assert r[i] in multiset(rows);
    }
    forall i, j | 0 <= i < j < |r| ensures r[i].id != r[j].id {
      if r[i].id == r[j].id {
        assert r[i] in multiset(rows) && r[j] in multiset(rows);
        TwiceAt(r, i, j);
        DistinctIdsOnce(rows, r[i]);
      }
    }
    forall id | id in notes && keep(notes[id]) ensures notes[id] in r {
      assert notes[id] in multiset(rows);
    }
  }

  /** Any reordering of the label table's rows holds each label once. */
  lemma LabelRowsOfPermutation(labels: map<string, Label>, ks: seq<string>, rows: seq<Label>, r: seq<Label>)
    requires LabelsWellFormed(labels)
    requires forall k :: k in labels <==> k in ks
    requires |rows| == |ks| && forall i :: 0 <= i < |ks| ==> rows[i] == labels[ks[i]]
    requires multiset(r) == multiset(rows)
    ensures forall i :: 0 <= i < |r| ==> r[i].id in labels && labels[r[i].id] == r[i]
    ensures forall id :: id in labels ==> labels[id] in r
  {
    forall i | 0 <= i < |r| ensures r[i].id in labels && labels[r[i].id] == r[i] {
      assert r[i] in multiset(rows);
      var j :| 0 <= j < |rows| && rows[j] == r[i];
      assert ks[j] in labels;
    }
    forall id | id in labels ensures labels[id] in r {
      var i :| 0 <= i < |ks| && ks[i] == id;
      assert rows[i] == labels[id];
      assert labels[id] in multiset(rows);
    }
  }

  /** `ORDER BY pinned DESC, updated_at DESC`. */
  predicate ListedBefore(a: Note, b: Note) {
    (a.pinned && !b.pinned) || (a.pinned == b.pinned && a.updatedAt >= b.updatedAt)
  }

  lemma ListedBeforeIsTotalPreorder()
    ensures Sorting.Total(ListedBefore) && Sorting.Transitive(ListedBefore)
  {
  }

  /** The rows `get_all_notes` selects. */
  predicate Listed(n: Note, includeTrashed: bool, includeArchived: bool) {
    (includeTrashed || !n.trashed) && (includeArchived || !n.archived)
  }

  /** The rows `search_notes` selects: `(title LIKE ? OR content LIKE ?) AND trashed = 0`. */
  predicate MatchesSearch(n: Note, query: string) {
    !n.trashed && (LikeMatch(n.title, "%" + query + "%") || LikeMatch(n.content, "%" + query + "%"))
  }

  /** For a query with no `%` or `_`, search is case-insensitive substring matching. */
  lemma SearchIsSubstringMatch(n: Note, query: string)
    requires forall k :: 0 <= k < |query| ==> !IsWildcard(query[k])
    ensures MatchesSearch(n, query) <==> !n.trashed && (ContainsFolded(n.title, query) || ContainsFolded(n.content, query))
  {
    LikeIsSubstringSearch(n.title, query);
    LikeIsSubstringSearch(n.content, query);
  }

  /** The rows `get_notes_by_label` is meant to select: untrashed notes carrying the label. */
  predicate CarriesLabel(n: Note, tag: string) {
    !n.trashed && tag in n.labels
  }

  /** The rows it selects as written: `labels LIKE '%"label"%' AND trashed = 0` on the JSON text. */
  predicate LabelColumnMatches(n: Note, tag: string) {
    !n.trashed && LikeMatch(DumpStrings(n.labels), "%\"" + tag + "\"%")
  }

  /**
   * The JSON text of the labels escapes every non-ASCII character, so a label
   * holding one is never found by the LIKE test, although notes carry it.
   */
  lemma NonAsciiLabelNeverMatches(n: Note, tag: string, k: nat)
    requires k < |tag| && !IsAscii(tag[k])
    ensures !LabelColumnMatches(n, tag)
    ensures CarriesLabel(n.(labels := [tag], trashed := false), tag)
  {
    var text := DumpStrings(n.labels);
    var p := "%\"" + tag + "\"%";
    assert p[k + 2] == tag[k];
    assert tag[k] !in text;
    if LikeMatch(text, p) {
      NonAsciiMustOccur(text, p, k + 2);
    }
  }

  /** `LIKE` ignores ASCII case, so the tag "work" finds a note labelled only "Work". */
  lemma LabelMatchIgnoresCase(n: Note)
    requires n.labels == ["Work"] && !n.trashed
    ensures LabelColumnMatches(n, "work") && !CarriesLabel(n, "work")
  {
    WorkColumn();
    WorkColumnMatches();
    assert "%\"" + "work" + "\"%" == "%\"work\"%";
  }

  lemma WorkColumn()
    ensures DumpStrings(["Work"]) == "[\"Work\"]"
  {
    var w := "Work";
    assert forall i :: 0 <= i < |w| ==> ' ' <= w[i] <= '~' && w[i] != '"' && w[i] != '\\';
    EscapePlain(w);
    calc {
      DumpStrings([w]);
      "[" + Quote(w) + "]";
      "[" + ("\"" + w + "\"") + "]";
    }
    WorkQuoted();
  }

  lemma WorkQuoted()
    ensures "[" + ("\"" + "Work" + "\"") + "]" == "[\"Work\"]"
  {
  }

  lemma WorkColumnMatches()
    ensures LikeMatch("[\"Work\"]", "%\"work\"%")
  {
    var t := "[\"Work\"]";
    var q := "\"work\"";
    assert t[1..7] == "\"Work\"";
    assert OccursAt(t, q, 1);
    LikeIsSubstringSearch(t, q);
    assert "%" + q + "%" == "%\"work\"%";
  }

  /** `%` in a tag is a wildcard: the tag "%" finds every untrashed note that has any label. */
  lemma PercentTagMatchesAnyLabel(n: Note)
    requires n.labels != [] && !n.trashed
    ensures LabelColumnMatches(n, "%")
  {
    var v := ColumnAfterFirst(n.labels);
    TwoQuotesMatch(EscapeString(n.labels[0]), v);
    assert "%\"" + "%" + "\"%" == "%\"%\"%";
  }

  /** The column text of a non-empty label list: the first label quoted, then the rest `v`. */
  lemma ColumnAfterFirst(ls: seq<string>) returns (v: string)
    requires ls != []
    ensures DumpStrings(ls) == "[\"" + EscapeString(ls[0]) + "\"" + v
  {
    var e := EscapeString(ls[0]);
    var tail := if |ls| == 1 then "" else ", " + JoinQuoted(ls[1..]);
    v := tail + "]";
    assert JoinQuoted(ls) == Quote(ls[0]) + tail;
    assert Quote(ls[0]) == "\"" + e + "\"";
    calc {
      DumpStrings(ls);
      "[" + (Quote(ls[0]) + tail) + "]";
      "[" + ("\"" + e + "\"" + tail) + "]";
      { assert "[" + ("\"" + e + "\"" + tail) + "]" == "[\"" + e + "\"" + (tail + "]"); }
      "[\"" + e + "\"" + v;
    }
  }

  /** A text holding two quotes matches `%"%"%`. */
  lemma TwoQuotesMatch(e: string, v: string)
    ensures LikeMatch("[\"" + e + "\"" + v, "%\"%\"%")
  {
    var t := "[\"" + e + "\"" + v;
    var u := "\"" + v;
    assert LikeMatch(u, "\"%") by {
      PercentMatchesAll(v);
      assert u[1..] == v;
    }
    assert LikeMatch(t[2..], "%\"%") by {
      assert t[2..][|e|..] == u;
      LeadingPercent(t[2..], "\"%");
      assert "%" + "\"%" == "%\"%";
    }
    QuoteThenRest(t[1..], "%\"%");
    assert t[1..][1..] == t[2..];
    assert "\"" + "%\"%" == "\"%\"%";
    assert "%\"%\"%"[1..] == "\"%\"%";
  }

  /** A pattern starting with a quote matches a text starting with one when the rests match. */
  lemma QuoteThenRest(t: string, r: string)
    requires t != [] && t[0] == '"' && LikeMatch(t[1..], r)
    ensures LikeMatch(t, "\"" + r)
  {
    assert ("\"" + r)[1..] == r;
  }

  /** A label holding `"` is written as `\"` in the column, so its own tag does not find it. */
  lemma QuotedLabelNotFound(n: Note)
    requires n.labels == ["a\"b"] && !n.trashed
    ensures !LabelColumnMatches(n, "a\"b") && CarriesLabel(n, "a\"b")
  {
    var t := "[\"a\\\"b\"]";
    var q := "\"a\"b\"";
    assert DumpStrings(n.labels) == t by {
      assert EscapeString("a\"b") == "a\\\"b" by {
        assert "a\"b"[1..] == "\"b" && "\"b"[1..] == "b";
        EscapePlain("b");
      }
      assert JoinQuoted(["a\"b"]) == "\"a\\\"b\"";
    }
    assert "%\"" + "a\"b" + "\"%" == "%" + q + "%";
    forall i
      ensures !OccursAt(t, q, i)
    {
      if 0 <= i && i + |q| <= |t| {
        var w := t[i..i + |q|];
        if i == 1 {
          assert !FoldEq(w[2], q[2]);
        } else {
          assert !FoldEq(w[0], q[0]);
        }
      }
    }
    LikeIsSubstringSearch(t, q);
  }

  /** A tag can span two labels: `a", "b` finds the labels ["a", "b"], neither of which it is. */
  lemma TagSpanningLabelsMatches(n: Note)
    requires n.labels == ["a", "b"] && !n.trashed
    ensures LabelColumnMatches(n, "a\", \"b") && !CarriesLabel(n, "a\", \"b")
  {
    PairColumn();
    PairColumnMatches();
    assert "%\"" + "a\", \"b" + "\"%" == "%\"a\", \"b\"%";
  }

  lemma PairColumn()
    ensures DumpStrings(["a", "b"]) == "[\"a\", \"b\"]"
  {
    EscapePlain("a");
    EscapePlain("b");
    assert ["a", "b"][1..] == ["b"];
    assert JoinQuoted(["b"]) == "\"b\"";
  }

  lemma PairColumnMatches()
    ensures LikeMatch("[\"a\", \"b\"]", "%\"a\", \"b\"%")
  {
    var t := "[\"a\", \"b\"]";
    var q := "\"a\", \"b\"";
    assert t[1..9] == q;
    assert OccursAt(t, q, 1);
    LikeIsSubstringSearch(t, q);
    assert "%" + q + "%" == "%\"a\", \"b\"%";
  }

  /** `ORDER BY name` (SQLite's BINARY collation: code point order). */
  function StrLeq(a: string, b: string): bool {
    if a == [] then true
    else if b == [] then false
    else if a[0] != b[0] then a[0] < b[0]
    else StrLeq(a[1..], b[1..])
  }

  lemma {:induction false} StrLeqTotal(a: string, b: string)
    ensures StrLeq(a, b) || StrLeq(b, a)
  {
    if a != [] && b != [] && a[0] == b[0] {
      StrLeqTotal(a[1..], b[1..]);
    }
  }

  lemma {:induction false} StrLeqTransitive(a: string, b: string, c: string)
    requires StrLeq(a, b) && StrLeq(b, c)
    ensures StrLeq(a, c)
  {
    if a != [] && b != [] && c != [] && a[0] == b[0] && b[0] == c[0] {
      StrLeqTransitive(a[1..], b[1..], c[1..]);
    }
  }

  predicate LabelBefore(a: Label, b: Label) {
    StrLeq(a.name, b.name)
  }

  lemma LabelBeforeIsTotalPreorder()
    ensures Sorting.Total(LabelBefore) && Sorting.Transitive(LabelBefore)
  {
    forall a: Label, b: Label ensures LabelBefore(a, b) || LabelBefore(b, a) {
      StrLeqTotal(a.name, b.name);
    }
    forall a: Label, b: Label, c: Label | LabelBefore(a, b) && LabelBefore(b, c) ensures LabelBefore(a, c) {
      StrLeqTransitive(a.name, b.name, c.name);
    }
  }

  /** The stored note `id` is linked to the remote note `keepId`. */
  ghost predicate LinkedTo(notes: map<string, Note>, id: string, keepId: string) {
    id in notes && notes[id].keepId == Some(keepId)
  }

  /**
   * A possible answer of `SELECT * FROM notes WHERE keep_id = ?` with
   * `fetchone()`: none when no row matches, otherwise any matching row.
   */
  ghost predicate IsMatch(notes: map<string, Note>, keepId: string, m: Option<string>) {
    match m
    case None => forall id :: !LinkedTo(notes, id, keepId)
    case Some(id) => LinkedTo(notes, id, keepId)
  }

  /** The keys of a map, each once, in some order. */
  method EnumerateKeys<V>(m: map<string, V>) returns (ks: seq<string>)
    ensures |ks| == |m|
    ensures forall i, j :: 0 <= i < j < |ks| ==> ks[i] != ks[j]
    ensures forall k :: k in m <==> k in ks
  {
    ks := [];
    var todo := m.Keys;
    while todo != {}
      invariant todo <= m.Keys
      invariant forall k :: k in m <==> k in ks || k in todo
      invariant forall k :: k in ks ==> k !in todo
      invariant forall i, j :: 0 <= i < j < |ks| ==> ks[i] != ks[j]
      invariant |ks| + |todo| == |m|
      decreases todo
    {
      var k :| k in todo;
      ks := ks + [k];
      todo := todo - {k};
    }
  }

  class NoteStore {
    /** The digest `update_hash` applies (md5 of the fingerprint's text). */
    const md5: Fingerprint -> string
    var notes: map<string, Note>
    var labels: map<string, Label>
    var settings: map<string, SettingValue>
    var syncLog: seq<LogEntry>

    ghost predicate Valid()
      reads this
    {
      NotesWellFormed(notes, md5) && LabelsWellFormed(labels)
    }

    /** `_init_db` on a fresh file: four empty tables. */
    constructor (md5: Fingerprint -> string)
      ensures Valid() && this.md5 == md5
      ensures notes == map[] && labels == map[] && settings == map[] && syncLog == []
    {
      this.md5 := md5;
      notes, labels, settings, syncLog := map[], map[], map[], [];
    }

    /**
     * `save_note`: an upsert by id of the note with a fresh `updated_at` and
     * hash; `saved` is the note object as the caller holds it afterwards.
     */
    method SaveNote(note: Note, now: Timestamp) returns (ok: bool, saved: Note)
      requires Valid()
      modifies this
      ensures Valid() && ok
      ensures saved == Saved(note, now, md5)
      ensures notes == old(notes)[note.id := saved]
      ensures labels == old(labels) && settings == old(settings) && syncLog == old(syncLog)
    {
      saved := Saved(note, now, md5);
      SaveKeepsWellFormed(notes, note, now, md5);
      notes := notes[note.id := saved];
      ok := true;
    }

    /** `get_note`. */
    method GetNote(id: string) returns (r: Option<Note>)
      requires Valid()
      ensures r.Some? <==> id in notes
      ensures r.Some? ==> r.value == notes[id] && r.value.id == id && HashCurrent(r.value, md5)
    {
      r := if id in notes then Some(notes[id]) else None;
    }

    /** The keep_id lookup pull performs. */
    method FindByKeepId(keepId: string) returns (m: Option<string>)
      ensures IsMatch(notes, keepId, m)
    {
      var hits := set id | id in notes && notes[id].keepId == Some(keepId);
      if hits == {} {
        assert forall id :: LinkedTo(notes, id, keepId) ==> id in hits;
        m := None;
      } else {
        var id :| id in hits;
        m := Some(id);
      }
    }

    /** The table scan of a SELECT: every row satisfying `keep`, in no particular order. */
    method Select(keep: Note -> bool) returns (rows: seq<Note>)
      requires Valid()
      ensures RowsOf(rows, notes, keep)
    {
      rows := [];
      var todo := notes.Keys;
      while todo != {}
        invariant todo <= notes.Keys
        invariant forall i :: 0 <= i < |rows| ==>
          rows[i].id in notes && rows[i].id !in todo && notes[rows[i].id] == rows[i] && keep(rows[i])
        invariant forall i, j :: 0 <= i < j < |rows| ==> rows[i].id != rows[j].id
        invariant forall id :: id in notes && id !in todo && keep(notes[id]) ==> notes[id] in rows
        decreases todo
      {
        var id :| id in todo;
        if keep(notes[id]) {
          rows := rows + [notes[id]];
        }
        todo := todo - {id};
      }
    }

    /** A SELECT with `ORDER BY pinned DESC, updated_at DESC`. */
    method SelectListed(keep: Note -> bool) returns (r: seq<Note>)
      requires Valid()
      ensures RowsOf(r, notes, keep)
      ensures Sorting.SortedBy(r, ListedBefore)
    {
      var rows := Select(keep);
      r := Sorting.Sort(rows, ListedBefore);
      RowsOfPermutation(rows, r, notes, keep);
      ListedBeforeIsTotalPreorder();
      Sorting.SortSorted(rows, ListedBefore);
    }

    /** `get_all_notes`: trashed and archived notes only on request; pinned first, then newest first. */
    method GetAllNotes(includeTrashed: bool, includeArchived: bool) returns (r: seq<Note>)
      requires Valid()
      ensures RowsOf(r, notes, n => Listed(n, includeTrashed, includeArchived))
      ensures Sorting.SortedBy(r, ListedBefore)
    {
      r := SelectListed(n => Listed(n, includeTrashed, includeArchived));
    }

    /** `get_notes_by_label`: the untrashed notes carrying the label, in listing order. */
    method GetNotesByLabel(tag: string) returns (r: seq<Note>)
      requires Valid()
      ensures RowsOf(r, notes, n => CarriesLabel(n, tag))
      ensures Sorting.SortedBy(r, ListedBefore)
    {
      r := SelectListed(n => CarriesLabel(n, tag));
    }

    /** `search_notes`: untrashed notes whose title or content is LIKE `%query%`, in listing order. */
    method SearchNotes(query: string) returns (r: seq<Note>)
      requires Valid()
      ensures RowsOf(r, notes, n => MatchesSearch(n, query))
      ensures Sorting.SortedBy(r, ListedBefore)
    {
      r := SelectListed(n => MatchesSearch(n, query));
    }

    /** `delete_note`: permanent removes the row, otherwise only `trashed` and `updated_at` change. */
    method DeleteNote(id: string, permanent: bool, now: Timestamp) returns (ok: bool)
      requires Valid()
      modifies this
      ensures Valid() && ok
      ensures notes == if permanent then old(notes) - {id} else SetTrashed(old(notes), id, true, now)
      ensures labels == old(labels) && settings == old(settings) && syncLog == old(syncLog)
    {
      if permanent {
        notes := notes - {id};
      } else {
        SetTrashedKeepsWellFormed(notes, id, true, now, md5);
        notes := SetTrashed(notes, id, true, now);
      }
      ok := true;
    }

    /** `restore_note`: clears `trashed` and re-stamps `updated_at`. */
    method RestoreNote(id: string, now: Timestamp) returns (ok: bool)
      requires Valid()
      modifies this
      ensures Valid() && ok
      ensures notes == SetTrashed(old(notes), id, false, now)
      ensures labels == old(labels) && settings == old(settings) && syncLog == old(syncLog)
    {
      SetTrashedKeepsWellFormed(notes, id, false, now, md5);
      notes := SetTrashed(notes, id, false, now);
      ok := true;
    }

    /** `save_label`. */
    method SaveLabel(l: Label) returns (ok: bool)
      requires Valid()
      modifies this
      ensures Valid() && ok
      ensures labels == ReplaceLabel(old(labels), l)
      ensures notes == old(notes) && settings == old(settings) && syncLog == old(syncLog)
    {
      ReplaceLabelKeepsWellFormed(labels, l);
      labels := ReplaceLabel(labels, l);
      ok := true;
    }

    /** `get_all_labels`: every label once, ordered by name. */
    method GetAllLabels() returns (r: seq<Label>)
      requires Valid()
      ensures |r| == |labels|
      ensures forall i :: 0 <= i < |r| ==> r[i].id in labels && labels[r[i].id] == r[i]
      ensures forall id :: id in labels ==> labels[id] in r
      ensures Sorting.SortedBy(r, LabelBefore)
    {
      var ks := EnumerateKeys(labels);
      var table := labels;
      var rows := seq(|ks|, i requires 0 <= i < |ks| => table[ks[i]]);
      r := Sorting.Sort(rows, LabelBefore);
      LabelBeforeIsTotalPreorder();
      Sorting.SortSorted(rows, LabelBefore);
      LabelRowsOfPermutation(labels, ks, rows, r);
    }

    /** `delete_label`. */
    method DeleteLabel(id: string) returns (ok: bool)
      requires Valid()
      modifies this
      ensures Valid() && ok
      ensures labels == old(labels) - {id}
      ensures notes == old(notes) && settings == old(settings) && syncLog == old(syncLog)
    {
      labels := labels - {id};
      ok := true;
    }

    /** `get_setting`: the stored value, or `default` when the key was never set. */
    method GetSetting(key: string, default: SettingValue) returns (v: SettingValue)
      ensures key in settings ==> v == settings[key]
      ensures key !in settings ==> v == default
    {
      v := if key in settings then settings[key] else default;
    }

    /** `set_setting`: an upsert by key. */
    method SetSetting(key: string, value: SettingValue) returns (ok: bool)
      requires Valid()
      modifies this
      ensures Valid() && ok
      ensures settings == old(settings)[key := value]
      ensures notes == old(notes) && labels == old(labels) && syncLog == old(syncLog)
    {
      settings := settings[key := value];
      ok := true;
    }

    /** `log_sync`: appends one row and changes nothing else. */
    method LogSync(action: string, noteId: string, status: string, message: string, now: Timestamp)
      requires Valid()
      modifies this
      ensures Valid()
      ensures syncLog == old(syncLog) + [LogEntry(now, action, noteId, status, message)]
      ensures notes == old(notes) && labels == old(labels) && settings == old(settings)
    {
      syncLog := syncLog + [LogEntry(now, action, noteId, status, message)];
    }
  }
}
