/**
 * The note collection of the application (src/note.rs): notes with an id, a
 * title, a content and a creation time, kept in a vector in insertion order.
 */
module Notes {
  import opened Options

  /** `created_at`: a point in time read from the clock; the model never looks inside it. */
  type Timestamp(==)

  /** The largest id in `ids`, or None when there is none (`iter().max()`). */
  function MaxId(ids: seq<nat>): (r: Option<nat>)
    ensures r.None? <==> ids == []
    ensures r.Some? ==> r.value in ids && forall i :: 0 <= i < |ids| ==> ids[i] <= r.value
  {
    if ids == [] then None
    else
      var m := MaxId(ids[1..]);
      if m.None? || m.value <= ids[0] then Some(ids[0]) else m
  }

  /** The id `insert` hands out: one above the largest id, or 1 for an empty list. */
  function FreshId(ids: seq<nat>): (r: nat)
    ensures forall i :: 0 <= i < |ids| ==> ids[i] < r
    ensures ids == [] ==> r == 1
    ensures ids != [] ==> r - 1 in ids
  {
    match MaxId(ids)
    case None => 1
    case Some(m) => m + 1
  }

  /** The index of the first occurrence of `id` (`iter().position(..)`). */
  function Position(ids: seq<nat>, id: nat): (r: Option<nat>)
    ensures r.None? <==> id !in ids
    ensures r.Some? ==> r.value < |ids| && ids[r.value] == id
                        && forall j :: 0 <= j < r.value ==> ids[j] != id
  {
    if ids == [] then None
    else if ids[0] == id then Some(0)
    else match Position(ids[1..], id)
      case None => None
      case Some(k) => Some(k + 1)
  }

  predicate Distinct(ids: seq<nat>)
  {
    forall i, j :: 0 <= i < j < |ids| ==> ids[i] != ids[j]
  }

  /** A fresh id exceeds every id present, so appending it keeps the ids distinct. */
  lemma FreshIdKeepsDistinct(ids: seq<nat>)
    requires Distinct(ids)
    ensures Distinct(ids + [FreshId(ids)])
  {
  }

  /** Dropping one element keeps the ids distinct. */
  lemma RemoveKeepsDistinct(ids: seq<nat>, k: nat)
    requires Distinct(ids) && k < |ids|
    ensures Distinct(ids[..k] + ids[k + 1..])
  {
  }

  class Note {
    var id: nat
    var title: string
    var content: string
    var createdAt: Timestamp

    /** `Note::new`; the clock reading `Utc::now()` is passed in as `createdAt`. */
    constructor (id: nat, title: string, content: string, createdAt: Timestamp)
      ensures this.id == id && this.title == title && this.content == content
      ensures this.createdAt == createdAt
    {
      this.id := id;
      this.title := title;
      this.content := content;
      this.createdAt := createdAt;
    }

    method SetId(id: nat)
      modifies this
      ensures this.id == id
      ensures title == old(title) && content == old(content) && createdAt == old(createdAt)
    {
      this.id := id;
    }

    method SetTitle(title: string)
      modifies this
      ensures this.title == title
      ensures id == old(id) && content == old(content) && createdAt == old(createdAt)
    {
      this.title := title;
    }

    method SetContent(content: string)
      modifies this
      ensures this.content == content
      ensures id == old(id) && title == old(title) && createdAt == old(createdAt)
    {
      this.content := content;
    }

    method Update(title: string, content: string)
      modifies this
      ensures this.title == title && this.content == content
      ensures id == old(id) && createdAt == old(createdAt)
    {
      SetTitle(title);
      SetContent(content);
    }

    /** `#[derive(Clone)]`: a new note with the same field values. */
    method Clone() returns (c: Note)
      ensures fresh(c)
      ensures c.id == id && c.title == title && c.content == content && c.createdAt == createdAt
    {
      c := new Note(id, title, content, createdAt);
    }
  }

  /** The ids of the notes of `ns`, in order. */
  function IdsOf(ns: seq<Note>): (r: seq<nat>)
    reads ns
    ensures |r| == |ns| && forall i :: 0 <= i < |ns| ==> r[i] == ns[i].id
  {
    if ns == [] then [] else [ns[0].id] + IdsOf(ns[1..])
  }

  class NoteList {
    var notes: seq<Note>

    /**
     * Records that the vector owns its notes: no note object appears twice.
     * The methods keep it, but no contract or proof here is derived from it.
     */
    ghost predicate Valid()
      reads this
    {
      forall i, j :: 0 <= i < j < |notes| ==> notes[i] != notes[j]
    }

    constructor ()
      ensures Valid() && notes == []
    {
      notes := [];
    }

    function Ids(): seq<nat>
      reads this, notes
    {
      IdsOf(notes)
    }

    function Length(): (r: nat)
      reads this, notes
      ensures r == |Ids()|
    {
      |notes|
    }

    function IsEmpty(): (r: bool)
      reads this, notes
      ensures r <==> Length() == 0
    {
      notes == []
    }

    function MaxNoteId(): (r: Option<nat>)
      reads this, notes
      ensures r.None? <==> IsEmpty()
      ensures r.Some? ==> (exists i :: 0 <= i < |notes| && notes[i].id == r.value)
                          && forall i :: 0 <= i < |notes| ==> notes[i].id <= r.value
    {
      MaxId(Ids())
    }

    /** Appends a copy of `note` whose id is replaced by a fresh one; the caller's id is ignored. */
    method Insert(note: Note)
      requires Valid()
      modifies this
      ensures Valid()
      ensures Length() == old(Length()) + 1
      ensures notes[..old(Length())] == old(notes)
      ensures var added := notes[old(Length())];
              fresh(added) && added.id == FreshId(old(Ids()))
              && added.title == note.title && added.content == note.content
              && added.createdAt == note.createdAt
      ensures Ids() == old(Ids()) + [FreshId(old(Ids()))]
      ensures Distinct(old(Ids())) ==> Distinct(Ids())
    {
      var noteId := match MaxNoteId() case Some(m) => m + 1 case None => 1;
      var copy := note.Clone();
      copy.SetId(noteId);
      notes := notes + [copy];
      ghost var was := old(Ids());
      assert Ids() == was + [noteId];
      if Distinct(was) {
        FreshIdKeepsDistinct(was);
      }
    }

    /** Removes and returns the first note whose id is `id`; None and no change when there is none. */
    method Remove(id: nat) returns (r: Option<Note>)
      requires Valid()
      modifies this
      ensures Valid()
      ensures Position(old(Ids()), id).None? ==> r == None && notes == old(notes)
      ensures Position(old(Ids()), id).Some? ==>
                var k := Position(old(Ids()), id).value;
                r == Some(old(notes)[k]) && notes == old(notes)[..k] + old(notes)[k + 1..]
                && Ids() == old(Ids())[..k] + old(Ids())[k + 1..]
      ensures Distinct(old(Ids())) ==> Distinct(Ids())
    {
      var index := Position(Ids(), id);
      if index.Some? {
        var k := index.value;
        ghost var was := Ids();
        r := Some(notes[k]);
        notes := notes[..k] + notes[k + 1..];
        assert Ids() == was[..k] + was[k + 1..];
        if Distinct(was) {
          RemoveKeepsDistinct(was, k);
        }
      } else {
        r := None;
      }
    }
  }

  /** The unit test `test_note_inserted`: one insert gives length 1. */
  method InsertedNoteIsCounted(now: Timestamp) returns (length: nat)
    ensures length == 1
  {
    var list := new NoteList();
    var note := new Note(0, "", "", now);
    list.Insert(note);
    length := list.Length();
  }

  /**
   * The unit test `test_note_deleted`: a note inserted into an empty list gets
   * id 1, which is also the id the test removes, so the list is empty again.
   */
  method InsertedNoteIsDeleted(now: Timestamp) returns (removed: Option<Note>, length: nat)
    ensures removed.Some? && removed.value.title == "title" && removed.value.id == 1
    ensures length == 0
  {
    var note := new Note(1, "title", "content", now);
    var list := new NoteList();
    list.Insert(note);
    removed := list.Remove(note.id);
    length := list.Length();
  }

  /** The unit tests `test_notelist_length` and `test_max_note_id`: ids 1 and 2 are handed out. */
  method TwoInsertsNumberFromOne(now: Timestamp, firstId: nat, secondId: nat)
    returns (length: nat, maxId: Option<nat>)
    ensures length == 2 && maxId == Some(2)
  {
    var list := new NoteList();
    var first := new Note(firstId, "", "", now);
    var second := new Note(secondId, "", "", now);
    assert list.Ids() == [] && FreshId([]) == 1;
    list.Insert(first);
    assert list.Ids() == [1] && FreshId([1]) == 2;
    list.Insert(second);
    assert list.Ids() == [1, 2] && MaxId([1, 2]) == Some(2);
    length, maxId := list.Length(), list.MaxNoteId();
  }
}
