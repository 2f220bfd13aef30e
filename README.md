# noted: note list and text box, modelled in Dafny

This project models the two in-memory components of the `noted` terminal note
taker, written in Rust:

- **`NoteList` / `Note`** (`src/note.rs`). A note has an id, a title, a content and
  a creation time. A note list is a vector of notes in insertion order.
  `insert` stores a copy of the given note under a fresh id: one more than the
  largest id present, or 1 when the list is empty. The caller's id is ignored.
  `remove` takes out the first note with a given id and returns it, or returns
  `None`. `max_note_id`, `length` and `is_empty` are queries. `Note` has field
  setters.
- **`TextBox`** (`src/textbox.rs`). This holds a text, a cache of the byte offsets
  of its line breaks and a cursor offset. `insert_char(pos, ch)` inserts a
  character at a byte offset. `insert_newline` inserts `'\n'` at the cursor.
  `update_line_indices` refreshes the cache from the free function
  `get_newline_index`. `move_cursor` does nothing for every direction.

Layout:

- `options.dfy`: module `Options`, the `Option` type.
- `utf8.dfy`: module `Utf8`. Rust keeps a `String` as UTF-8 bytes. Every
  position its API takes or returns is a byte offset. The model keeps the text
  as a `seq<char>` of Unicode scalar values. `Width`, `ByteLen` and `Offset` make
  the byte offsets explicit. `CharIndex` maps a byte offset back to a character
  index, and answers None when the offset is not a character boundary. For
  ASCII text, offsets equal indices (`AsciiOffset`).
- `textbox.dfy`: module `TextBoxes`. It holds `NewlineIndex` (the pure
  `get_newline_index`), `InsertAt` (the pure effect of `String::insert`) and the
  class `TextBox`, whose methods update its three fields.
- `note.dfy`: module `Notes`. It holds the pure queries over the id sequence
  (`MaxId`, `FreshId`, `Position`, `Distinct`) and the classes `Note` and
  `NoteList`.

`Note` is a class because its setters assign its fields. `NoteList.notes` is a
`seq<Note>`. `NoteList.Valid()` states that the vector owns its notes: no note
object appears twice. `insert` clones its argument, so the stored note is a
fresh object. `NoteList.Length()` is the length of the vector. `NoteList.Ids()`
lists the ids of the notes in order. The contracts of the list's operations are
stated over `Ids()`.

The code has no cursor motion: `move_cursor` is an empty `match`, nothing in
src/textbox.rs changes `cursor_pos`, and the text is one flat string.

## Model

| member | source | states |
|---|---|---|
| `Notes.MaxId` | src/note.rs:94-100 | None exactly for an empty id list; otherwise an id that occurs in the list and is at least every id in it |
| `Notes.NoteList.MaxNoteId` | src/note.rs:94-100 | None iff the list is empty; otherwise the id of some note, and no note has a larger id |
| `Notes.NoteList.Length` | src/note.rs:90-92 | the number of notes, one per listed id; Insert and IsEmpty state their contracts in terms of it |
| `Notes.IdsOf` | src/note.rs:95 | the ids of the notes, one per note and in the notes' order (the `iter().map(..)` over `note.id`) |
| `Notes.NoteList.IsEmpty` | src/note.rs:86-92 | holds iff `Length()` is 0 |
| `Notes.FreshId` | src/note.rs:67-70 | the id `insert` assigns exceeds every existing id; it is 1 for an empty list and otherwise one more than an id present, hence max + 1 |
| `Notes.Position` | src/note.rs:79 | None iff the id does not occur; otherwise an index holding the id with no earlier index holding it |
| `Notes.FreshIdKeepsDistinct` | src/note.rs:67-75 | pairwise distinct ids stay pairwise distinct when the fresh id is appended |
| `Notes.RemoveKeepsDistinct` | src/note.rs:78-84 | pairwise distinct ids stay pairwise distinct when one element is removed |
| `Notes.Note.constructor` | src/note.rs:29-36 | the new note holds the given id, title, content and creation time |
| `Notes.Note.SetId` | src/note.rs:38-40 | sets the id; the other fields are unchanged |
| `Notes.Note.SetTitle` | src/note.rs:42-44 | sets the title; the other fields are unchanged |
| `Notes.Note.SetContent` | src/note.rs:46-48 | sets the content; the other fields are unchanged |
| `Notes.Note.Update` | src/note.rs:50-53 | sets title and content; id and creation time are unchanged |
| `Notes.Note.Clone` | src/note.rs:14-20 | a fresh note with equal field values |
| `Notes.NoteList.constructor` | src/note.rs:62-64 | a new list is empty |
| `Notes.NoteList.Insert` | src/note.rs:66-76 | length grows by one; earlier notes stay in place and in order; the appended note is a fresh copy with the argument's title, content and time and the id `FreshId` of the old ids; ids gain exactly that id at the end; distinct ids stay distinct |
| `Notes.NoteList.Remove` | src/note.rs:78-84 | absent id: returns None and changes nothing; present id: returns the first note with that id and removes only it, the others keeping their order; distinct ids stay distinct |
| `Notes.InsertedNoteIsCounted` | src/note.rs:131-137 | one insert into a new list gives length 1 |
| `Notes.InsertedNoteIsDeleted` | src/note.rs:139-153 | a note inserted into a new list gets id 1; removing that id returns it and leaves length 0 |
| `Notes.TwoInsertsNumberFromOne` | src/note.rs:155-179 | two inserts into a new list, whatever ids the notes carry, give length 2 and maximum id 2 |
| `Utf8.CharIndex` | src/textbox.rs:28-30 | a byte offset is a character boundary exactly when some character (or the end) starts there, and then the result is that character's index |
| `TextBoxes.NewlineIndex` | src/textbox.rs:46-51 | every listed offset lies inside the text |
| `TextBoxes.NewlineIndexCount` | src/textbox.rs:46-51 | one offset is listed per `'\n'` of the text |
| `TextBoxes.NewlineIndexSorted` | src/textbox.rs:46-51 | the listed offsets strictly increase |
| `TextBoxes.NewlineIndexExact` | src/textbox.rs:46-51 | an offset is listed iff a `'\n'` starts at that byte offset |
| `TextBoxes.NewlineIndexAscii` | src/textbox.rs:46-51 | for ASCII text an index is listed iff the character there is `'\n'` |
| `TextBoxes.NewlineIndexNone` | src/textbox.rs:46-51 | a text without `'\n'` lists nothing |
| `TextBoxes.NewlineIndexThreeBreaks` | src/textbox.rs:58-64 | `"Test\nfinding\nnewline\nchars"` gives `[4, 12, 20]` |
| `TextBoxes.NewlineIndexNoBreaks` | src/textbox.rs:66-71 | `"A String With No Newlines"` gives `[]` |
| `TextBoxes.InsertAt` | src/textbox.rs:28-30 | the text grows by one character and by its UTF-8 width in bytes; the given offset still starts the same character index, which now holds the new character; removing it gives back the old text |
| `TextBoxes.InsertAtAscii` | src/textbox.rs:28-30 | in ASCII text every offset up to the length is a boundary, and insertion is `s[..pos] + [ch] + s[pos..]` |
| `TextBoxes.TextBox.constructor` | src/textbox.rs:15-21 | empty text, no line indices, cursor at 0 |
| `TextBoxes.TextBox.UpdateLineIndices` | src/textbox.rs:23-26 | the cache becomes `NewlineIndex` of the text; text and cursor are unchanged |
| `TextBoxes.TextBox.InsertChar` | src/textbox.rs:28-30 | requires a character boundary; the text becomes `InsertAt` of the old text; cursor and cache are unchanged |
| `TextBoxes.TextBox.InsertNewline` | src/textbox.rs:32-34 | inserts `'\n'` at the cursor offset; cursor and cache are unchanged |
| `TextBoxes.TextBox.MoveCursor` | src/textbox.rs:36-43 | the whole text box is unchanged for every direction |
| `TextBoxes.TypeThenBreakLine` | src/textbox.rs:15-34 | typing `a` at 0 and `b` at 1, then a line break, gives `"\nab"`, because the cursor stays at 0; the refreshed cache is `[0]` |

## Left out

- `NoteList::save` and `NoteList::load` (src/note.rs:102-123) and their tests: file I/O, JSON and printing.
- `impl Display for Note` (src/note.rs:22-26): formatting only.
- `Utc::now()` in `Note::new`: the clock reading is a constructor parameter of the abstract type `Notes.Timestamp`.
- Notes.NoteList.Insert: ids are unbounded naturals, so the `usize` overflow of `note_id + 1` at `usize::MAX` is not modelled.
- Rust moves notes by value; the model uses note objects. `Valid()` rules out a note object appearing twice in one list, but callers that keep a reference returned by `Remove` hold an object, not a copy.
- The panics of `String::insert` are modelled as the precondition that the offset is a character boundary; the panic itself is not.
- src/event.rs, src/tui.rs, src/ui.rs, src/main.rs: input thread, terminal setup, rendering and the event loop are I/O.
- src/update.rs: key dispatch uses `AppState` fields that src/app.rs does not define, so there is no consistent state to model. src/app.rs is a struct with no behaviour.
