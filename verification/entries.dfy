/**
 The entry operations of the tracker: adding from the form, quick capture,
 opening an entry for editing, committing or cancelling the edit, deleting
 and clearing. Form fields, the user's confirmation, the fresh id and the
 host's date parsing are parameters; each operation returns the new state
 or the reason the source left the state as it was.
 */
module Entries {
  import opened Types
  import opened JsString
  import opened Seqs

  /** `entries.findIndex(e => e.id === id)`: the first position holding
      `id`, or -1. */
  function FindIndex(es: seq<Entry>, id: string): (k: int)
    ensures -1 <= k < |es|
    ensures k == -1 <==> id !in EntryIds(es)
    ensures k >= 0 ==> es[k].id == id && forall j :: 0 <= j < k ==> es[j].id != id
  {
    if es == [] then -1
    else if es[0].id == id then 0
    else
      var k := FindIndex(es[1..], id);
      TailIds(es, id);
      if k == -1 then -1 else k + 1
  }

  /** An id other than the first entry's is held by the list exactly when
      it is held by the rest of the list. */
  lemma TailIds(es: seq<Entry>, id: string)
    requires es != [] && es[0].id != id
    ensures id in EntryIds(es) <==> id in EntryIds(es[1..])
  {
    if id in EntryIds(es) {
      var i :| 0 <= i < |es| && es[i].id == id;
      assert es[1..][i - 1] == es[i];
    }
    if id in EntryIds(es[1..]) {
      var i :| 0 <= i < |es[1..]| && es[1..][i].id == id;
      assert es[i + 1] == es[1..][i];
    }
  }

  /** `notes || null` on already trimmed notes. */
  function NotesOrNull(trimmed: string): (r: Option<string>)
    ensures r.None? <==> trimmed == []
    ensures r.Some? ==> r.value == trimmed
  {
    if trimmed == [] then None else Some(trimmed)
  }

  /** The entry the form describes: description trimmed, notes trimmed and
      `null` when nothing is left. */
  function FromForm(id: string, timestamp: string, description: string, notes: string): (e: Entry)
    ensures e.id == id && e.timestamp == timestamp
    ensures e.description == Trim(description) && Trimmed(e.description)
    ensures e.description == [] <==> AllWhitespace(description)
    ensures e.notes.None? <==> AllWhitespace(notes)
    ensures e.notes.Some? ==> e.notes.value == Trim(notes) && Trimmed(e.notes.value)
  {
    Entry(id, timestamp, Trim(description), NotesOrNull(Trim(notes)))
  }

  /** The form fields fail validation: no date/time, or a blank description. */
  predicate MissingFields(datetime: string, description: string) {
    datetime == [] || AllWhitespace(description)
  }

  /** `!datetime || !description` on the trimmed description is exactly
      `MissingFields`. */
  lemma MissingFieldsByTrim(datetime: string, description: string)
    ensures MissingFields(datetime, description) <==> datetime == [] || Trim(description) == []
  {
  }

  /** `addEntry`: a new entry from the form goes to the front of the list. */
  function AddEntry(s: Tracker, datetime: string, description: string, notes: string,
                    id: string, parse: DateParser): (r: Result<Tracker>)
    ensures MissingFields(datetime, description) ==> r == Rejected(Alert(MissingFieldsMessage))
    ensures !MissingFields(datetime, description) && parse(datetime).None? ==> r == Rejected(InvalidDate)
    ensures r.Ok? <==> !MissingFields(datetime, description) && parse(datetime).Some?
    ensures r.Ok? ==>
      && |r.value.entries| == |s.entries| + 1
      && (forall i :: 0 <= i < |s.entries| ==> r.value.entries[i + 1] == s.entries[i])
      && r.value.entries[0] == FromForm(id, parse(datetime).value, description, notes)
      && r.value.entries[0].description != []
      && r.value.templates == s.templates
      && r.value.editingEntryId == s.editingEntryId
  {
    MissingFieldsByTrim(datetime, description);
    if datetime == [] || Trim(description) == [] then Rejected(Alert(MissingFieldsMessage))
    else match parse(datetime)
      case None => Rejected(InvalidDate)
      case Some(ts) =>
        var e := FromForm(id, ts, description, notes);
        ShiftedDown(e, s.entries);
        Ok(s.(entries := [e] + s.entries))
  }

  /** Putting an entry in front moves every old entry down one place. */
  lemma ShiftedDown(e: Entry, es: seq<Entry>)
    ensures |[e] + es| == |es| + 1 && ([e] + es)[0] == e
    ensures forall i :: 0 <= i < |es| ==> ([e] + es)[i + 1] == es[i]
  {
  }

  /** `createQuickEntry`: an entry with the placeholder description and no
      notes goes to the front of the list. */
  function CreateQuickEntry(s: Tracker, datetime: string, id: string, parse: DateParser): (r: Result<Tracker>)
    ensures r.Ok? <==> parse(datetime).Some?
    ensures r.Rejected? ==> r.why == InvalidDate
    ensures r.Ok? ==>
      && |r.value.entries| == |s.entries| + 1
      && (forall i :: 0 <= i < |s.entries| ==> r.value.entries[i + 1] == s.entries[i])
      && r.value.entries[0] == Entry(id, parse(datetime).value, QuickEntryDescription, None)
      && r.value.templates == s.templates
      && r.value.editingEntryId == s.editingEntryId
  {
    match parse(datetime)
    case None => Rejected(InvalidDate)
    case Some(ts) => Ok(s.(entries := [Entry(id, ts, QuickEntryDescription, None)] + s.entries))
  }

  /** `addEntryWithCurrentTime` and `addEntryWithSelectedTime`: a quick entry
      is made only when the date/time field holds a value. The current time
      written into the field beforehand is the `value` argument. */
  function QuickCapture(s: Tracker, value: string, id: string, parse: DateParser): (r: Result<Tracker>)
    ensures value == [] ==> r == Rejected(Ignored)
    ensures value != [] ==> r == CreateQuickEntry(s, value, id, parse)
  {
    if value == [] then Rejected(Ignored) else CreateQuickEntry(s, value, id, parse)
  }

  /** `editEntry` without the form: an existing entry becomes the edit
      target, replacing any previous one; an unknown id changes nothing. */
  function EditEntry(s: Tracker, id: string): (r: Tracker)
    ensures r.entries == s.entries && r.templates == s.templates
    ensures id in EntryIds(s.entries) ==> r.editingEntryId == Some(id)
    ensures id !in EntryIds(s.entries) ==> r == s
  {
    if FindIndex(s.entries, id) == -1 then s else s.(editingEntryId := Some(id))
  }

  /** `cancelEdit` without the form: the edit target is dropped. */
  function CancelEdit(s: Tracker): (r: Tracker)
    ensures r.editingEntryId == None
    ensures r.entries == s.entries && r.templates == s.templates
  {
    s.(editingEntryId := None)
  }

  /** There is no edit target in the sense of `!this.editingEntryId`, which
      also treats the empty id as absent. */
  predicate NotEditing(s: Tracker) {
    s.editingEntryId.None? || s.editingEntryId.value == []
  }

  /** `updateEntry`: the edited entry gets the form's timestamp, description
      and notes in place, and the edit ends. */
  function UpdateEntry(s: Tracker, datetime: string, description: string, notes: string,
                       parse: DateParser): (r: Result<Tracker>)
    ensures NotEditing(s) ==> r == Rejected(Ignored)
    ensures !NotEditing(s) && MissingFields(datetime, description) ==> r == Rejected(Alert(MissingFieldsMessage))
    ensures (!NotEditing(s) && !MissingFields(datetime, description)
             && s.editingEntryId.value !in EntryIds(s.entries)) ==> r == Rejected(Ignored)
    ensures (!NotEditing(s) && !MissingFields(datetime, description)
             && s.editingEntryId.value in EntryIds(s.entries) && parse(datetime).None?) ==> r == Rejected(InvalidDate)
    ensures r.Ok? <==>
      && !NotEditing(s) && !MissingFields(datetime, description)
      && s.editingEntryId.value in EntryIds(s.entries) && parse(datetime).Some?
    ensures r.Ok? ==>
      var k := FindIndex(s.entries, s.editingEntryId.value);
      && 0 <= k < |s.entries|
      && |r.value.entries| == |s.entries|
      && (forall j :: 0 <= j < |s.entries| && j != k ==> r.value.entries[j] == s.entries[j])
      && r.value.entries[k] == FromForm(s.entries[k].id, parse(datetime).value, description, notes)
      && r.value.templates == s.templates
      && r.value.editingEntryId == None
  {
    if s.editingEntryId.None? || s.editingEntryId.value == [] then Rejected(Ignored)
    else
      if datetime == [] || Trim(description) == [] then Rejected(Alert(MissingFieldsMessage))
      else
        var k := FindIndex(s.entries, s.editingEntryId.value);
        if k == -1 then Rejected(Ignored)
        else match parse(datetime)
          case None => Rejected(InvalidDate)
          case Some(ts) =>
            var e := FromForm(s.entries[k].id, ts, description, notes);
            Ok(CancelEdit(s.(entries := s.entries[k := e])))
  }

  /** `deleteEntry`: every entry with that id goes; the rest keep their
      order. The edit target is left as it was. */
  function DeleteEntry(s: Tracker, id: string): (r: Tracker)
    ensures forall e :: e in r.entries ==> e.id != id
    ensures forall e :: e in s.entries && e.id != id ==> e in r.entries
    ensures forall e :: e in r.entries ==> e in s.entries
    ensures forall e :: multiset(r.entries)[e] == (if e.id != id then multiset(s.entries)[e] else 0)
    ensures Subsequence(r.entries, s.entries)
    ensures id !in EntryIds(s.entries) ==> r == s
    ensures r.templates == s.templates && r.editingEntryId == s.editingEntryId
  {
    FilterKeepsAbsent(s.entries, id);
    s.(entries := Filter(s.entries, OtherEntry(id)))
  }

  /** The filter predicate of `deleteEntry`. */
  function OtherEntry(id: string): Entry -> bool {
    (e: Entry) => e.id != id
  }

  lemma FilterKeepsAbsent(es: seq<Entry>, id: string)
    ensures id !in EntryIds(es) ==> Filter(es, OtherEntry(id)) == es
  {
    if id !in EntryIds(es) {
      FilterKeepsAll(es, OtherEntry(id));
    }
  }

  /** `clearAll`: the entries are emptied only when the user confirms. */
  function ClearAll(s: Tracker, confirmed: bool): (r: Tracker)
    ensures confirmed ==> r.entries == []
    ensures !confirmed ==> r == s
    ensures r.templates == s.templates && r.editingEntryId == s.editingEntryId
  {
    if confirmed then s.(entries := []) else s
  }
}
