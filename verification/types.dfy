/**
 The data of the time tracker: entries, templates, the controller state that
 owns both collections together with the single edit target, and the ways an
 operation can decline to change that state.
 */
module Types {

  /** JavaScript's `null` next to a present value. */
  datatype Option<+T> = None | Some(value: T)

  /** A logged activity. `timestamp` is the canonical ISO text produced by
      `new Date(input).toISOString()`; `notes` is `None` where the source
      stores `null`. */
  datatype Entry = Entry(id: string, timestamp: string, description: string, notes: Option<string>)

  /** A reusable description. */
  datatype Template = Template(id: string, name: string)

  /** The in-memory state of the controller: entries newest first, templates
      in insertion order, and the id of the entry open in the form, if any. */
  datatype Tracker = Tracker(entries: seq<Entry>, templates: seq<Template>, editingEntryId: Option<string>)

  /** Why an operation left the state as it was.
      - `Alert`: the source shows the message and returns;
      - `Ignored`: the source returns without a word;
      - `InvalidDate`: `toISOString` throws on an unparseable date before
        anything is stored. */
  datatype Rejection = Alert(message: string) | Ignored | InvalidDate

  /** Outcome of an operation: the new value, or the reason nothing changed. */
  datatype Result<+T> = Ok(value: T) | Rejected(why: Rejection)

  /** The host's `new Date(text).toISOString()`: the canonical timestamp, or
      `None` where the host throws because the date is invalid. */
  type DateParser = string -> Option<string>

  const MissingFieldsMessage: string := "Please enter both date/time and description"
  const MissingTemplateNameMessage: string := "Please enter template name"
  const NoEntriesMessage: string := "No entries to download"

  /** The description a quick entry carries until the user fills it in. */
  const QuickEntryDescription: string := "(Click to add description)"

  /** A fresh controller, as after loading two empty collections. */
  const EmptyTracker: Tracker := Tracker([], [], None)

  /** The key the source looks entries up by. */
  function EntryId(e: Entry): string { e.id }

  /** The key the source looks templates up by. */
  function TemplateId(t: Template): string { t.id }

  /** The ids of a list of entries. */
  function EntryIds(es: seq<Entry>): (ids: set<string>)
    ensures forall i :: 0 <= i < |es| ==> es[i].id in ids
    ensures forall id :: id in ids ==> exists i :: 0 <= i < |es| && es[i].id == id
  {
    set e | e in es :: e.id
  }

  /** The ids of a list of templates. */
  function TemplateIds(ts: seq<Template>): (ids: set<string>)
    ensures forall i :: 0 <= i < |ts| ==> ts[i].id in ids
    ensures forall id :: id in ids ==> exists i :: 0 <= i < |ts| && ts[i].id == id
  {
    set t | t in ts :: t.id
  }
}
