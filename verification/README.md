# Time tracker logic in Dafny

A model of the logic layer of the browser time tracker's `TimeTracker`
controller (`script.js`), with the page, the clock and the host's date
library taken out. The controller owns three pieces of state:

- a list of time entries, kept newest first;
- a list of description templates, kept in insertion order;
- the id of the entry open in the form for editing, if any.

Each operation is a pure function from the old state and the form's values to
either the new state or the reason the source left the state alone. The source
has three such reasons: it shows an alert and returns, it returns without a
word, or `new Date(x).toISOString()` throws on an invalid date before anything
is stored.

Modules:

- `Types`: entries, templates, the controller state, rejections and messages.
- `JsString`: `String.prototype.trim` over ECMAScript's whitespace set, with a
  uniqueness characterisation, and `join`.
- `Seqs`: `filter`, order preservation (subsequence), idempotence and
  distinct keys.
- `Csv`: `csvEscape` and the quoting rule of section 2 of RFC 4180 that it
  applies.
- `CsvReader`: an independent reader for that CSV dialect. An unquoted field
  ends only at a comma or a line feed and keeps every other character,
  carriage return included, as text. Every escape, row and document the
  tracker writes is proved to read back under this reader as what was written.
- `Entries`, `Templates`: the entry and template operations, and the
  edit-target state machine.
- `Export`: the text `downloadCSV` builds.
- `Session`: facts about sequences of operations.

Behaviours of the code the model keeps on purpose:

- Deleting or clearing entries leaves `editingEntryId` as it was. If the
  entry open for editing is deleted, the edit target names nothing. The next
  update then fails its lookup and is dropped silently. See
  `Session.DeletingEditedEntryDangles` and `Session.ClearingWhileEditingDangles`.
- `editEntry` with an unknown id returns silently; it does not report "not
  found".
- `addEntry` does not check whether an edit is in progress.
- A lone carriage return does not make `csvEscape` quote a field. The check is
  only for comma, double quote and line feed. See `Csv.CarriageReturnNotQuoted`.
  The proved round trip for such a field holds for `CsvReader`, which keeps a
  carriage return as text; a reader that treats a carriage return as a line
  break splits the field.
- `!this.editingEntryId` is JavaScript truthiness, so an empty-string edit
  target counts as "not editing" (`Entries.NotEditing`).

## Model

| member | source | states |
|---|---|---|
| `Csv.NeedsQuoting` | script.js:478 | a field is quoted when it holds a comma, a double quote or a line feed |
| `Csv.CsvEscape` | script.js:475-482 | a field with no comma, double quote or line feed comes back unchanged; otherwise the result begins and ends with a double quote |
| `Csv.EscapeUndoubles` | script.js:478-479 | inside the outer quotes of an escaped field every double quote is paired, and reading pairs back as single quotes recovers the value |
| `Csv.CsvEscapeValue` | script.js:476 | an absent value escapes to the empty field; a present one is escaped as a string |
| `Csv.DoubleQuotes` | script.js:479 | the global quote replacement never shortens its input and leaves text without a double quote unchanged |
| `Csv.DoubleQuotesPaired` | script.js:479 | the replaced text has every double quote paired and reads back as the input |
| `Csv.DoubleQuotesAppend` | script.js:479 | replacing in a concatenation is concatenating the replaced pieces |
| `Csv.PairedQuotesUnique` | script.js:479 | any paired-quote body is the doubling of what it un-doubles to, so the escaped form of a value is unique |
| `Csv.EscapeExample` | script.js:478-479 | `a,b"c` is written as `"a,b""c"` |
| `Csv.CarriageReturnNotQuoted` | script.js:478 | a field holding only a carriage return as special character is left unquoted |
| `Csv.EscapeAll` | script.js:452-457 | each field of a line is escaped, in order |
| `CsvReader.EscapeRoundTrip` | script.js:475-482 | reading an escaped field, followed by end of input, a comma or a line feed, gives back the original value and leaves the rest |
| `CsvReader.RowRoundTrip` | script.js:452-458 | a line of escaped fields joined by commas reads back as the same list of fields |
| `CsvReader.DocumentRoundTrip` | script.js:444-460 | lines joined by line feeds read back as the same records, in order |
| `CsvReader.ReadDoubled` | script.js:479 | a doubled body followed by the closing quote reads back as the original text |
| `JsString.Trim` | script.js:190-191 | the result drops only whitespace at both ends, is itself trimmed, and is empty exactly when the input is all whitespace |
| `JsString.StripsIsTrim` | script.js:190-191 | any trimmed middle part of the input bordered only by whitespace is the result of trim |
| `JsString.TrimIdempotent` | script.js:126 | trimming a trimmed name changes nothing |
| `Seqs.Filter` | script.js:291 | the kept elements are exactly those of the input that pass, each as many times as in the input and none of the others, in their original relative order |
| `Seqs.FilterIdempotent` | script.js:147 | filtering twice by the same predicate is filtering once |
| `Seqs.FilterKeepsAll` | script.js:291 | a filter every element passes returns the list unchanged |
| `Seqs.FilterKeepsDistinct` | script.js:291 | filtering never makes two remaining elements share a key |
| `JsString.IsWhitespace` | script.js:190-191 | the characters `trim` removes: the ECMAScript WhiteSpace and LineTerminator code points |
| `JsString.Join` | script.js:445 | `join` of one or more parts begins with the first part |
| `JsString.JoinLength` | script.js:445 | a join is as long as the parts together plus one separator between each pair of neighbours |
| `Entries.FindIndex` | script.js:260 | the result is the first position holding the id, or -1 exactly when no entry has it |
| `Entries.NotesOrNull` | script.js:202 | `notes || null` on trimmed notes is absent exactly when they are empty, and otherwise holds them unchanged |
| `Entries.MissingFields` | script.js:193 | the fields fail validation when the date/time is empty or the description is all whitespace |
| `Entries.MissingFieldsByTrim` | script.js:193 | `!datetime || !description` on the trimmed description holds exactly when `MissingFields` does |
| `Entries.NotEditing` | script.js:245 | `!this.editingEntryId` is true for no edit target and for an empty-string one |
| `Entries.FromForm` | script.js:198-203 | the stored description is the trimmed input; the notes are absent exactly when the notes input is all whitespace, and otherwise hold the trimmed notes |
| `Entries.AddEntry` | script.js:184-214 | an empty date/time or a blank description raises the fields alert; an invalid date stores nothing; otherwise the new entry is at position 0, the list grows by one, every old entry moves down one place, and templates and the edit target are untouched |
| `Entries.CreateQuickEntry` | script.js:325-333 | one entry with the placeholder description and no notes is put in front; everything else keeps its place; an invalid date stores nothing |
| `Entries.QuickCapture` | script.js:308-323 | an empty date/time field does nothing; otherwise a quick entry is made from the field's value |
| `Entries.EditEntry` | script.js:216-220 | an existing id becomes the edit target, replacing any previous one; an unknown id changes nothing |
| `Entries.CancelEdit` | script.js:275-276 | the edit target is cleared and both lists are untouched |
| `Entries.UpdateEntry` | script.js:244-273 | it does nothing without an edit target, raises the fields alert on empty fields, does nothing when the target is gone, and stores nothing when the date is invalid. On success it replaces timestamp, description and notes only at the target's position, keeps the id, length and all other entries, and clears the edit target |
| `Entries.OtherEntry` | script.js:291 | the filter test of `deleteEntry` keeps an entry exactly when its id differs from the one deleted |
| `Entries.DeleteEntry` | script.js:290-294 | no entry with the id remains; every other entry stays, as many times as before, in its relative order; an absent id changes nothing; templates and the edit target are untouched |
| `Entries.ClearAll` | script.js:429-435 | with confirmation the entries are emptied; without it nothing changes; templates are never touched |
| `Templates.AddTemplate` | script.js:123-144 | a blank name raises the template alert and changes nothing; otherwise `{id, trimmed name}` is appended and the count grows by exactly one |
| `Templates.OtherTemplate` | script.js:147 | the filter test of `deleteTemplate` keeps a template exactly when its id differs from the one deleted |
| `Templates.DeleteTemplate` | script.js:146-150 | no template with the id remains; the others stay, as many times as before, in their relative order; an absent id changes nothing |
| `Export.ReplaceFirst` | script.js:450 | `replace` with a one-character pattern changes the first occurrence of the character and nothing else |
| `Export.UtcText` | script.js:353-354 | for an ISO-shaped timestamp, the UTC text is the date, a space, the time to the second and ` UTC` |
| `Export.Prefix` | script.js:450 | `slice(0, n)` is the first `n` characters, or the whole of a shorter text |
| `Export.ExtendedYearUtcText` | script.js:450 | for a six-digit signed year, with the `T` at position 13, the UTC text keeps the date, hours and minutes and loses the seconds |
| `Export.ReplaceInIso` | script.js:450 | in an ISO-shaped timestamp the first `T` replaced is the date/time separator, so the first 19 characters become date, space, time |
| `Export.UtcTextExample` | script.js:450 | `2024-01-15T10:30:00.000Z` is shown as `2024-01-15 10:30:00 UTC` |
| `Export.NotesText` | script.js:457 | missing notes become the empty string |
| `Export.EntryFields` | script.js:447-457 | an entry's five values are the stored timestamp, its local text, its UTC text, the description, and the notes or an empty string |
| `Csv.Row` | script.js:452-458 | a line is the escaped fields joined by commas; `CsvReader.RowRoundTrip` reads it back |
| `Export.Records` | script.js:446-459 | one five-field record per entry, in list order |
| `Export.HeaderLine` | script.js:443-445 | the header line, joined without escaping, equals the escaped row of the five header names |
| `Export.HeaderThenRows` | script.js:444-460 | the header line followed by the entry rows reads back as the header names followed by the records |
| `Export.DownloadCsv` | script.js:437-460 | an empty list raises the no-entries alert; otherwise the document reads back as the header record followed by each entry's fields in list order |
| `Export.DownloadShape` | script.js:443-460 | the document has one record more than there are entries. The first record is the header. Record i+1 has five fields: the stored timestamp, the local text, the UTC text, the description, and the notes or an empty field |
| `Session.PrependKeepsDistinct` | script.js:205 | putting an entry with a fresh id in front keeps entry ids distinct |
| `Session.AddEntryKeepsDistinct` | script.js:198-205 | adding with a fresh id keeps all ids distinct |
| `Session.CreateQuickEntryKeepsDistinct` | script.js:326-333 | a quick entry with a fresh id keeps all ids distinct |
| `Session.UpdateEntryKeepsDistinct` | script.js:263-272 | a successful update keeps ids distinct and leaves no dangling edit target |
| `Session.DeleteEntryKeepsDistinct` | script.js:291 | deleting entries keeps ids distinct |
| `Session.AddTemplateKeepsDistinct` | script.js:133-138 | appending a template with a fresh id keeps ids distinct |
| `Session.DeleteTemplateKeepsDistinct` | script.js:147 | deleting templates keeps ids distinct |
| `Session.EditTargetKept` | script.js:216-220 | opening, cancelling and deleting another entry never make the edit target name a missing entry |
| `Session.EditTargetKeptByAdding` | script.js:205 | adding an entry or a quick entry in front keeps an existing edit target valid |
| `Session.InFront` | script.js:205 | a list that holds another shifted down by one place is that list with one entry in front, and keeps every id it had |
| `Session.DeletingEditedEntryDangles` | script.js:290-294 | deleting the entry being edited keeps its id as edit target although no entry has it, and the next valid update is dropped at the failed lookup |
| `Session.ClearingWhileEditingDangles` | script.js:429-435 | a confirmed clear during an edit leaves the edit target naming nothing |
| `Session.AddEntryFront` | script.js:205 | a successful add puts the form's entry in front of the old list |
| `Session.NewestFirst` | script.js:205 | after adding E1 and then E2, the list starts with E2, then E1, then the old entries |
| `Session.EditThenCancel` | script.js:216-220 | opening an entry and cancelling leaves both lists exactly as they were |
| `Session.QuickEntryThenEdit` | script.js:340-343 | the deferred edit after a quick entry opens it; if it was deleted in between, the edit does nothing |
| `Session.DeleteEntryIdempotent` | script.js:291 | deleting the same id twice equals deleting it once |
| `Session.DeleteTemplateIdempotent` | script.js:147 | deleting the same template id twice equals deleting it once |
| `Session.ClearAllIdempotent` | script.js:429-435 | clearing twice with the same answer equals clearing once |
| `Session.ClearThenDownload` | script.js:430-441 | after a confirmed clear the export raises the no-entries alert |
| `Session.StandupIsTrimmed` | script.js:190 | the description `Standup` is kept as typed |
| `Session.StandupEntry` | script.js:184-205 | an entry logged on an empty tracker at 10:30 on 15 January 2024 as `Standup` without notes is stored alone, with the canonical timestamp and no notes |
| `Session.StandupExport` | script.js:443-460 | exporting a tracker holding only that entry gives two records; the second has five fields and shows `2024-01-15 10:30:00 UTC`, `Standup` and an empty notes field |

## Left out

- Page rendering, event wiring, modals, focus, scrolling and form resets. These are presentation, not state.
- `escapeHtml`. It delegates to the browser's HTML serialisation.
- `useTemplate`. It only copies a template's name into the description field and closes the modal; the copied text reaches the state through `AddEntry` or `UpdateEntry`.
- Date handling. `new Date(x).toISOString()` is the `DateParser` parameter, where `None` stands for the thrown error. `toLocaleString` and the ISO re-serialisation in the export are the `Formatter` parameter. The time-zone offset arithmetic of `editEntry` and `setCurrentTime` is not modelled.
- `Export.DownloadCsv`: `Formatter.toIso` never fails, so every non-empty list exports. The source's `toISOString()` at script.js:450 throws, and nothing is downloaded, when a stored timestamp is not a valid date. Only data loaded from storage can hold one, since every stored timestamp is itself the output of `toISOString`; loading is not part of this model.
- The local branch of `formatDateTime`. It is locale formatting by the host.
- Id generation from `Date.now()`. The id is a parameter. Uniqueness is proved to be kept only when every id passed in is fresh; the source can repeat an id within one millisecond.
- `localStorage` load and save, with their JSON fallbacks. This is I/O; every operation's result state stands for what would be saved.
- The clock interval and the 100 ms `setTimeout` before a quick entry is opened. The deferred call is modelled as a later `EditEntry` on the new state (`Session.QuickEntryThenEdit`).
- The Blob, object URL and link plumbing of `downloadCSV`, and its file name. The model stops at the document text.
- `alert` and `confirm`. An alert is the `Alert` rejection with the source's message; the answer to `confirm` is a boolean input.
- Setting the date/time field to the current time before a quick entry (`addEntryWithCurrentTime`). That value is the `value` input of `QuickCapture`.
- `Export.UtcText`: stated only for ISO-shaped input (`Export.IsoShaped`: at least 19 characters, `T` at position 10 and not before), which is what `toISOString` produces for years 0000 to 9999. Years outside that range are written with a sign and six digits, which puts the `T` at position 13; `Export.ExtendedYearUtcText` states what the column then shows (no seconds). Other inputs follow the function's definition without a separate contract.
