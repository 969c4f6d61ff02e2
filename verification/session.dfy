/**
 Facts about sequences of operations on one controller: ids stay distinct
 when every new id is fresh, the edit target and what can leave it pointing
 at nothing, newest-first order, the deferred opening of a quick entry, and
 the idempotence of deletion and clearing.
 */
module Session {
  import opened Types
  import opened JsString
  import opened Seqs
  import opened CsvReader
  import opened Entries
  import opened Templates
  import opened Export

  /** No two entries and no two templates share an id. The source does not
      enforce this; it holds as long as every id handed out is fresh. */
  predicate DistinctIds(s: Tracker) {
    DistinctKeys(s.entries, EntryId) && DistinctKeys(s.templates, TemplateId)
  }

  /** The edit target, when there is one, names an entry in the list. */
  predicate EditTargetExists(s: Tracker) {
    s.editingEntryId.None? || s.editingEntryId.value in EntryIds(s.entries)
  }

  /** Putting an entry with a fresh id in front keeps ids distinct. */
  lemma PrependKeepsDistinct(e: Entry, es: seq<Entry>)
    requires DistinctKeys(es, EntryId) && e.id !in EntryIds(es)
    ensures DistinctKeys([e] + es, EntryId)
  {
    forall y | y in es ensures EntryId(y) != EntryId(e) {
      assert y.id in EntryIds(es);
    }
    PrependDistinct(e, es, EntryId);
  }

  lemma AddEntryKeepsDistinct(s: Tracker, datetime: string, description: string, notes: string,
                              id: string, parse: DateParser)
    requires DistinctIds(s) && id !in EntryIds(s.entries)
    ensures AddEntry(s, datetime, description, notes, id, parse).Ok? ==>
      DistinctIds(AddEntry(s, datetime, description, notes, id, parse).value)
  {
    var r := AddEntry(s, datetime, description, notes, id, parse);
    if r.Ok? {
      PrependKeepsDistinct(r.value.entries[0], s.entries);
      assert r.value.entries == [r.value.entries[0]] + s.entries;
    }
  }

  lemma CreateQuickEntryKeepsDistinct(s: Tracker, datetime: string, id: string, parse: DateParser)
    requires DistinctIds(s) && id !in EntryIds(s.entries)
    ensures CreateQuickEntry(s, datetime, id, parse).Ok? ==>
      DistinctIds(CreateQuickEntry(s, datetime, id, parse).value)
  {
    var r := CreateQuickEntry(s, datetime, id, parse);
    if r.Ok? {
      PrependKeepsDistinct(r.value.entries[0], s.entries);
      assert r.value.entries == [r.value.entries[0]] + s.entries;
    }
  }

  /** An update keeps the edited entry's id, so ids stay distinct, and it
      ends the edit. */
  lemma UpdateEntryKeepsDistinct(s: Tracker, datetime: string, description: string, notes: string,
                                 parse: DateParser)
    requires DistinctIds(s)
    ensures UpdateEntry(s, datetime, description, notes, parse).Ok? ==>
      && DistinctIds(UpdateEntry(s, datetime, description, notes, parse).value)
      && EditTargetExists(UpdateEntry(s, datetime, description, notes, parse).value)
  {
    var r := UpdateEntry(s, datetime, description, notes, parse);
    if r.Ok? {
      var k := FindIndex(s.entries, s.editingEntryId.value);
      var e := r.value.entries[k];
      assert r.value.entries == s.entries[k := e];
      ReplaceKeepsDistinct(s.entries, k, e);
    }
  }

  /** Replacing an entry by one with the same id keeps ids distinct. */
  lemma ReplaceKeepsDistinct(es: seq<Entry>, k: nat, e: Entry)
    requires k < |es| && e.id == es[k].id && DistinctKeys(es, EntryId)
    ensures DistinctKeys(es[k := e], EntryId)
  {
    var r := es[k := e];
    forall i, j | 0 <= i < j < |r| ensures EntryId(r[i]) != EntryId(r[j]) {
      assert EntryId(r[i]) == EntryId(es[i]) && EntryId(r[j]) == EntryId(es[j]);
    }
  }

  lemma DeleteEntryKeepsDistinct(s: Tracker, id: string)
    requires DistinctIds(s)
    ensures DistinctIds(DeleteEntry(s, id))
  {
    FilterKeepsDistinct(s.entries, OtherEntry(id), EntryId);
  }

  lemma AddTemplateKeepsDistinct(s: Tracker, name: string, id: string)
    requires DistinctIds(s) && id !in TemplateIds(s.templates)
    ensures AddTemplate(s, name, id).Ok? ==> DistinctIds(AddTemplate(s, name, id).value)
  {
    var r := AddTemplate(s, name, id);
    if r.Ok? {
      AppendKeepsDistinct(s.templates, r.value.templates);
    }
  }

  /** Putting a template with a fresh id at the end keeps template ids
      distinct. */
  lemma AppendKeepsDistinct(ts: seq<Template>, r: seq<Template>)
    requires DistinctKeys(ts, TemplateId)
    requires |r| == |ts| + 1 && r[..|ts|] == ts && r[|ts|].id !in TemplateIds(ts)
    ensures DistinctKeys(r, TemplateId)
  {
    var n := |ts|;
    forall i, j | 0 <= i < j < |r| ensures TemplateId(r[i]) != TemplateId(r[j]) {
      assert r[i] == r[..n][i];
      if j < n {
        assert r[j] == r[..n][j];
      }
    }
  }

  lemma DeleteTemplateKeepsDistinct(s: Tracker, id: string)
    requires DistinctIds(s)
    ensures DistinctIds(DeleteTemplate(s, id))
  {
    FilterKeepsDistinct(s.templates, OtherTemplate(id), TemplateId);
  }

  /** Opening, cancelling and deleting another entry never leave the edit
      target pointing at a missing entry. */
  lemma EditTargetKept(s: Tracker, id: string)
    requires EditTargetExists(s)
    ensures EditTargetExists(EditEntry(s, id))
    ensures EditTargetExists(CancelEdit(s))
    ensures DeleteEntry(s, id).editingEntryId != Some(id) ==> EditTargetExists(DeleteEntry(s, id))
  {
    var d := DeleteEntry(s, id);
    if d.editingEntryId.Some? && d.editingEntryId.value != id {
      var t := d.editingEntryId.value;
      var k :| 0 <= k < |s.entries| && s.entries[k].id == t;
      assert s.entries[k] in d.entries;
    }
  }

  /** Adding an entry in front never leaves the edit target pointing at a
      missing entry. */
  lemma EditTargetKeptByAdding(s: Tracker, datetime: string, description: string, notes: string,
                               newId: string, parse: DateParser)
    requires EditTargetExists(s)
    ensures AddEntry(s, datetime, description, notes, newId, parse).Ok? ==>
      EditTargetExists(AddEntry(s, datetime, description, notes, newId, parse).value)
    ensures CreateQuickEntry(s, datetime, newId, parse).Ok? ==>
      EditTargetExists(CreateQuickEntry(s, datetime, newId, parse).value)
  {
    var a := AddEntry(s, datetime, description, notes, newId, parse);
    if a.Ok? && s.editingEntryId.Some? {
      InFront(s.entries, a.value.entries);
    }
    var q := CreateQuickEntry(s, datetime, newId, parse);
    if q.Ok? && s.editingEntryId.Some? {
      InFront(s.entries, q.value.entries);
    }
  }

  /** Deleting the entry that is open for editing leaves the edit target
      pointing at nothing: `deleteEntry` does not touch `editingEntryId`.
      The next update is then dropped without a word at the failed lookup,
      and the edit target still dangles. */
  lemma DeletingEditedEntryDangles(s: Tracker, id: string, datetime: string, description: string,
                                   notes: string, parse: DateParser)
    requires s.editingEntryId == Some(id) && id != []
    requires !MissingFields(datetime, description)
    ensures DeleteEntry(s, id).editingEntryId == Some(id)
    ensures !EditTargetExists(DeleteEntry(s, id))
    ensures UpdateEntry(DeleteEntry(s, id), datetime, description, notes, parse) == Rejected(Ignored)
  {
  }

  /** Clearing with a confirmation while an entry is open leaves the edit
      target pointing at nothing. */
  lemma ClearingWhileEditingDangles(s: Tracker, id: string)
    requires s.editingEntryId == Some(id)
    ensures ClearAll(s, true).editingEntryId == Some(id)
    ensures !EditTargetExists(ClearAll(s, true))
  {
  }

  /** Two entries added one after the other: the later one comes first. */
  lemma NewestFirst(s: Tracker, d1: string, desc1: string, n1: string, id1: string,
                    d2: string, desc2: string, n2: string, id2: string, parse: DateParser)
    requires !MissingFields(d1, desc1) && parse(d1).Some?
    requires !MissingFields(d2, desc2) && parse(d2).Some?
    ensures AddEntry(AddEntry(s, d1, desc1, n1, id1, parse).value, d2, desc2, n2, id2, parse).value.entries
         == [FromForm(id2, parse(d2).value, desc2, n2), FromForm(id1, parse(d1).value, desc1, n1)] + s.entries
  {
    var s1 := AddEntry(s, d1, desc1, n1, id1, parse).value;
    var s2 := AddEntry(s1, d2, desc2, n2, id2, parse).value;
    AddEntryFront(s, d1, desc1, n1, id1, parse);
    AddEntryFront(s1, d2, desc2, n2, id2, parse);
    TwoInFront(s.entries, s1.entries, s2.entries,
               FromForm(id1, parse(d1).value, desc1, n1), FromForm(id2, parse(d2).value, desc2, n2));
  }

  lemma TwoInFront(es: seq<Entry>, es1: seq<Entry>, es2: seq<Entry>, e1: Entry, e2: Entry)
    requires es1 == [e1] + es && es2 == [e2] + es1
    ensures es2 == [e2, e1] + es
  {
  }

  /** A successful `addEntry` puts the form's entry in front of the old list. */
  lemma AddEntryFront(s: Tracker, datetime: string, description: string, notes: string,
                      id: string, parse: DateParser)
    requires !MissingFields(datetime, description) && parse(datetime).Some?
    ensures AddEntry(s, datetime, description, notes, id, parse).value.entries
         == [FromForm(id, parse(datetime).value, description, notes)] + s.entries
  {
    var r := AddEntry(s, datetime, description, notes, id, parse).value;
    InFront(s.entries, r.entries);
  }

  /** A list that holds another one shifted down by one place is that list
      with one entry put in front, and holds all its ids. */
  lemma InFront(es: seq<Entry>, r: seq<Entry>)
    requires |r| == |es| + 1
    requires forall i :: 0 <= i < |es| ==> r[i + 1] == es[i]
    ensures r == [r[0]] + es
    ensures EntryIds(es) <= EntryIds(r)
  {
    forall t | t in EntryIds(es) ensures t in EntryIds(r) {
      var k :| 0 <= k < |es| && es[k].id == t;
      assert r[k + 1].id == t;
    }
  }

  /** Opening an entry and cancelling touches neither list. */
  lemma EditThenCancel(s: Tracker, id: string)
    ensures CancelEdit(EditEntry(s, id)) == s.(editingEntryId := None)
  {
  }

  /** The deferred `editEntry(entry.id)` after a quick entry opens that entry;
      if the entry was deleted in between, it does nothing. */
  lemma QuickEntryThenEdit(s: Tracker, value: string, id: string, parse: DateParser)
    requires QuickCapture(s, value, id, parse).Ok?
    ensures EditEntry(QuickCapture(s, value, id, parse).value, id).editingEntryId == Some(id)
    ensures var d := DeleteEntry(QuickCapture(s, value, id, parse).value, id);
      EditEntry(d, id) == d
  {
    var q := QuickCapture(s, value, id, parse).value;
    assert q.entries[0].id == id;
  }

  /** Clearing twice with the same answer is clearing once. */
  lemma ClearAllIdempotent(s: Tracker, confirmed: bool)
    ensures ClearAll(ClearAll(s, confirmed), confirmed) == ClearAll(s, confirmed)
  {
  }

  /** Deleting by the same id twice is deleting once. */
  lemma {:induction false} DeleteEntryIdempotent(s: Tracker, id: string)
    ensures DeleteEntry(DeleteEntry(s, id), id) == DeleteEntry(s, id)
  {
    FilterIdempotent(s.entries, OtherEntry(id));
  }

  lemma {:induction false} DeleteTemplateIdempotent(s: Tracker, id: string)
    ensures DeleteTemplate(DeleteTemplate(s, id), id) == DeleteTemplate(s, id)
  {
    FilterIdempotent(s.templates, OtherTemplate(id));
  }

  /** A confirmed clear leaves nothing to export. */
  lemma ClearThenDownload(s: Tracker, fmt: Formatter)
    ensures DownloadCsv(ClearAll(s, true), fmt) == Rejected(Alert(NoEntriesMessage))
  {
  }

  /** The stand-up example: an entry logged at 10:30 on 15 January 2024 with
      description `Standup` and no notes, when the host reads that input as
      that instant in UTC, is stored with the canonical timestamp, the
      description and no notes. */
  lemma StandupEntry(id: string, parse: DateParser)
    requires parse("2024-01-15T10:30:00") == Some("2024-01-15T10:30:00.000Z")
    ensures AddEntry(EmptyTracker, "2024-01-15T10:30:00", "Standup", "", id, parse)
         == Ok(Tracker([Entry(id, "2024-01-15T10:30:00.000Z", "Standup", None)], [], None))
  {
    StandupIsTrimmed();
    var r := AddEntry(EmptyTracker, "2024-01-15T10:30:00", "Standup", "", id, parse);
    assert r.value.entries == [r.value.entries[0]];
  }

  lemma StandupIsTrimmed()
    ensures Trim("Standup") == "Standup"
  {
    var standup := "Standup";
    assert standup[0] == 'S' && standup[|standup| - 1] == 'p';
    StripsIsTrim(standup, standup, 0);
  }

  /** Exporting a tracker that holds only that entry gives two records; the
      second shows the UTC time, `Standup` and an empty notes field. */
  lemma StandupExport(s: Tracker, fmt: Formatter)
    requires |s.entries| == 1
    requires s.entries[0].timestamp == "2024-01-15T10:30:00.000Z"
    requires s.entries[0].description == "Standup" && s.entries[0].notes == None
    requires fmt.toIso("2024-01-15T10:30:00.000Z") == "2024-01-15T10:30:00.000Z"
    ensures var doc := ReadDocument(DownloadCsv(s, fmt).value);
      && |doc| == 2
      && |doc[1]| == 5
      && doc[1][2] == "2024-01-15 10:30:00 UTC"
      && doc[1][3] == "Standup"
      && doc[1][4] == []
  {
    DownloadShape(s, fmt);
    UtcTextExample();
  }
}
