/**
 The CSV export of `downloadCSV`, up to the text handed to the download: a
 fixed header line and one line per entry, newest first, each field escaped.
 The host's date conversions are parameters; the UTC column's text surgery
 on the ISO string is modelled.
 */
module Export {
  import opened Types
  import opened JsString
  import opened Csv
  import opened CsvReader

  /** The host's conversions of a stored timestamp: `new Date(ts)` read back
      with `toISOString()`, and `toLocaleString()`. */
  datatype Formatter = Formatter(toIso: string -> string, toLocale: string -> string)

  /** `s.replace(c, d)` with a one-character string pattern: only the first
      occurrence is replaced. */
  function ReplaceFirst(s: string, c: char, d: char): (r: string)
    ensures ReplacedFirst(s, c, d, r)
  {
    if s == [] then []
    else if s[0] == c then
      var r := [d] + s[1..];
      ReplaceAtFront(s, c, d, r);
      r
    else
      var r := [s[0]] + ReplaceFirst(s[1..], c, d);
      ReplaceAfterFront(s, c, d, r);
      r
  }

  /** `r` is `s` with the first occurrence of `c`, if any, replaced by `d`. */
  predicate ReplacedFirst(s: string, c: char, d: char, r: string) {
    && |r| == |s|
    && forall i :: 0 <= i < |s| ==> r[i] == (if s[i] == c && c !in s[..i] then d else s[i])
  }

  lemma ReplaceAtFront(s: string, c: char, d: char, r: string)
    requires s != [] && s[0] == c && r == [d] + s[1..]
    ensures ReplacedFirst(s, c, d, r)
  {
    forall i | 0 < i < |s| ensures c in s[..i] {
      assert s[..i][0] == c;
    }
  }

  lemma ReplaceAfterFront(s: string, c: char, d: char, r: string)
    requires s != [] && s[0] != c && |r| == |s| && r[0] == s[0]
    requires ReplacedFirst(s[1..], c, d, r[1..])
    ensures ReplacedFirst(s, c, d, r)
  {
    forall i | 0 < i < |s|
      ensures r[i] == (if s[i] == c && c !in s[..i] then d else s[i])
    {
      assert r[i] == r[1..][i - 1] && s[i] == s[1..][i - 1];
      assert s[..i] == [s[0]] + s[1..][..i - 1];
    }
  }

  /** `s.slice(0, n)`: the first `n` characters, or all of a shorter string. */
  function Prefix(s: string, n: nat): (r: string)
    ensures |r| == if |s| <= n then |s| else n
    ensures r <= s
  {
    if |s| <= n then s else s[..n]
  }

  /** `iso.replace('T', ' ').slice(0, 19) + ' UTC'`: the UTC column, and the
      UTC display of an entry. */
  function UtcText(iso: string): (r: string)
    ensures IsoShaped(iso) ==> r == iso[..10] + " " + iso[11..19] + " UTC"
  {
    ReplaceInIso(iso);
    Prefix(ReplaceFirst(iso, 'T', ' '), 19) + " UTC"
  }

  /** At least date and time to the second, with the `T` separator at
      position 10 and no `T` before it. */
  predicate IsoShaped(iso: string) {
    |iso| >= 19 && iso[10] == 'T' && 'T' !in iso[..10]
  }

  /** In an ISO-shaped text the first `T` is the separator. */
  lemma ReplaceInIso(iso: string)
    ensures IsoShaped(iso) ==>
      Prefix(ReplaceFirst(iso, 'T', ' '), 19) == iso[..10] + " " + iso[11..19]
  {
    if IsoShaped(iso) {
      var r := ReplaceFirst(iso, 'T', ' ');
      var want := iso[..10] + " " + iso[11..19];
      forall i | 0 <= i < 19 ensures r[i] == want[i] {
        if i < 10 {
          assert iso[i] == iso[..10][i];
        } else if i > 10 {
          assert iso[..i][10] == 'T';
        }
      }
      assert r[..19] == want;
    }
  }

  /** A year outside 0000-9999 is written `+YYYYYY` or `-YYYYYY`, which puts
      the `T` at position 13: the first 19 characters then stop after the
      minutes, and the seconds are lost. */
  lemma ExtendedYearUtcText(iso: string)
    requires |iso| >= 19 && iso[13] == 'T' && 'T' !in iso[..13]
    ensures UtcText(iso) == iso[..13] + " " + iso[14..19] + " UTC"
  {
    var r := ReplaceFirst(iso, 'T', ' ');
    var want := iso[..13] + " " + iso[14..19];
    forall i | 0 <= i < 19 ensures r[i] == want[i] {
      if i < 13 {
        assert iso[i] == iso[..13][i];
      } else if i > 13 {
        assert iso[..i][13] == 'T';
      }
    }
    assert Prefix(r, 19) == want;
  }

  /** The canonical ISO form of 10:30 on 15 January 2024, UTC, is shown as
      `2024-01-15 10:30:00 UTC`. */
  lemma UtcTextExample()
    ensures UtcText("2024-01-15T10:30:00.000Z") == "2024-01-15 10:30:00 UTC"
  {
    var iso := "2024-01-15T10:30:00.000Z";
    IsoPieces();
    UtcTextOf(iso, "2024-01-15", "10:30:00");
    UtcTextJoin();
  }

  lemma UtcTextJoin()
    ensures "2024-01-15" + " " + "10:30:00" + " UTC" == "2024-01-15 10:30:00 UTC"
  {
  }

  lemma IsoPieces()
    ensures "2024-01-15T10:30:00.000Z"[..10] == "2024-01-15"
    ensures "2024-01-15T10:30:00.000Z"[11..19] == "10:30:00"
    ensures "2024-01-15T10:30:00.000Z"[10] == 'T'
    ensures 'T' !in "2024-01-15"
  {
  }

  lemma UtcTextOf(iso: string, date: string, time: string)
    requires |iso| >= 19 && iso[10] == 'T'
    requires iso[..10] == date && 'T' !in date && iso[11..19] == time
    ensures UtcText(iso) == date + " " + time + " UTC"
  {
  }

  /** `entry.notes || ''`. */
  function NotesText(notes: Option<string>): (t: string)
    ensures notes.None? ==> t == []
    ensures notes.Some? ==> t == notes.value
  {
    match notes
    case None => []
    case Some(n) => n
  }

  /** The five values of an entry's line, before escaping. */
  function EntryFields(e: Entry, fmt: Formatter): (f: seq<string>)
    ensures FieldsShown(f, e, fmt)
  {
    [e.timestamp, fmt.toLocale(e.timestamp), UtcText(fmt.toIso(e.timestamp)), e.description, NotesText(e.notes)]
  }

  function Records(es: seq<Entry>, fmt: Formatter): (rs: seq<seq<string>>)
    ensures |rs| == |es|
    ensures forall i :: 0 <= i < |es| ==> rs[i] == EntryFields(es[i], fmt)
  {
    seq(|es|, i requires 0 <= i < |es| => EntryFields(es[i], fmt))
  }

  const HeaderNames: seq<string> :=
    ["Timestamp (ISO)", "Timestamp (Local)", "Timestamp (UTC)", "Description", "Notes"]

  /** `headers.join(',')`: the header line is written without escaping, and
      since no header name needs quoting it is the row of the header names. */
  function HeaderLine(): (line: string)
    ensures line == Row(HeaderNames)
  {
    IsoColumnUnquoted();
    LocalColumnUnquoted();
    UtcColumnUnquoted();
    DescriptionColumnUnquoted();
    NotesColumnUnquoted();
    assert EscapeAll(HeaderNames) == HeaderNames;
    Join(HeaderNames, ',')
  }

  /** No header name holds a comma, double quote or line feed. */
  lemma IsoColumnUnquoted() ensures !NeedsQuoting("Timestamp (ISO)") {}
  lemma LocalColumnUnquoted() ensures !NeedsQuoting("Timestamp (Local)") {}
  lemma UtcColumnUnquoted() ensures !NeedsQuoting("Timestamp (UTC)") {}
  lemma DescriptionColumnUnquoted() ensures !NeedsQuoting("Description") {}
  lemma NotesColumnUnquoted() ensures !NeedsQuoting("Notes") {}

  /** The header line followed by rows reads back as the header names
      followed by the records. */
  lemma HeaderThenRows(records: seq<seq<string>>)
    requires forall i :: 0 <= i < |records| ==> |records[i]| >= 1
    ensures ReadDocument(Join([HeaderLine()] + Rows(records), '\n')) == [HeaderNames] + records
  {
    WithHeader(HeaderNames, HeaderLine(), records);
  }

  lemma WithHeader(header: seq<string>, line: string, records: seq<seq<string>>)
    requires |header| >= 1 && line == Row(header)
    requires forall i :: 0 <= i < |records| ==> |records[i]| >= 1
    ensures ReadDocument(Join([line] + Rows(records), '\n')) == [header] + records
  {
    var all := [header] + records;
    assert all[0] == header && all[1..] == records;
    assert Rows(all) == [line] + Rows(records);
    DocumentRoundTrip(all);
  }

  /** `downloadCSV` up to the download: nothing to export from an empty
      list; otherwise a document that reads back as the header followed by
      the entries' fields in list order. */
  function DownloadCsv(s: Tracker, fmt: Formatter): (r: Result<string>)
    ensures r.Rejected? <==> |s.entries| == 0
    ensures r.Rejected? ==> r.why == Alert(NoEntriesMessage)
    ensures r.Ok? ==> ReadDocument(r.value) == [HeaderNames] + Records(s.entries, fmt)
  {
    if |s.entries| == 0 then Rejected(Alert(NoEntriesMessage))
    else
      var records := Records(s.entries, fmt);
      var lines := [HeaderLine()] + Rows(records);
      HeaderThenRows(records);
      Ok(Join(lines, '\n'))
  }

  /** What a reader sees in an export: one header record and then one record
      of five fields per entry, newest first, with the stored timestamp and
      description as they are and an empty field for missing notes. */
  lemma DownloadShape(s: Tracker, fmt: Formatter)
    requires |s.entries| > 0
    ensures var doc := ReadDocument(DownloadCsv(s, fmt).value);
      && |doc| == 1 + |s.entries|
      && doc[0] == HeaderNames
      && forall i :: 0 <= i < |s.entries| ==> FieldsShown(doc[i + 1], s.entries[i], fmt)
  {
    ShapeOf(ReadDocument(DownloadCsv(s, fmt).value), Records(s.entries, fmt), s.entries, fmt);
  }

  lemma ShapeOf(doc: seq<seq<string>>, records: seq<seq<string>>, es: seq<Entry>, fmt: Formatter)
    requires doc == [HeaderNames] + records
    requires |records| == |es|
    requires forall i :: 0 <= i < |es| ==> records[i] == EntryFields(es[i], fmt)
    ensures |doc| == 1 + |es| && doc[0] == HeaderNames
    ensures forall i :: 0 <= i < |es| ==> FieldsShown(doc[i + 1], es[i], fmt)
  {
    forall i | 0 <= i < |es| ensures FieldsShown(doc[i + 1], es[i], fmt) {
      assert doc[i + 1] == records[i];
    }
  }

  /** The record shows the entry's stored timestamp, local text, UTC text,
      description, and notes or an empty field. */
  predicate FieldsShown(rec: seq<string>, e: Entry, fmt: Formatter) {
    && |rec| == 5
    && rec[0] == e.timestamp
    && rec[1] == fmt.toLocale(e.timestamp)
    && rec[2] == UtcText(fmt.toIso(e.timestamp))
    && rec[3] == e.description
    && (e.notes.None? ==> rec[4] == [])
    && (e.notes.Some? ==> rec[4] == e.notes.value)
  }
}
