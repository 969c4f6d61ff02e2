/**
 A reader for the CSV the tracker writes, in the quoting style of section 2
 of RFC 4180 with a line feed as the record separator: a field is either
 quoted (pairs of double quotes inside stand for one) or runs up to the next
 comma or line feed. An unquoted field keeps every other character as text,
 a carriage return included, which the TEXTDATA rule of that section does not
 allow. It is the independent reference against which escaping and export are
 proved: reading what was written gives back the original fields.
 */
module CsvReader {
  import opened JsString
  import opened Csv

  /** A field read from the front of the input, and what follows it. */
  datatype Cut = Cut(field: string, rest: string)

  /** A record read from the front of the input, and what follows it. */
  datatype Record = Record(fields: seq<string>, rest: string)

  /** The body of a quoted field, after its opening quote. An unterminated
      field takes the rest of the input. */
  function ReadQuoted(s: string): (c: Cut)
    ensures |c.rest| <= |s|
    decreases |s|
  {
    if s == [] then Cut([], [])
    else if s[0] == '"' then
      if |s| >= 2 && s[1] == '"' then
        var c := ReadQuoted(s[2..]);
        Cut(['"'] + c.field, c.rest)
      else Cut([], s[1..])
    else
      var c := ReadQuoted(s[1..]);
      Cut([s[0]] + c.field, c.rest)
  }

  /** An unquoted field: everything up to the next comma or line feed. */
  function ReadUnquoted(s: string): (c: Cut)
    ensures |c.rest| <= |s|
    ensures c.field + c.rest == s
    ensures c.rest == [] || c.rest[0] == ',' || c.rest[0] == '\n'
  {
    if s == [] || s[0] == ',' || s[0] == '\n' then Cut([], s)
    else
      var c := ReadUnquoted(s[1..]);
      assert [s[0]] + c.field + c.rest == [s[0]] + (c.field + c.rest);
      Cut([s[0]] + c.field, c.rest)
  }

  function ReadField(s: string): (c: Cut)
    ensures |c.rest| <= |s|
  {
    if s != [] && s[0] == '"' then ReadQuoted(s[1..]) else ReadUnquoted(s)
  }

  /** The comma-separated fields of one record. */
  function ReadRecord(s: string): (r: Record)
    ensures |r.rest| <= |s|
    ensures |r.fields| >= 1
    decreases |s|
  {
    var c := ReadField(s);
    if c.rest != [] && c.rest[0] == ',' then
      var r := ReadRecord(c.rest[1..]);
      Record([c.field] + r.fields, r.rest)
    else Record([c.field], c.rest)
  }

  /** All records of a document; the character that ends a record is
      skipped. */
  function ReadDocument(s: string): (rs: seq<seq<string>>)
    ensures |rs| >= 1
    decreases |s|
  {
    var r := ReadRecord(s);
    if r.rest == [] then [r.fields]
    else [r.fields] + ReadDocument(r.rest[1..])
  }

  /** Any string followed by anything other than a quote reads back from its
      doubled form. */
  lemma {:induction false} ReadDoubled(f: string, rest: string)
    requires rest == [] || rest[0] != '"'
    ensures ReadQuoted(DoubleQuotes(f) + ['"'] + rest) == Cut(f, rest)
  {
    if f == [] {
      assert DoubleQuotes(f) + ['"'] + rest == ['"'] + rest;
    } else {
      ReadDoubled(f[1..], rest);
      DoubleQuotesFront(f);
      ReadQuotedStep(DoubleQuotes(f), DoubleQuotes(f[1..]), f[0], f[1..], rest);
      assert [f[0]] + f[1..] == f;
    }
  }

  /** One step of `ReadDoubled`: a character, doubled if it is a quote, is
      read back in front of what the remainder reads as. */
  lemma ReadQuotedStep(d: string, d1: string, c: char, f1: string, rest: string)
    requires d == (if c == '"' then ['"', '"'] else [c]) + d1
    requires ReadQuoted(d1 + ['"'] + rest) == Cut(f1, rest)
    ensures ReadQuoted(d + ['"'] + rest) == Cut([c] + f1, rest)
  {
    var tail := d1 + ['"'] + rest;
    if c == '"' {
      assert d + ['"'] + rest == ['"', '"'] + tail;
      ReadQuotedPair(tail);
    } else {
      assert d + ['"'] + rest == [c] + tail;
      ReadQuotedPlain(c, tail);
    }
  }

  lemma ReadQuotedPair(tail: string)
    ensures ReadQuoted(['"', '"'] + tail)
         == Cut(['"'] + ReadQuoted(tail).field, ReadQuoted(tail).rest)
  {
    assert (['"', '"'] + tail)[2..] == tail;
  }

  lemma ReadQuotedPlain(c: char, tail: string)
    requires c != '"'
    ensures ReadQuoted([c] + tail) == Cut([c] + ReadQuoted(tail).field, ReadQuoted(tail).rest)
  {
    assert ([c] + tail)[1..] == tail;
  }

  /** A string without a comma or line feed reads back unquoted. */
  lemma {:induction false} ReadPlain(f: string, rest: string)
    requires ',' !in f && '\n' !in f
    requires rest == [] || rest[0] == ',' || rest[0] == '\n'
    ensures ReadUnquoted(f + rest) == Cut(f, rest)
  {
    if f != [] {
      var s := f + rest;
      assert f[0] in f;
      assert s[0] == f[0] && s[1..] == f[1..] + rest;
      assert ',' !in f[1..] && '\n' !in f[1..] by {
        assert forall x :: x in f[1..] ==> x in f;
      }
      ReadPlain(f[1..], rest);
      ReadUnquotedStep(s);
      assert [f[0]] + f[1..] == f;
    }
  }

  /** An ordinary character is kept in front of the rest of the field. */
  lemma ReadUnquotedStep(s: string)
    requires s != [] && s[0] != ',' && s[0] != '\n'
    ensures ReadUnquoted(s) == Cut([s[0]] + ReadUnquoted(s[1..]).field, ReadUnquoted(s[1..]).rest)
  {
  }

  /** Every escaped field reads back as the original, when it is followed by
      the end of input, a comma or a line feed. */
  lemma EscapeRoundTrip(f: string, rest: string)
    requires rest == [] || rest[0] == ',' || rest[0] == '\n'
    ensures ReadField(CsvEscape(f) + rest) == Cut(f, rest)
  {
    if NeedsQuoting(f) {
      ReadDoubled(f, rest);
      QuotedForm(f, rest);
      QuotedField(DoubleQuotes(f) + ['"'] + rest, CsvEscape(f) + rest);
    } else {
      ReadPlain(f, rest);
      PlainField(f, rest);
    }
  }

  /** An escaped field that needs quoting, followed by more input. */
  lemma QuotedForm(f: string, rest: string)
    requires NeedsQuoting(f)
    ensures CsvEscape(f) + rest == ['"'] + (DoubleQuotes(f) + ['"'] + rest)
  {
    var d := DoubleQuotes(f);
    assert CsvEscape(f) == ['"'] + d + ['"'];
    assert ['"'] + d + ['"'] + rest == ['"'] + (d + ['"'] + rest);
  }

  /** A field that starts with a quote is read as a quoted body. */
  lemma QuotedField(body: string, s: string)
    requires s == ['"'] + body
    ensures ReadField(s) == ReadQuoted(body)
  {
    assert s[1..] == body;
  }

  /** A field without a quote is read unquoted. */
  lemma PlainField(f: string, rest: string)
    requires '"' !in f
    requires rest == [] || rest[0] == ',' || rest[0] == '\n'
    ensures ReadField(f + rest) == ReadUnquoted(f + rest)
  {
    if f != [] {
      assert f[0] in f;
      assert (f + rest)[0] == f[0];
    }
  }

  /** A row written by `Row` reads back as its fields. */
  lemma {:induction false} RowRoundTrip(fields: seq<string>, rest: string)
    requires |fields| >= 1
    requires rest == [] || rest[0] == '\n'
    ensures ReadRecord(Row(fields) + rest) == Record(fields, rest)
  {
    var escaped := EscapeAll(fields);
    if |fields| == 1 {
      assert Row(fields) == CsvEscape(fields[0]);
      EscapeRoundTrip(fields[0], rest);
      ReadRecordLast(Row(fields) + rest, fields[0], rest);
    } else {
      var tail := fields[1..];
      var text := Row(tail);
      assert escaped[1..] == EscapeAll(tail);
      JoinFront(escaped, ',');
      assert Row(fields) == CsvEscape(fields[0]) + [','] + text;
      var after := [','] + (text + rest);
      assert Row(fields) + rest == CsvEscape(fields[0]) + after;
      EscapeRoundTrip(fields[0], after);
      RowRoundTrip(tail, rest);
      ReadRecordNext(Row(fields) + rest, fields[0], text + rest);
      assert [fields[0]] + tail == fields;
    }
  }

  /** A field followed by a comma: the record goes on after the comma. */
  lemma ReadRecordNext(s: string, f: string, more: string)
    requires ReadField(s) == Cut(f, [','] + more)
    ensures ReadRecord(s) == Record([f] + ReadRecord(more).fields, ReadRecord(more).rest)
  {
    assert ([','] + more)[1..] == more;
  }

  /** A field followed by the end of input or a line feed ends the record. */
  lemma ReadRecordLast(s: string, f: string, rest: string)
    requires rest == [] || rest[0] == '\n'
    requires ReadField(s) == Cut(f, rest)
    ensures ReadRecord(s) == Record([f], rest)
  {
  }

  /** The lines of a document: each record written as a row. */
  function Rows(records: seq<seq<string>>): (lines: seq<string>)
    ensures |lines| == |records|
    ensures forall i :: 0 <= i < |records| ==> lines[i] == Row(records[i])
  {
    if records == [] then [] else [Row(records[0])] + Rows(records[1..])
  }

  /** A document written as rows joined by line feeds reads back as its
      records, in order. */
  lemma {:induction false} DocumentRoundTrip(records: seq<seq<string>>)
    requires |records| >= 1
    requires forall i :: 0 <= i < |records| ==> |records[i]| >= 1
    ensures ReadDocument(Join(Rows(records), '\n')) == records
  {
    var lines := Rows(records);
    if |records| == 1 {
      RowRoundTrip(records[0], []);
      assert Row(records[0]) + [] == Row(records[0]);
    } else {
      var tail := records[1..];
      var text := Join(Rows(tail), '\n');
      assert lines[1..] == Rows(tail);
      JoinFront(lines, '\n');
      var after := ['\n'] + text;
      assert Join(lines, '\n') == Row(records[0]) + after;
      RowRoundTrip(records[0], after);
      assert after[1..] == text;
      DocumentRoundTrip(tail);
      assert [records[0]] + tail == records;
    }
  }
}
