/**
 CSV field escaping as the tracker's `csvEscape` does it: the quoting rule of
 section 2 of RFC 4180 (rules 6 and 7), applied when a field holds a comma, a
 double quote or a line feed. A lone carriage return does not trigger quoting.
 */
module Csv {
  import opened Types
  import opened JsString

  /** The characters whose presence makes `csvEscape` quote a field. */
  predicate NeedsQuoting(s: string) {
    ',' in s || '"' in s || '\n' in s
  }

  /** Every double quote of `t` is immediately followed by a second one that
      belongs to the same pair: the body of a quoted field under rule 7. */
  predicate PairedQuotes(t: string)
    decreases |t|
  {
    if t == [] then true
    else if t[0] == '"' then |t| >= 2 && t[1] == '"' && PairedQuotes(t[2..])
    else PairedQuotes(t[1..])
  }

  /** Reads a pair of double quotes back as one. */
  function Undouble(t: string): string
    decreases |t|
  {
    if t == [] then []
    else if |t| >= 2 && t[0] == '"' && t[1] == '"' then ['"'] + Undouble(t[2..])
    else [t[0]] + Undouble(t[1..])
  }

  /** `s.replace(/"/g, '""')`. */
  function DoubleQuotes(s: string): (r: string)
    ensures |r| >= |s|
    ensures '"' !in s ==> r == s
  {
    if s == [] then []
    else
      var rest := DoubleQuotes(s[1..]);
      assert '"' !in s ==> '"' !in s[1..] && s == [s[0]] + s[1..] by {
        assert forall x :: x in s[1..] ==> x in s;
      }
      if s[0] == '"' then ['"', '"'] + rest else [s[0]] + rest
  }

  /** The doubled form is a paired-quote body that reads back as the
      original. */
  lemma {:induction false} DoubleQuotesPaired(s: string)
    ensures PairedQuotes(DoubleQuotes(s))
    ensures Undouble(DoubleQuotes(s)) == s
  {
    if s != [] {
      DoubleQuotesPaired(s[1..]);
      DoubleQuotesFront(s);
      var r := DoubleQuotes(s);
      var rest := DoubleQuotes(s[1..]);
      if s[0] == '"' {
        assert r[2..] == rest;
      } else {
        assert r[1..] == rest;
      }
      assert s == [s[0]] + s[1..];
    }
  }

  /** The first character of a non-empty string, doubled if it is a quote,
      in front of the doubled remainder. */
  lemma DoubleQuotesFront(f: string)
    requires f != []
    ensures DoubleQuotes(f) == (if f[0] == '"' then ['"', '"'] else [f[0]]) + DoubleQuotes(f[1..])
  {
  }

  /** A paired-quote body is determined by what it reads back as: doubling
      is the only encoding rule 7 allows. */
  lemma {:induction false} PairedQuotesUnique(t: string)
    requires PairedQuotes(t)
    ensures DoubleQuotes(Undouble(t)) == t
  {
    if t != [] {
      if t[0] == '"' {
        PairedQuotesUnique(t[2..]);
        assert Undouble(t) == ['"'] + Undouble(t[2..]);
        assert t == ['"', '"'] + t[2..];
      } else {
        PairedQuotesUnique(t[1..]);
        assert Undouble(t) == [t[0]] + Undouble(t[1..]);
        assert t == [t[0]] + t[1..];
      }
    }
  }

  /** `csvEscape` on a string value. */
  function CsvEscape(s: string): (r: string)
    ensures !NeedsQuoting(s) ==> r == s
    ensures NeedsQuoting(s) ==> |r| >= 2 && r[0] == '"' && r[|r| - 1] == '"'
  {
    if NeedsQuoting(s) then ['"'] + DoubleQuotes(s) + ['"'] else s
  }

  /** Stripping the outer quotes of an escaped field and reading quote pairs
      back as single quotes recovers the value; every quote inside is paired. */
  lemma EscapeUndoubles(s: string)
    requires NeedsQuoting(s)
    ensures var r := CsvEscape(s);
      PairedQuotes(r[1..|r| - 1]) && Undouble(r[1..|r| - 1]) == s
  {
    var r := CsvEscape(s);
    assert r[1..|r| - 1] == DoubleQuotes(s);
    DoubleQuotesPaired(s);
  }

  /** `csvEscape` on a possibly absent value: `null` and `undefined` become
      the empty field. */
  function CsvEscapeValue(v: Option<string>): (r: string)
    ensures v.None? ==> r == []
    ensures v.Some? ==> r == CsvEscape(v.value)
  {
    match v
    case None => []
    case Some(s) => CsvEscape(s)
  }

  /** Doubling quotes works piece by piece. */
  lemma {:induction false} DoubleQuotesAppend(a: string, b: string)
    ensures DoubleQuotes(a + b) == DoubleQuotes(a) + DoubleQuotes(b)
  {
    if a == [] {
      assert a + b == b;
    } else {
      var t := a[1..];
      var head := if a[0] == '"' then ['"', '"'] else [a[0]];
      DoubleQuotesAppend(t, b);
      assert (a + b)[0] == a[0] && (a + b)[1..] == t + b;
      DoubleQuotesFront(a + b);
      DoubleQuotesFront(a);
      Regroup(head, DoubleQuotes(t), DoubleQuotes(b), DoubleQuotes(t + b),
              DoubleQuotes(a + b), DoubleQuotes(a));
    }
  }

  lemma Regroup(head: string, dt: string, db: string, dtb: string, dab: string, da: string)
    requires dtb == dt + db && dab == head + dtb && da == head + dt
    ensures dab == da + db
  {
  }

  /** A field that needs quoting is its doubled form between two quotes. */
  lemma QuotedEscape(s: string)
    requires NeedsQuoting(s)
    ensures CsvEscape(s) == ['"'] + DoubleQuotes(s) + ['"']
  {
  }

  /** A field that needs quoting is quoted and quotes are doubled. */
  lemma EscapeExample()
    ensures CsvEscape("a,b\"c") == "\"a,b\"\"c\""
  {
    var s := "a,b\"c";
    assert s[1] == ',';
    QuotedEscape(s);
    DoubleQuotesExample();
    QuotedExampleText();
  }

  lemma QuotedExampleText()
    ensures ['"'] + "a,b\"\"c" + ['"'] == "\"a,b\"\"c\""
  {
  }

  lemma DoubleQuotesExample()
    ensures DoubleQuotes("a,b\"c") == "a,b\"\"c"
  {
    var plain, quote, last := "a,b", "\"", "c";
    assert "a,b\"c" == plain + quote + last;
    DoubleQuotesAppend(plain + quote, last);
    DoubleQuotesAppend(plain, quote);
    assert DoubleQuotes(quote) == "\"\"" by {
      assert quote[1..] == [];
    }
    assert plain + "\"\"" + last == "a,b\"\"c";
  }

  /** A carriage return alone leaves a field unquoted. */
  lemma CarriageReturnNotQuoted()
    ensures CsvEscape("a\rb") == "a\rb"
  {
  }

  /** Each field escaped, in order. */
  function EscapeAll(fields: seq<string>): (r: seq<string>)
    ensures |r| == |fields|
    ensures forall i :: 0 <= i < |fields| ==> r[i] == CsvEscape(fields[i])
  {
    if fields == [] then [] else [CsvEscape(fields[0])] + EscapeAll(fields[1..])
  }

  /** One CSV line: the escaped fields joined by commas. */
  function Row(fields: seq<string>): string {
    Join(EscapeAll(fields), ',')
  }
}
