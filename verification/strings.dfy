/**
 The JavaScript string operations the tracker relies on: `String.prototype.trim`
 and `Array.prototype.join` over strings.
 */
module JsString {

  /** The characters `trim` removes: ECMAScript's WhiteSpace and
      LineTerminator code points. */
  predicate IsWhitespace(c: char) {
    || c == '\t' || c == '\n' || c == '\U{B}' || c == '\U{C}' || c == '\r'
    || c == ' ' || c == '\U{A0}' || c == '\U{1680}'
    || ('\U{2000}' <= c <= '\U{200A}')
    || c == '\U{2028}' || c == '\U{2029}' || c == '\U{202F}' || c == '\U{205F}'
    || c == '\U{3000}' || c == '\U{FEFF}'
  }

  /** Every character of `s` in `[lo, hi)` is whitespace. */
  predicate WhitespaceBetween(s: string, lo: int, hi: int)
    requires 0 <= lo <= hi <= |s|
  {
    forall i :: lo <= i < hi ==> IsWhitespace(s[i])
  }

  predicate AllWhitespace(s: string) {
    WhitespaceBetween(s, 0, |s|)
  }

  /** Neither end of `s` is whitespace. */
  predicate Trimmed(s: string) {
    s == [] || (!IsWhitespace(s[0]) && !IsWhitespace(s[|s| - 1]))
  }

  /** `r` is what is left of `s` after dropping `lead` whitespace characters
      in front and only whitespace behind, and `r` itself is trimmed. */
  ghost predicate Strips(s: string, r: string, lead: nat) {
    && lead + |r| <= |s|
    && r == s[lead..lead + |r|]
    && WhitespaceBetween(s, 0, lead)
    && WhitespaceBetween(s, lead + |r|, |s|)
    && Trimmed(r)
  }

  function TrimStart(s: string): (r: string)
    ensures |r| <= |s| && r == s[|s| - |r|..]
    ensures WhitespaceBetween(s, 0, |s| - |r|)
    ensures r == [] || !IsWhitespace(r[0])
  {
    if |s| > 0 && IsWhitespace(s[0]) then TrimStart(s[1..]) else s
  }

  function TrimEnd(s: string): (r: string)
    ensures |r| <= |s| && r == s[..|r|]
    ensures WhitespaceBetween(s, |r|, |s|)
    ensures r == [] || !IsWhitespace(r[|r| - 1])
  {
    if |s| > 0 && IsWhitespace(s[|s| - 1]) then TrimEnd(s[..|s| - 1]) else s
  }

  /** `String.prototype.trim`. */
  function Trim(s: string): (r: string)
    ensures Strips(s, r, |s| - |TrimStart(s)|)
    ensures r == [] <==> AllWhitespace(s)
  {
    var t := TrimStart(s);
    var r := TrimEnd(t);
    TrimEndOfTrimStart(s, t, r);
    r
  }

  /** Stripping the front of `s` to `t` and then the back of `t` to `r`
      strips `s` to `r`. */
  lemma TrimEndOfTrimStart(s: string, t: string, r: string)
    requires |t| <= |s| && t == s[|s| - |t|..] && WhitespaceBetween(s, 0, |s| - |t|)
    requires t == [] || !IsWhitespace(t[0])
    requires |r| <= |t| && r == t[..|r|] && WhitespaceBetween(t, |r|, |t|)
    requires r == [] || !IsWhitespace(r[|r| - 1])
    ensures Strips(s, r, |s| - |t|)
    ensures r == [] <==> AllWhitespace(s)
  {
    var lead := |s| - |t|;
    SliceOfSuffix(s, lead, |r|);
    WhitespaceInSuffix(s, lead, |r|, |t|);
    if r == [] {
      assert t == [];
    } else {
      assert r[0] == t[0];
    }
  }

  lemma SliceOfSuffix(s: string, lead: nat, k: nat)
    requires lead + k <= |s|
    ensures s[lead..][..k] == s[lead..lead + k]
  {
  }

  /** Whitespace found in the suffix `s[lead..]` is whitespace of `s`. */
  lemma WhitespaceInSuffix(s: string, lead: nat, lo: nat, hi: nat)
    requires lead <= |s| && lo <= hi <= |s| - lead
    requires WhitespaceBetween(s[lead..], lo, hi)
    ensures WhitespaceBetween(s, lead + lo, lead + hi)
  {
    forall i | lead + lo <= i < lead + hi ensures IsWhitespace(s[i]) {
      assert s[i] == s[lead..][i - lead];
    }
  }

  /** There is only one way to strip a string: `Trim` is the unique result
      that satisfies `Strips`, whatever the split. */
  lemma {:induction false} StripsIsTrim(s: string, r: string, lead: nat)
    requires Strips(s, r, lead)
    ensures r == Trim(s)
  {
    var t := Trim(s);
    var lead' := |s| - |TrimStart(s)|;
    assert Strips(s, t, lead');
    if r == [] {
      assert AllWhitespace(s);
    } else {
      assert !IsWhitespace(s[lead]);
      assert t != [];
      assert !IsWhitespace(s[lead']);
      assert lead == lead';
      var e, e' := lead + |r|, lead' + |t|;
      assert !IsWhitespace(s[e - 1]);
      assert !IsWhitespace(s[e' - 1]);
      assert e == e';
    }
  }

  /** Trimming twice is trimming once. */
  lemma TrimIdempotent(s: string)
    ensures Trim(Trim(s)) == Trim(s)
  {
    var t := Trim(s);
    assert t == t[0..|t|];
    StripsIsTrim(t, t, 0);
  }

  /** `parts.join([sep])`: the parts in order with one separator between
      neighbours. */
  function Join(parts: seq<string>, sep: char): (r: string)
    ensures parts == [] ==> r == []
    ensures |parts| >= 1 ==> parts[0] <= r
  {
    if |parts| == 0 then []
    else if |parts| == 1 then parts[0]
    else parts[0] + [sep] + Join(parts[1..], sep)
  }

  /** One step of `Join` on two or more parts. */
  lemma JoinFront(parts: seq<string>, sep: char)
    requires |parts| >= 2
    ensures Join(parts, sep) == parts[0] + [sep] + Join(parts[1..], sep)
  {
  }

  /** A join is as long as its parts together plus one separator between
      each pair of neighbours. */
  lemma {:induction false} JoinLength(parts: seq<string>, sep: char)
    requires |parts| >= 1
    ensures |Join(parts, sep)| == TotalLength(parts) + |parts| - 1
  {
    if |parts| >= 2 {
      JoinLength(parts[1..], sep);
    }
  }

  /** The summed length of the parts. */
  function TotalLength(parts: seq<string>): nat {
    if parts == [] then 0 else |parts[0]| + TotalLength(parts[1..])
  }
}
