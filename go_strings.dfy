/**
 * The parts of Go's `strings` and `unicode` packages the core relies on:
 * white space, trimming, splitting into fields, joining, lower-casing and
 * the UTF-8 length that `len` reports for a string.
 */
module GoStrings {

  /** unicode.IsSpace: the code points carrying the Unicode White_Space property. */
  predicate IsSpace(c: char): (b: bool)
    // In Latin-1 these are exactly '\t', '\n', '\v', '\f', '\r', ' ', NEL and NBSP.
    ensures c as int < 0x100 ==>
      (b <==> c in {'\t', '\n', '\U{000B}', '\U{000C}', '\r', ' ', '\U{0085}', '\U{00A0}'})
  {
    ('\t' <= c <= '\r') || c == ' ' || c == '\U{0085}' || c == '\U{00A0}' || c == '\U{1680}'
    || ('\U{2000}' <= c <= '\U{200A}') || c == '\U{2028}' || c == '\U{2029}'
    || c == '\U{202F}' || c == '\U{205F}' || c == '\U{3000}'
  }

  ghost predicate AllSpace(s: string) {
    forall i :: 0 <= i < |s| ==> IsSpace(s[i])
  }

  ghost predicate NoSpace(s: string) {
    forall i :: 0 <= i < |s| ==> !IsSpace(s[i])
  }

  /** No white space at either end. */
  ghost predicate Trimmed(s: string) {
    s == "" || (!IsSpace(s[0]) && !IsSpace(s[|s| - 1]))
  }

  /** Length of the run of white space at the start of s. */
  function LeadingSpaces(s: string): (n: nat)
    ensures n <= |s| && AllSpace(s[..n])
    ensures n == |s| || !IsSpace(s[n])
  {
    if |s| == 0 || !IsSpace(s[0]) then 0 else 1 + LeadingSpaces(s[1..])
  }

  /** Length of the run of white space at the end of s. */
  function TrailingSpaces(s: string): (n: nat)
    ensures n <= |s| && AllSpace(s[|s| - n..])
    ensures n == |s| || !IsSpace(s[|s| - n - 1])
  {
    if |s| == 0 || !IsSpace(s[|s| - 1]) then 0 else 1 + TrailingSpaces(s[..|s| - 1])
  }

  /** The white-space run at the start is the only prefix of white space followed by a non-space. */
  lemma LeadingSpacesUnique(s: string, n: nat)
    requires n <= |s| && AllSpace(s[..n])
    requires n == |s| || !IsSpace(s[n])
    ensures LeadingSpaces(s) == n
  {
    var m := LeadingSpaces(s);
    assert forall k :: 0 <= k < n ==> s[..n][k] == s[k];
    assert forall k :: 0 <= k < m ==> s[..m][k] == s[k];
  }

  /** The white-space run at the end is the only suffix of white space preceded by a non-space. */
  lemma TrailingSpacesUnique(s: string, n: nat)
    requires n <= |s| && AllSpace(s[|s| - n..])
    requires n == |s| || !IsSpace(s[|s| - n - 1])
    ensures TrailingSpaces(s) == n
  {
    SuffixSpace(s, n);
    SuffixSpace(s, TrailingSpaces(s));
  }

  /** Every character of an all-space suffix is a space. */
  lemma SuffixSpace(s: string, n: nat)
    requires n <= |s| && AllSpace(s[|s| - n..])
    ensures forall k :: |s| - n <= k < |s| ==> IsSpace(s[k])
  {
    assert forall k :: |s| - n <= k < |s| ==> s[k] == s[|s| - n..][k - (|s| - n)];
  }

  /** strings.TrimLeftFunc(s, unicode.IsSpace): drops the longest white-space prefix. */
  function TrimLeft(s: string): string {
    s[LeadingSpaces(s)..]
  }

  /** strings.TrimRightFunc(s, unicode.IsSpace): drops the longest white-space suffix. */
  function TrimRight(s: string): string {
    s[..|s| - TrailingSpaces(s)]
  }

  /** strings.TrimSpace. */
  function TrimSpace(s: string): (r: string)
    ensures Trimmed(r)
    ensures r == "" <==> AllSpace(s)
  {
    var k := LeadingSpaces(s);
    var t := TrimLeft(s);
    var r := TrimRight(t);
    assert r != "" ==> r[0] == s[k];
    assert r != "" ==> r[|r| - 1] == t[|t| - TrailingSpaces(t) - 1];
    assert k == |s| ==> s[..k] == s;
    r
  }

  lemma TrimLeftPadded(lead: string, x: string)
    requires AllSpace(lead)
    requires x == "" || !IsSpace(x[0])
    ensures TrimLeft(lead + x) == x
  {
    var s := lead + x;
    assert s[..|lead|] == lead;
    assert x != "" ==> s[|lead|] == x[0];
    LeadingSpacesUnique(s, |lead|);
    assert s[|lead|..] == x;
  }

  lemma TrimRightPadded(x: string, trail: string)
    requires AllSpace(trail)
    requires x == "" || !IsSpace(x[|x| - 1])
    ensures TrimRight(x + trail) == x
  {
    var s := x + trail;
    assert s[|s| - |trail|..] == trail;
    assert x != "" ==> s[|s| - |trail| - 1] == x[|x| - 1];
    TrailingSpacesUnique(s, |trail|);
    assert s[..|x|] == x;
  }

  /** TrimSpace removes exactly the white space around a trimmed, non-empty core. */
  lemma TrimSpacePadded(lead: string, t: string, trail: string)
    requires AllSpace(lead) && AllSpace(trail)
    requires t != "" && Trimmed(t)
    ensures TrimSpace(lead + t + trail) == t
  {
    assert lead + t + trail == lead + (t + trail);
    TrimLeftPadded(lead, t + trail);
    TrimRightPadded(t, trail);
  }

  /** Length of the run of non-space characters at the start of s. */
  function WordLen(s: string): (n: nat)
    ensures n <= |s| && NoSpace(s[..n])
    ensures n == |s| || IsSpace(s[n])
  {
    if |s| == 0 || IsSpace(s[0]) then 0 else 1 + WordLen(s[1..])
  }

  /** One element of the result of strings.Fields. */
  ghost predicate IsField(w: string) {
    w != "" && NoSpace(w)
  }

  /** strings.Fields: the maximal runs of non-space characters, in order. */
  function Fields(s: string): (ws: seq<string>)
    ensures forall i :: 0 <= i < |ws| ==> IsField(ws[i])
    decreases |s|
  {
    var t := TrimLeft(s);
    if t == "" then []
    else
      var n := WordLen(t);
      assert t[0] == s[LeadingSpaces(s)];
      var w, rest := t[..n], Fields(t[n..]);
      assert IsField(w);
      var ws := [w] + rest;
      assert forall i :: 0 < i < |ws| ==> ws[i] == rest[i - 1];
      ws
  }

  /** strings.Join. */
  function Join(ws: seq<string>, sep: string): (r: string)
    ensures ws == [] ==> r == ""
    ensures ws != [] ==> ws[0] <= r
  {
    if |ws| == 0 then ""
    else if |ws| == 1 then ws[0]
    else ws[0] + sep + Join(ws[1..], sep)
  }

  /** Every white-space character is a single ' ' strictly inside the string, between two non-space characters. */
  ghost predicate SingleSpaced(s: string) {
    Trimmed(s) &&
    forall i :: 0 <= i < |s| && IsSpace(s[i]) ==>
      s[i] == ' ' && 0 < i < |s| - 1 && !IsSpace(s[i - 1]) && !IsSpace(s[i + 1])
  }

  /** Every character of a space-free prefix is a non-space. */
  lemma PrefixNoSpace(s: string, n: nat)
    requires n <= |s| && NoSpace(s[..n])
    ensures forall k :: 0 <= k < n ==> !IsSpace(s[k])
  {
    assert forall k :: 0 <= k < n ==> s[k] == s[..n][k];
  }

  /** The first word is the only space-free prefix followed by white space or the end. */
  lemma WordLenUnique(s: string, n: nat)
    requires n <= |s| && NoSpace(s[..n])
    requires n == |s| || IsSpace(s[n])
    ensures WordLen(s) == n
  {
    PrefixNoSpace(s, n);
    PrefixNoSpace(s, WordLen(s));
  }

  /** White space in front lengthens the leading run and leaves the rest alone. */
  lemma LeadingSpacesAppend(lead: string, s: string)
    requires AllSpace(lead)
    ensures LeadingSpaces(lead + s) == |lead| + LeadingSpaces(s)
    ensures (lead + s)[|lead| + LeadingSpaces(s)..] == s[LeadingSpaces(s)..]
  {
    var cs := lead + s;
    var k := LeadingSpaces(s);
    var n := |lead| + k;
    forall i | 0 <= i < n ensures IsSpace(cs[..n][i]) {
      if i < |lead| {
        assert cs[..n][i] == lead[i];
      } else {
        assert cs[..n][i] == s[..k][i - |lead|];
      }
    }
    assert k < |s| ==> cs[n] == s[k];
    LeadingSpacesUnique(cs, |lead| + k);
    assert cs[|lead| + k..] == s[k..];
  }

  /** Fields ignores any white space in front. */
  lemma FieldsSkipSpaces(lead: string, s: string)
    requires AllSpace(lead)
    ensures Fields(lead + s) == Fields(s)
  {
    LeadingSpacesAppend(lead, s);
    assert TrimLeft(lead + s) == TrimLeft(s);
  }

  /** A field followed by white space, or by nothing, is the first word of the split. */
  lemma FieldsSplit(w: string, rest: string)
    requires IsField(w)
    requires rest == "" || IsSpace(rest[0])
    ensures Fields(w + rest) == [w] + Fields(rest)
  {
    var s := w + rest;
    assert s[..0] == "";
    assert s[0] == w[0];
    LeadingSpacesUnique(s, 0);
    assert s[0..] == s;
    assert s[..|w|] == w;
    assert |w| < |s| ==> s[|w|] == rest[0];
    WordLenUnique(s, |w|);
    assert s[|w|..] == rest;
  }

  /** A string has no fields exactly when it is all white space. */
  lemma FieldsEmpty(s: string)
    ensures Fields(s) == [] <==> AllSpace(s)
  {
    assert s[..|s|] == s;
  }

  lemma FieldsOfField(w: string)
    requires IsField(w)
    ensures Fields(w) == [w]
  {
    FieldsSplit(w, "");
    FieldsEmpty("");
    assert w + "" == w;
  }

  /** Fields of a field, a space and any string. */
  lemma FieldsCons(w: string, j: string)
    requires IsField(w)
    ensures Fields(w + " " + j) == [w] + Fields(j)
  {
    assert w + " " + j == w + (" " + j);
    FieldsSplit(w, " " + j);
    assert AllSpace(" ");
    FieldsSkipSpaces(" ", j);
  }

  /** A join of non-empty words starts with the first letter of the first word. */
  lemma JoinHead(ws: seq<string>, sep: string)
    requires ws != [] && ws[0] != ""
    ensures Join(ws, sep) != "" && Join(ws, sep)[0] == ws[0][0]
  {
    if |ws| > 1 {
      assert Join(ws, sep) == ws[0] + (sep + Join(ws[1..], sep));
    }
  }

  /** Splitting a single-space join of fields gives the fields back. */
  lemma {:induction false} FieldsOfJoin(ws: seq<string>)
    requires forall i :: 0 <= i < |ws| ==> IsField(ws[i])
    ensures Fields(Join(ws, " ")) == ws
  {
    if |ws| == 0 {
      assert Join(ws, " ") == "";
      assert ""[..0] == "";
      LeadingSpacesUnique("", 0);
    } else if |ws| == 1 {
      assert Join(ws, " ") == ws[0];
      FieldsOfField(ws[0]);
    } else {
      FieldsOfJoin(ws[1..]);
      FieldsOfJoinStep(ws);
    }
  }

  /** The inductive step of FieldsOfJoin: one more field in front. */
  lemma FieldsOfJoinStep(ws: seq<string>)
    requires |ws| > 1 && IsField(ws[0])
    requires Fields(Join(ws[1..], " ")) == ws[1..]
    ensures Fields(Join(ws, " ")) == ws
  {
    var rest := ws[1..];
    var j := Join(rest, " ");
    assert Join(ws, " ") == ws[0] + " " + j;
    FieldsCons(ws[0], j);
    assert ws == [ws[0]] + rest;
  }

  lemma SingleSpacedCons(w: string, j: string)
    requires IsField(w)
    requires j != "" && SingleSpaced(j)
    ensures SingleSpaced(w + " " + j)
  {
    var s := w + " " + j;
    assert forall i :: 0 <= i < |w| ==> s[i] == w[i];
    forall i | 0 <= i < |s| && IsSpace(s[i])
      ensures s[i] == ' ' && 0 < i < |s| - 1 && !IsSpace(s[i - 1]) && !IsSpace(s[i + 1])
    {
      if i == |w| {
        assert s[i - 1] == w[|w| - 1];
        assert s[i + 1] == j[0];
      } else if i > |w| {
        var k := i - |w| - 1;
        assert s[i] == j[k];
        assert s[i - 1] == j[k - 1];
        assert s[i + 1] == j[k + 1];
      }
    }
    assert s[0] == w[0];
    assert s[|s| - 1] == j[|j| - 1];
  }

  /** A single-space join of fields has no stray white space. */
  lemma {:induction false} JoinSingleSpaced(ws: seq<string>)
    requires forall i :: 0 <= i < |ws| ==> IsField(ws[i])
    ensures SingleSpaced(Join(ws, " "))
  {
    if |ws| == 1 {
      assert Join(ws, " ") == ws[0];
    } else if |ws| > 1 {
      JoinSingleSpaced(ws[1..]);
      JoinHead(ws[1..], " ");
      SingleSpacedCons(ws[0], Join(ws[1..], " "));
    }
  }

  /** unicode.ToLower, restricted to the code points whose lower-case form is ASCII. */
  function ToLowerRune(c: char): char {
    if 'A' <= c <= 'Z' then (c as int + 32) as char
    else if c == '\U{212A}' then 'k'   // KELVIN SIGN
    else if c == '\U{0130}' then 'i'   // LATIN CAPITAL LETTER I WITH DOT ABOVE
    else c
  }

  /** strings.ToLower, rune by rune. */
  function ToLower(s: string): (r: string)
    ensures |r| == |s|
    ensures forall i :: 0 <= i < |s| ==> !('A' <= r[i] <= 'Z')
    ensures forall i :: 0 <= i < |s| && !('A' <= s[i] <= 'Z') && s[i] as int < 0x80 ==> r[i] == s[i]
    ensures forall i :: 0 <= i < |s| && 'A' <= s[i] <= 'Z' ==> r[i] == (s[i] as int + 32) as char
    ensures forall i :: 0 <= i < |s| && s[i] == '\U{212A}' ==> r[i] == 'k'
    ensures forall i :: 0 <= i < |s| && s[i] == '\U{0130}' ==> r[i] == 'i'
    ensures forall i :: 0 <= i < |s| && !('A' <= s[i] <= 'Z') && s[i] != '\U{212A}' && s[i] != '\U{0130}' ==> r[i] == s[i]
  {
    seq(|s|, i requires 0 <= i < |s| => ToLowerRune(s[i]))
  }

  /** Lower-casing twice is lower-casing once. */
  lemma ToLowerIdempotent(s: string)
    ensures ToLower(ToLower(s)) == ToLower(s)
  {
    assert forall i :: 0 <= i < |s| ==> ToLower(s)[i] as int < 0x80 || ToLower(s)[i] == s[i];
  }

  /** Number of bytes of the UTF-8 encoding of one code point. */
  function RuneLen(c: char): nat {
    if c as int < 0x80 then 1
    else if c as int < 0x800 then 2
    else if c as int < 0x10000 then 3
    else 4
  }

  /** len(s) in Go: the length of the UTF-8 encoding of s, in bytes. */
  function ByteLen(s: string): (n: nat)
    ensures |s| <= n <= 4 * |s|
  {
    if s == "" then 0 else RuneLen(s[0]) + ByteLen(s[1..])
  }

  /** The byte length of a concatenation is the sum of the byte lengths. */
  lemma {:induction false} ByteLenAppend(a: string, b: string)
    ensures ByteLen(a + b) == ByteLen(a) + ByteLen(b)
  {
    if a == "" {
      assert a + b == b;
    } else {
      assert (a + b)[0] == a[0];
      assert (a + b)[1..] == a[1..] + b;
      ByteLenAppend(a[1..], b);
    }
  }

  /** The total byte length of a list of words. */
  function WordBytes(ws: seq<string>): nat {
    if ws == [] then 0 else ByteLen(ws[0]) + WordBytes(ws[1..])
  }

  /** A single-space join costs the words' bytes plus one byte per gap. */
  lemma {:induction false} JoinByteLen(ws: seq<string>)
    ensures ws != [] ==> ByteLen(Join(ws, " ")) == WordBytes(ws) + |ws| - 1
  {
    if |ws| == 1 {
      assert ws[1..] == [];
    } else if |ws| > 1 {
      var j := Join(ws[1..], " ");
      JoinByteLen(ws[1..]);
      assert Join(ws, " ") == ws[0] + (" " + j);
      ByteLenAppend(ws[0], " " + j);
      ByteLenAppend(" ", j);
      assert ByteLen(" ") == 1 by { assert " "[1..] == ""; }
      assert WordBytes(ws) == ByteLen(ws[0]) + WordBytes(ws[1..]);
    }
  }

  /**
   * The fields of s, with one separator byte each, fit in the bytes of s;
   * when s does not start with white space the first field's separator is free.
   */
  lemma {:induction false} FieldsByteLen(s: string)
    ensures WordBytes(Fields(s)) + |Fields(s)| <= ByteLen(s) + (if s != "" && IsSpace(s[0]) then 0 else 1)
    decreases |s|
  {
    var k := LeadingSpaces(s);
    var t := s[k..];
    assert s == s[..k] + t;
    ByteLenAppend(s[..k], t);
    if t != "" {
      var n := WordLen(t);
      var w, rest := t[..n], t[n..];
      assert t == w + rest;
      ByteLenAppend(w, rest);
      var fs := Fields(s);
      assert fs == [w] + Fields(rest);
      assert fs[0] == w && fs[1..] == Fields(rest);
      FieldsByteLen(rest);
      FieldsEmpty("");
      assert k > 0 ==> IsSpace(s[0]) by {
        if k > 0 { assert s[..k][0] == s[0]; }
      }
      assert k == 0 ==> !IsSpace(s[0]);
    }
  }

  ghost predicate IsAscii(s: string) {
    forall i :: 0 <= i < |s| ==> s[i] as int < 0x80
  }

  /** On ASCII text the byte length is the number of characters. */
  lemma {:induction false} AsciiByteLen(s: string)
    requires IsAscii(s)
    ensures ByteLen(s) == |s|
  {
    if s != "" {
      assert IsAscii(s[1..]) by {
        forall i | 0 <= i < |s[1..]| ensures s[1..][i] as int < 0x80 {
          assert s[1..][i] == s[i + 1];
        }
      }
      AsciiByteLen(s[1..]);
    }
  }
}
