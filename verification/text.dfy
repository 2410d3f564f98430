/** Character and string helpers shared by the formatters and the form
    validators: the JavaScript whitespace class (what `String.prototype.trim`
    removes and what `\s` matches in a regular expression), `trim` itself,
    ASCII case mapping, and substring search (`String.prototype.includes`). */
module Text {

  /** WhiteSpace and LineTerminator of ECMA-262 (sections 12.2 and 12.3):
      the set `trim` strips and the regular-expression class `\s` matches. */
  predicate IsSpace(c: char) {
    || c == ' ' || c == '\t' || c == '\n' || c == '\r'
    || c == '\U{000B}' || c == '\U{000C}'
    || c == '\U{00A0}' || c == '\U{1680}'
    || ('\U{2000}' <= c <= '\U{200A}')
    || c == '\U{2028}' || c == '\U{2029}' || c == '\U{202F}' || c == '\U{205F}'
    || c == '\U{3000}' || c == '\U{FEFF}'
  }

  /** Every character of `s` is whitespace; the empty string is blank. */
  predicate Blank(s: string) {
    forall i :: 0 <= i < |s| ==> IsSpace(s[i])
  }

  /** `s` with its leading whitespace removed. */
  function TrimStart(s: string): (r: string)
    ensures |r| <= |s| && r == s[|s| - |r|..]
    ensures Blank(s[..|s| - |r|])
    ensures r == [] || !IsSpace(r[0])
  {
    if |s| > 0 && IsSpace(s[0]) then
      var r := TrimStart(s[1..]);
      assert s[..|s| - |r|] == [s[0]] + s[1..][..|s| - 1 - |r|];
      r
    else
      s
  }

  /** `s` with its trailing whitespace removed. */
  function TrimEnd(s: string): (r: string)
    ensures |r| <= |s| && r == s[..|r|]
    ensures Blank(s[|r|..])
    ensures r == [] || !IsSpace(r[|r| - 1])
  {
    if |s| > 0 && IsSpace(s[|s| - 1]) then
      var r := TrimEnd(s[..|s| - 1]);
      assert s[|r|..] == s[..|s| - 1][|r|..] + [s[|s| - 1]];
      r
    else
      s
  }

  /** `String.prototype.trim`: the result is the infix of `s` left after
      removing a blank prefix and a blank suffix. */
  function Trim(s: string): (r: string)
    ensures exists i :: TrimmedAt(s, r, i)
  {
    var t := TrimStart(s);
    var r := TrimEnd(t);
    TrimmedAtCompose(s, t, r, |s| - |t|);
    r
  }

  /** The trimmed string neither starts nor ends with whitespace. */
  lemma TrimHasNoEdgeSpace(s: string)
    ensures var r := Trim(s); r == [] || (!IsSpace(r[0]) && !IsSpace(r[|r| - 1]))
  {
    TrimmedEdges(TrimStart(s), Trim(s));
  }

  /** Removing a blank prefix and then a blank suffix leaves an infix with
      only blank text around it. */
  lemma TrimmedAtCompose(s: string, t: string, r: string, i: int)
    requires 0 <= i <= |s| && t == s[i..] && Blank(s[..i])
    requires |r| <= |t| && r == t[..|r|] && Blank(t[|r|..])
    ensures TrimmedAt(s, r, i)
  {
    assert r == s[i..i + |r|];
    assert t[|r|..] == s[i + |r|..];
  }

  /** A prefix of a string that does not start with whitespace does not
      start with whitespace either. */
  lemma TrimmedEdges(t: string, r: string)
    requires t == [] || !IsSpace(t[0])
    requires |r| <= |t| && r == t[..|r|]
    requires r == [] || !IsSpace(r[|r| - 1])
    ensures r == [] || (!IsSpace(r[0]) && !IsSpace(r[|r| - 1]))
  {
    if r != [] {
      assert r[0] == t[0];
    }
  }

  /** `r` is the infix of `s` at offset `i`, and everything of `s` outside it
      is whitespace. */
  predicate TrimmedAt(s: string, r: string, i: int) {
    0 <= i <= |s| - |r| && r == s[i..i + |r|] && Blank(s[..i]) && Blank(s[i + |r|..])
  }

  /** Trimming yields the empty string exactly for blank input, which is how
      `!x.trim()` tests for a missing form value. */
  lemma TrimEmptyIffBlank(s: string)
    ensures Trim(s) == [] <==> Blank(s)
  {
    var t := TrimStart(s);
    if Trim(s) == [] {
      assert Blank(t[0..]);
      assert t == [];
      assert s == s[..|s| - |t|];
    }
  }

  /** A string that neither starts nor ends with whitespace is its own trim. */
  lemma TrimOfTrimmed(s: string)
    requires s == [] || (!IsSpace(s[0]) && !IsSpace(s[|s| - 1]))
    ensures Trim(s) == s
  {
  }

  predicate IsAsciiUpper(c: char) { 'A' <= c <= 'Z' }

  predicate IsAsciiLower(c: char) { 'a' <= c <= 'z' }

  /** `toLowerCase` on one character, restricted to ASCII letters: an
      upper-case letter moves to its lower-case partner, 32 code points on;
      every other character is left alone. */
  function ToLowerChar(c: char): (r: char)
    ensures !IsAsciiUpper(r)
    ensures IsAsciiUpper(c) ==> IsAsciiLower(r) && r as int == c as int + 32
    ensures !IsAsciiUpper(c) ==> r == c
  {
    if IsAsciiUpper(c) then (c as int + 32) as char else c
  }

  /** `toUpperCase` on one character, restricted to ASCII letters. */
  function ToUpperChar(c: char): (r: char)
    ensures !IsAsciiLower(r)
    ensures IsAsciiLower(c) ==> IsAsciiUpper(r) && r as int == c as int - 32
    ensures !IsAsciiLower(c) ==> r == c
  {
    if IsAsciiLower(c) then (c as int - 32) as char else c
  }

  /** `String.prototype.toLowerCase` with ASCII case mapping: the result
      has the input's length and no upper-case letter; each upper-case
      letter becomes its lower-case partner and every other character stays
      where it was. */
  function ToLower(s: string): (r: string)
    ensures |r| == |s|
    ensures forall i :: 0 <= i < |r| ==> !IsAsciiUpper(r[i])
    ensures forall i :: 0 <= i < |s| && !IsAsciiUpper(s[i]) ==> r[i] == s[i]
    ensures forall i :: 0 <= i < |s| && IsAsciiUpper(s[i]) ==>
      IsAsciiLower(r[i]) && r[i] as int == s[i] as int + 32
  {
    seq(|s|, i requires 0 <= i < |s| => ToLowerChar(s[i]))
  }

  lemma ToLowerIdempotent(s: string)
    ensures ToLower(ToLower(s)) == ToLower(s)
  {
  }

  /** A character outside the Basic Multilingual Plane, which UTF-16
      stores as a surrogate pair of two code units. */
  predicate IsAstral(c: char) {
    c as int >= 0x1_0000
  }

  /** `String.prototype.length`: the number of UTF-16 code units. It is at
      least the number of characters and at most twice it, and equals it
      exactly when no character lies outside the Basic Multilingual Plane. */
  function Utf16Length(s: string): (n: nat)
    ensures |s| <= n <= 2 * |s|
    ensures n == |s| <==> forall i :: 0 <= i < |s| ==> !IsAstral(s[i])
  {
    if s == [] then 0
    else
      var rest := Utf16Length(s[1..]);
      assert forall i :: 1 <= i < |s| ==> s[i] == s[1..][i - 1];
      (if IsAstral(s[0]) then 2 else 1) + rest
  }

  /** One character takes two code units outside the Basic Multilingual
      Plane and one inside it. */
  lemma Utf16LengthOne(c: char)
    ensures Utf16Length([c]) == if IsAstral(c) then 2 else 1
  {
  }

  /** Code units add up over concatenation, so with `Utf16LengthOne` the
      length of any string is its characters' code units summed. */
  lemma {:induction false} Utf16LengthConcat(a: string, b: string)
    ensures Utf16Length(a + b) == Utf16Length(a) + Utf16Length(b)
    decreases |a|
  {
    if a != [] {
      assert (a + b)[1..] == a[1..] + b;
      Utf16LengthConcat(a[1..], b);
    } else {
      assert a + b == b;
    }
  }

  /** `String.prototype.includes`: `needle` occurs at some offset of `hay`. */
  predicate Contains(hay: string, needle: string) {
    exists i | 0 <= i <= |hay| - |needle| :: OccursAt(hay, needle, i)
  }

  /** `needle` occurs in `hay` starting at offset `i`. */
  predicate OccursAt(hay: string, needle: string, i: int) {
    0 <= i <= |hay| - |needle| && hay[i..i + |needle|] == needle
  }

  /** Every string contains the empty string. */
  lemma ContainsEmpty(hay: string)
    ensures Contains(hay, "")
  {
    assert OccursAt(hay, "", 0);
  }
}
