/**
  * The JavaScript string primitives the prompt store relies on:
  * `String.prototype.trim`, `toLowerCase` and `includes`.
  */
module Text {

  /**
    * The code points `trim` removes: ECMAScript's WhiteSpace (tab, vertical
    * tab, form feed, space, no-break space, zero-width no-break space and the
    * Unicode space separators) and LineTerminator (LF, CR, U+2028, U+2029).
    */
  predicate IsWhitespace(c: char) {
    || c == '\t' || c == '\n' || c == '\U{000B}' || c == '\U{000C}' || c == '\r'
    || c == ' ' || c == '\U{00A0}' || c == '\U{1680}'
    || ('\U{2000}' <= c <= '\U{200A}')
    || c == '\U{2028}' || c == '\U{2029}' || c == '\U{202F}' || c == '\U{205F}'
    || c == '\U{3000}' || c == '\U{FEFF}'
  }

  /** `s` without its leading whitespace. */
  function TrimStart(s: string): (r: string)
    ensures |r| <= |s| && r == s[|s| - |r|..]
    ensures forall i :: 0 <= i < |s| - |r| ==> IsWhitespace(s[i])
    ensures r != [] ==> !IsWhitespace(r[0])
  {
    if s != [] && IsWhitespace(s[0]) then TrimStart(s[1..]) else s
  }

  /** `s` without its trailing whitespace. */
  function TrimEnd(s: string): (r: string)
    ensures |r| <= |s| && r == s[..|r|]
    ensures forall i :: |r| <= i < |s| ==> IsWhitespace(s[i])
    ensures r != [] ==> !IsWhitespace(r[|r| - 1])
  {
    if s != [] && IsWhitespace(s[|s| - 1]) then TrimEnd(s[..|s| - 1]) else s
  }

  /**
    * `String.prototype.trim`: the part of `s` between its leading and its
    * trailing whitespace. It is empty exactly when `s` is all whitespace.
    */
  function Trim(s: string): (r: string)
    ensures r == [] <==> forall i :: 0 <= i < |s| ==> IsWhitespace(s[i])
  {
    TrimEnd(TrimStart(s))
  }

  /**
    * What `trim` keeps neither starts nor ends with whitespace, and is a
    * contiguous block of the original string.
    */
  lemma TrimmedEnds(s: string)
    ensures var r := Trim(s);
      && (r != [] ==> !IsWhitespace(r[0]) && !IsWhitespace(r[|r| - 1]))
      && Contains(s, r)
  {
    var front := TrimStart(s);
    assert OccursAt(s, Trim(s), |s| - |front|);
  }

  /** A string that neither starts nor ends with whitespace is its own trim. */
  lemma TrimKeepsUnpadded(s: string)
    requires s != [] && !IsWhitespace(s[0]) && !IsWhitespace(s[|s| - 1])
    ensures Trim(s) == s
  {
  }

  /** JavaScript's falsy test `!s.trim()`: nothing is left after trimming. */
  predicate IsBlank(s: string) {
    Trim(s) == []
  }

  /** `toLowerCase` on one code point, for the ASCII letters. */
  function LowerChar(c: char): char {
    if 'A' <= c <= 'Z' then (c as int + 32) as char else c
  }

  /** `String.prototype.toLowerCase`, restricted to the ASCII letters. */
  function ToLower(s: string): string {
    seq(|s|, i requires 0 <= i < |s| => LowerChar(s[i]))
  }

  /** Lower-casing neither creates nor removes whitespace. */
  lemma LowerCharKeepsWhitespace(c: char)
    ensures IsWhitespace(LowerChar(c)) == IsWhitespace(c)
  {
  }

  /** Lower-casing a blank string leaves it blank, and a non-blank one non-blank. */
  lemma {:induction false} ToLowerKeepsBlank(s: string)
    ensures IsBlank(ToLower(s)) == IsBlank(s)
  {
    var t := ToLower(s);
    forall i | 0 <= i < |s|
      ensures IsWhitespace(t[i]) == IsWhitespace(s[i])
    {
      LowerCharKeepsWhitespace(s[i]);
    }
  }

  /** `sub` occurs in `s` starting at position `k`. */
  predicate OccursAt(s: string, sub: string, k: nat) {
    k + |sub| <= |s| && s[k..k + |sub|] == sub
  }

  /** `s.includes(sub)`: `sub` occurs in `s` as a contiguous block. */
  function Contains(s: string, sub: string): (r: bool)
    ensures r <==> exists k: nat :: OccursAt(s, sub, k)
    decreases |s|
  {
    if |sub| > |s| then false
    else if s[..|sub|] == sub then
      assert OccursAt(s, sub, 0);
      true
    else
      var r := Contains(s[1..], sub);
      assert forall k: nat :: OccursAt(s, sub, k + 1) <==> OccursAt(s[1..], sub, k);
      assert !OccursAt(s, sub, 0);
      assert (exists k: nat :: OccursAt(s, sub, k)) ==> exists k: nat :: OccursAt(s[1..], sub, k) by {
        if exists k: nat :: OccursAt(s, sub, k) {
          var k: nat :| OccursAt(s, sub, k);
          assert OccursAt(s[1..], sub, k - 1);
        }
      }
      r
  }

  /** Every string contains the empty string. */
  lemma ContainsEmpty(s: string)
    ensures Contains(s, [])
  {
    assert OccursAt(s, [], 0);
  }
}
