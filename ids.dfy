/**
 * MongoDB object identifiers as the server handles them: request parameters
 * are strings, `new ObjectId(s)` turns them into identifiers (or throws), and
 * `ObjectId.toString()` turns an identifier back into 24 lower-case hex digits.
 */
module Ids {
  import opened Wrappers

  predicate IsHexDigit(c: char) {
    '0' <= c <= '9' || 'a' <= c <= 'f' || 'A' <= c <= 'F'
  }

  predicate IsLowerHexDigit(c: char) {
    '0' <= c <= '9' || 'a' <= c <= 'f'
  }

  /** The strings `new ObjectId(s)` accepts: exactly 24 hex digits, in either case. */
  predicate IsObjectIdText(s: string) {
    |s| == 24 && forall i :: 0 <= i < |s| ==> IsHexDigit(s[i])
  }

  /** The strings `ObjectId.toString()` produces: 24 lower-case hex digits. */
  predicate IsCanonical(s: string) {
    |s| == 24 && forall i :: 0 <= i < |s| ==> IsLowerHexDigit(s[i])
  }

  /** An identifier is represented by its canonical text, so `toString()` is the identity. */
  type ObjectId = s: string | IsCanonical(s) witness "000000000000000000000000"

  function LowerDigit(c: char): (d: char)
    requires IsHexDigit(c)
    ensures IsLowerHexDigit(d)
    ensures IsLowerHexDigit(c) ==> d == c
    ensures !IsLowerHexDigit(c) ==> d != c
  {
    if 'A' <= c <= 'F' then (c as int + 32) as char else c
  }

  function Lower(s: string): (r: string)
    requires forall i :: 0 <= i < |s| ==> IsHexDigit(s[i])
    ensures |r| == |s|
    ensures forall i :: 0 <= i < |s| ==> r[i] == LowerDigit(s[i])
  {
    if s == [] then [] else [LowerDigit(s[0])] + Lower(s[1..])
  }

  /** `new ObjectId(s)`: None stands for the exception thrown on any other text. */
  function Parse(s: string): (r: Option<ObjectId>)
    ensures r.Some? <==> IsObjectIdText(s)
  {
    if IsObjectIdText(s) then Some(Lower(s)) else None
  }

  /** Rendering an identifier and parsing it back gives the same identifier. */
  lemma ParseRendered(o: ObjectId)
    ensures Parse(o) == Some(o)
  {
    assert Lower(o) == o;
  }

  /**
   * A parsed identifier renders back to the very text it came from exactly
   * when that text was already lower-case; upper-case digits are folded.
   */
  lemma RenderParsed(s: string)
    requires IsObjectIdText(s)
    ensures Parse(s).Some?
    ensures Parse(s).value == s <==> IsCanonical(s)
  {
    var o := Parse(s).value;
    if !IsCanonical(s) {
      var i :| 0 <= i < |s| && !IsLowerHexDigit(s[i]);
      assert o[i] != s[i];
    }
  }

  /** Two texts that differ only in the case of their digits name the same identifier. */
  lemma ParseIgnoresCase(s: string, t: string)
    requires IsObjectIdText(s) && IsObjectIdText(t)
    requires forall i :: 0 <= i < 24 ==> LowerDigit(s[i]) == LowerDigit(t[i])
    ensures Parse(s) == Parse(t)
  {
    assert Lower(s) == Lower(t);
  }
}
