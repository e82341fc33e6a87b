/** The handful of JavaScript string operations the chat code relies on: ASCII
    lower-casing, the `\s` character class, `trim`, `includes`, `startsWith`, the
    `^@+` strip, and the UTF-16 view of a string that `charCodeAt` and
    `codePointAt` index into. */
module JsText {

  /** A UTF-16 code unit, the element type of a JavaScript string. */
  type CodeUnit = x: int | 0 <= x < 0x1_0000

  predicate IsUpper(c: char) {
    'A' <= c <= 'Z'
  }

  /** `toLowerCase` restricted to the Latin capitals. */
  function LowerChar(c: char): char {
    if IsUpper(c) then (c as int + 32) as char else c
  }

  function Lower(s: string): (r: string)
    ensures |r| == |s|
    ensures forall i :: 0 <= i < |s| ==> r[i] == LowerChar(s[i])
  {
    if |s| == 0 then "" else [LowerChar(s[0])] + Lower(s[1..])
  }

  /** The characters matched by the regular-expression class `\s`, which are also
      the ones `String.prototype.trim` removes: ECMAScript WhiteSpace and
      LineTerminator. */
  predicate IsSpace(c: char) {
    || c == '\t' || c == '\n' || c == '\U{B}' || c == '\U{C}' || c == '\r'
    || c == ' ' || c == '\U{A0}' || c == '\U{1680}'
    || ('\U{2000}' <= c <= '\U{200A}')
    || c == '\U{2028}' || c == '\U{2029}' || c == '\U{202F}' || c == '\U{205F}'
    || c == '\U{3000}' || c == '\U{FEFF}'
  }

  /** `s.replace(/\s+/g, "")`. */
  function RemoveSpaces(s: string): (r: string)
    ensures |r| <= |s|
    ensures forall i :: 0 <= i < |r| ==> !IsSpace(r[i])
    ensures (forall i :: 0 <= i < |s| ==> !IsSpace(s[i])) ==> r == s
  {
    if |s| == 0 then ""
    else if IsSpace(s[0]) then RemoveSpaces(s[1..])
    else [s[0]] + RemoveSpaces(s[1..])
  }

  lemma {:induction false} RemoveSpacesAppend(a: string, b: string)
    ensures RemoveSpaces(a + b) == RemoveSpaces(a) + RemoveSpaces(b)
  {
    if |a| == 0 {
      assert a + b == b;
    } else {
      assert (a + b)[1..] == a[1..] + b;
      RemoveSpacesAppend(a[1..], b);
    }
  }

  /** A single character is dropped exactly when it is whitespace; with
      `RemoveSpacesAppend` this fixes the result as the other characters of the
      input, in order. */
  lemma RemoveSpacesOne(c: char)
    ensures RemoveSpaces([c]) == if IsSpace(c) then "" else [c]
  {
    assert [c][1..] == "";
  }

  lemma {:induction false} RemoveSpacesOfSpaces(s: string)
    requires forall i :: 0 <= i < |s| ==> IsSpace(s[i])
    ensures RemoveSpaces(s) == ""
  {
    if |s| > 0 {
      RemoveSpacesOfSpaces(s[1..]);
    }
  }

  function TrimStart(s: string): (r: string)
    ensures |r| <= |s| && r == s[|s| - |r|..]
    ensures |r| > 0 ==> !IsSpace(r[0])
    ensures forall i :: 0 <= i < |s| - |r| ==> IsSpace(s[i])
  {
    if |s| > 0 && IsSpace(s[0]) then TrimStart(s[1..]) else s
  }

  function TrimEnd(s: string): (r: string)
    ensures |r| <= |s| && r == s[..|r|]
    ensures |r| > 0 ==> !IsSpace(r[|r| - 1])
    ensures forall i :: |r| <= i < |s| ==> IsSpace(s[i])
  {
    if |s| > 0 && IsSpace(s[|s| - 1]) then TrimEnd(s[..|s| - 1]) else s
  }

  /** `String.prototype.trim`. */
  function Trim(s: string): string {
    TrimEnd(TrimStart(s))
  }

  lemma DropSpacePrefix(s: string, k: nat)
    requires k <= |s|
    requires forall i :: 0 <= i < k ==> IsSpace(s[i])
    ensures RemoveSpaces(s) == RemoveSpaces(s[k..])
  {
    assert s == s[..k] + s[k..];
    RemoveSpacesOfSpaces(s[..k]);
    RemoveSpacesAppend(s[..k], s[k..]);
  }

  lemma DropSpaceSuffix(s: string, k: nat)
    requires k <= |s|
    requires forall i :: k <= i < |s| ==> IsSpace(s[i])
    ensures RemoveSpaces(s) == RemoveSpaces(s[..k])
  {
    assert s == s[..k] + s[k..];
    RemoveSpacesOfSpaces(s[k..]);
    RemoveSpacesAppend(s[..k], s[k..]);
  }

  /** Trimming before removing every `\s` character changes nothing: the characters
      `trim` removes are among those the `\s` class removes anyway. */
  lemma TrimThenRemoveSpaces(s: string)
    ensures RemoveSpaces(Trim(s)) == RemoveSpaces(s)
  {
    var t := TrimStart(s);
    DropSpacePrefix(s, |s| - |t|);
    DropSpaceSuffix(t, |TrimEnd(t)|);
  }

  /** `s.includes(sub)`. */
  predicate Contains(s: string, sub: string) {
    exists i | 0 <= i <= |s| - |sub| :: OccursAt(s, sub, i)
  }

  predicate OccursAt(s: string, sub: string, i: nat)
    requires i + |sub| <= |s|
  {
    s[i..i + |sub|] == sub
  }

  /** `s.startsWith(p)`. */
  predicate StartsWith(s: string, p: string) {
    |p| <= |s| && s[..|p|] == p
  }

  /** `s.replace(/^@+/, "")`: every leading '@' removed. */
  function StripLeadingAts(s: string): (r: string)
    ensures |r| <= |s| && r == s[|s| - |r|..]
    ensures forall i :: 0 <= i < |s| - |r| ==> s[i] == '@'
    ensures |r| > 0 ==> r[0] != '@'
  {
    if |s| > 0 && s[0] == '@' then StripLeadingAts(s[1..]) else s
  }

  /** The UTF-16 form of a string, as section 2.1 of RFC 2781 encodes a code
      point above U+FFFF as a high and a low surrogate. */
  function Utf16(s: string): (r: seq<CodeUnit>)
    ensures |r| >= |s|
  {
    if |s| == 0 then []
    else
      var c := s[0] as int;
      var head: seq<CodeUnit> :=
        if c < 0x1_0000 then [c]
        else [0xD800 + (c - 0x1_0000) / 0x400, 0xDC00 + (c - 0x1_0000) % 0x400];
      head + Utf16(s[1..])
  }
}
