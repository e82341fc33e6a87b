/** Unicode emoji handling of public/overlay.js: reading the code points of an
    emoji string (`emojiToCodepoints`) and building an image URL from them
    (`getEmojiImageUrl`). */
module Emoji {
  import opened JsText
  import opened Wrappers

  predicate IsHighSurrogate(u: int) {
    0xD800 <= u <= 0xDBFF
  }

  predicate IsLowSurrogate(u: int) {
    0xDC00 <= u <= 0xDFFF
  }

  /** The code point a surrogate pair stands for (section 2.2 of RFC 2781). */
  function Combine(hi: int, lo: int): (cp: int)
    requires IsHighSurrogate(hi) && IsLowSurrogate(lo)
    ensures 0x1_0000 <= cp <= 0x10_FFFF
  {
    (hi - 0xD800) * 0x400 + (lo - 0xDC00) + 0x1_0000
  }

  /** Reference decoding of UTF-16 code units into code points, following
      section 2.2 of RFC 2781; a surrogate that is not part of a pair stands for
      itself, as `String.prototype.codePointAt` reports it. */
  function Decode(u: seq<CodeUnit>): (cps: seq<nat>)
    ensures |cps| <= |u|
    ensures forall i :: 0 <= i < |cps| ==> cps[i] <= 0x10_FFFF
  {
    if |u| == 0 then []
    else if |u| >= 2 && IsHighSurrogate(u[0]) && IsLowSurrogate(u[1]) then
      [Combine(u[0], u[1])] + Decode(u[2..])
    else [u[0] as nat] + Decode(u[1..])
  }

  predicate IsVariationSelector(cp: int) {
    cp == 0xFE0E || cp == 0xFE0F
  }

  /** `codepoints.filter((cp) => cp !== 0xfe0f && cp !== 0xfe0e)`. */
  function WithoutSelectors(cps: seq<nat>): (r: seq<nat>)
    ensures |r| <= |cps|
    ensures forall i :: 0 <= i < |r| ==> !IsVariationSelector(r[i]) && r[i] in cps
    ensures forall i :: 0 <= i < |cps| && !IsVariationSelector(cps[i]) ==> cps[i] in r
    ensures (forall i :: 0 <= i < |cps| ==> !IsVariationSelector(cps[i])) ==> r == cps
  {
    if |cps| == 0 then []
    else if IsVariationSelector(cps[0]) then WithoutSelectors(cps[1..])
    else [cps[0]] + WithoutSelectors(cps[1..])
  }

  /** The filter works on each part of a concatenation separately, so the code
      points it keeps stay in their order. */
  lemma {:induction false} WithoutSelectorsAppend(a: seq<nat>, b: seq<nat>)
    ensures WithoutSelectors(a + b) == WithoutSelectors(a) + WithoutSelectors(b)
  {
    if |a| == 0 {
      assert a + b == b;
    } else {
      assert (a + b)[0] == a[0] && (a + b)[1..] == a[1..] + b;
      WithoutSelectorsAppend(a[1..], b);
    }
  }

  /** A single code point is dropped exactly when it is a selector; with
      `WithoutSelectorsAppend` this fixes the result. */
  lemma WithoutSelectorsOne(cp: nat)
    ensures WithoutSelectors([cp]) == if IsVariationSelector(cp) then [] else [cp]
  {
    assert [cp][1..] == [];
  }

  /** `s.codePointAt(i)`. */
  function CodePointAt(u: seq<CodeUnit>, i: nat): nat
    requires i < |u|
  {
    if i + 1 < |u| && IsHighSurrogate(u[i]) && IsLowSurrogate(u[i + 1]) then Combine(u[i], u[i + 1])
    else u[i]
  }

  /** `emojiToCodepoints(emoji)`: the loop that steps over both halves of a
      surrogate pair, followed by the removal of the text and emoji
      presentation selectors U+FE0E and U+FE0F. */
  method EmojiToCodepoints(emoji: seq<CodeUnit>) returns (cps: seq<nat>)
    ensures cps == WithoutSelectors(Decode(emoji))
    ensures forall i :: 0 <= i < |cps| ==> !IsVariationSelector(cps[i]) && cps[i] <= 0x10_FFFF
  {
    var raw: seq<nat> := [];
    var i := 0;
    while i < |emoji|
      invariant 0 <= i <= |emoji|
      invariant raw + Decode(emoji[i..]) == Decode(emoji)
    {
      var cp := CodePointAt(emoji, i);
      DecodeAt(emoji, i);
      SnocAssoc(raw, cp, Decode(emoji[i + (if cp > 0xFFFF then 2 else 1)..]));
      raw := raw + [cp];
      if cp > 0xFFFF {
        i := i + 1;
      }
      i := i + 1;
    }
    assert emoji[i..] == [];
    assert raw + Decode(emoji[i..]) == raw;
    cps := WithoutSelectors(raw);
  }

  /** The code point read at `i` is the first one decoded from there on, and
      the loop steps over as many code units as it took. */
  lemma DecodeAt(u: seq<CodeUnit>, i: nat)
    requires i < |u|
    ensures var w := if CodePointAt(u, i) > 0xFFFF then 2 else 1;
      && i + w <= |u|
      && Decode(u[i..]) == [CodePointAt(u, i)] + Decode(u[i + w..])
  {
    var v := u[i..];
    if i + 1 < |u| && IsHighSurrogate(u[i]) && IsLowSurrogate(u[i + 1]) {
      assert v[2..] == u[i + 2..];
    } else {
      assert v[1..] == u[i + 1..];
    }
  }

  lemma SnocAssoc(a: seq<nat>, x: nat, b: seq<nat>)
    ensures (a + [x]) + b == a + ([x] + b)
  {
  }

  /** The code points of a string, one per character. */
  function Scalars(s: string): (cps: seq<nat>)
    ensures |cps| == |s|
    ensures forall i :: 0 <= i < |s| ==> cps[i] == s[i] as nat
  {
    if |s| == 0 then [] else [s[0] as nat] + Scalars(s[1..])
  }

  /** Decoding undoes the UTF-16 encoding of any string: the loop reads each
      character back as the code point it was, even above U+FFFF. */
  lemma {:induction false} DecodeUtf16(s: string)
    ensures Decode(Utf16(s)) == Scalars(s)
  {
    if |s| > 0 {
      var c := s[0] as int;
      DecodeUtf16(s[1..]);
      var u := Utf16(s);
      if c >= 0x1_0000 {
        var hi, lo := 0xD800 + (c - 0x1_0000) / 0x400, 0xDC00 + (c - 0x1_0000) % 0x400;
        assert u == [hi, lo] + Utf16(s[1..]);
        assert u[2..] == Utf16(s[1..]);
        assert Combine(hi, lo) == c;
      } else {
        assert u == [c] + Utf16(s[1..]);
        assert u[1..] == Utf16(s[1..]);
      }
    }
  }

  function HexDigit(d: nat): (c: char)
    requires d < 16
  {
    "0123456789abcdef"[d]
  }

  function HexValue(c: char): nat {
    if '0' <= c <= '9' then c as nat - '0' as nat
    else if 'a' <= c <= 'f' then c as nat - 'a' as nat + 10
    else 0
  }

  /** `n.toString(16)`: lower-case hexadecimal without leading zeros. */
  function Hex(n: nat): (s: string)
    ensures |s| > 0
    ensures forall i :: 0 <= i < |s| ==> s[i] != '-'
  {
    if n < 16 then [HexDigit(n)] else Hex(n / 16) + [HexDigit(n % 16)]
  }

  function ParseHex(s: string): nat {
    if |s| == 0 then 0 else 16 * ParseHex(s[..|s| - 1]) + HexValue(s[|s| - 1])
  }

  lemma {:induction false} ParseHexOfHex(n: nat)
    ensures ParseHex(Hex(n)) == n
  {
    var s := Hex(n);
    if n >= 16 {
      assert s[..|s| - 1] == Hex(n / 16);
      assert s[|s| - 1] == HexDigit(n % 16);
      ParseHexOfHex(n / 16);
      HexDigitValue(n % 16);
      assert ParseHex(s) == 16 * (n / 16) + n % 16;
    } else {
      assert s[..|s| - 1] == [];
      HexDigitValue(n);
    }
  }

  lemma HexDigitValue(d: nat)
    requires d < 16
    ensures HexValue(HexDigit(d)) == d
  {
  }

  /** `codepoints.map((cp) => cp.toString(16)).join("-")`. */
  function JoinHex(cps: seq<nat>): string {
    if |cps| == 0 then ""
    else if |cps| == 1 then Hex(cps[0])
    else Hex(cps[0]) + "-" + JoinHex(cps[1..])
  }

  /** The fields of `s` between '-' separators. */
  function SplitDash(s: string): (fields: seq<string>)
    ensures |fields| > 0
  {
    if |s| == 0 then [""]
    else if s[0] == '-' then [""] + SplitDash(s[1..])
    else
      var rest := SplitDash(s[1..]);
      [[s[0]] + rest[0]] + rest[1..]
  }

  lemma {:induction false} SplitDashField(a: string, tail: Option<string>)
    requires forall i :: 0 <= i < |a| ==> a[i] != '-'
    ensures tail.None? ==> SplitDash(a) == [a]
    ensures tail.Some? ==> SplitDash(a + "-" + tail.value) == [a] + SplitDash(tail.value)
  {
    if |a| > 0 {
      SplitDashField(a[1..], tail);
      assert [a[0]] + a[1..] == a;
      if tail.Some? {
        var s := a + "-" + tail.value;
        assert s[0] == a[0] && s[1..] == a[1..] + "-" + tail.value;
      }
    } else if tail.Some? {
      assert a + "-" + tail.value == "-" + tail.value;
      assert ("-" + tail.value)[1..] == tail.value;
    }
  }

  /** Reads a '-'-joined hexadecimal list back into code points. */
  function ParseCodepoints(s: string): seq<nat> {
    if s == "" then []
    else
      var fields := SplitDash(s);
      seq(|fields|, i requires 0 <= i < |fields| => ParseHex(fields[i]))
  }

  /** The file-name part of an emoji URL determines the code points it was built from. */
  lemma {:induction false} JoinHexRoundTrip(cps: seq<nat>)
    ensures ParseCodepoints(JoinHex(cps)) == cps
  {
    if |cps| > 0 {
      HexFieldsOfJoin(cps);
      forall i | 0 <= i < |cps| {
        ParseHexOfHex(cps[i]);
      }
    }
  }

  lemma {:induction false} HexFieldsOfJoin(cps: seq<nat>)
    requires |cps| > 0
    ensures |SplitDash(JoinHex(cps))| == |cps|
    ensures forall i :: 0 <= i < |cps| ==> SplitDash(JoinHex(cps))[i] == Hex(cps[i])
  {
    if |cps| == 1 {
      SplitDashField(Hex(cps[0]), None);
    } else {
      HexFieldsOfJoin(cps[1..]);
      SplitDashField(Hex(cps[0]), Some(JoinHex(cps[1..])));
    }
  }

  const TwemojiBase := "https://cdn.jsdelivr.net/gh/jdecked/twemoji@latest/assets/72x72/"
  const AranjaBase := "https://emoji.aranja.com/emojis/"

  /** `EMOJI_STYLE`: the `emojiStyle` query parameter lower-cased, "twitter" when
      it is missing or empty. */
  function EmojiStyle(param: Option<string>): (style: string)
    ensures param.None? || param.value == "" ==> style == "twitter"
    ensures param.Some? && param.value != "" ==> |style| == |param.value|
    ensures param.Some? && param.value != "" ==> forall i :: 0 <= i < |style| ==> style[i] == LowerChar(param.value[i])
    ensures forall i :: 0 <= i < |style| ==> !IsUpper(style[i])
  {
    if param.Some? && param.value != "" then Lower(param.value) else "twitter"
  }

  /** The image set an aranja URL names: the configured style when it is one the
      site offers, "apple" otherwise. */
  function AranjaStyle(style: string): (s: string)
    ensures s in {"apple", "google", "facebook"}
    ensures style in {"apple", "google", "facebook"} ==> s == style
  {
    if style in {"apple", "google", "facebook"} then style else "apple"
  }

  /** `getEmojiImageUrl(codepoints)` for the style `style`. */
  function EmojiImageUrl(style: string, cps: seq<nat>): (url: string)
    ensures style == "twitter" || style == "twemoji" ==> url == TwemojiBase + JoinHex(cps) + ".png"
    ensures !(style == "twitter" || style == "twemoji") ==>
      exists s :: s in {"apple", "google", "facebook"} && url == AranjaBase + s + "/" + JoinHex(cps) + ".png"
    ensures style in {"apple", "google", "facebook"} ==> url == AranjaBase + style + "/" + JoinHex(cps) + ".png"
    ensures !(style in {"twitter", "twemoji", "apple", "google", "facebook"}) ==>
      url == AranjaBase + "apple/" + JoinHex(cps) + ".png"
  {
    var hex := JoinHex(cps);
    if style == "twitter" || style == "twemoji" then TwemojiBase + hex + ".png"
    else AranjaBase + AranjaStyle(style) + "/" + hex + ".png"
  }
}
