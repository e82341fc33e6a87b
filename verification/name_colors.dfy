/** Colour picking for author names. index.js (`getUsernameColor`) and
    public/overlay.js (`nameColor`) both hash the UTF-16 code units of the name
    with the multiplier 31 and index a palette with the absolute value of the hash.
    They wrap differently: index.js wraps only the `hash << 5` term, overlay.js
    wraps every step through `Math.imul` and `| 0`. */
module NameColors {
  import opened JsText
  import opened Int32

  /** The fifteen colours of index.js. */
  const UsernamePalette: seq<string> := [
    "#FF0000", "#00FF00", "#0000FF", "#FFFF00", "#FF00FF",
    "#00FFFF", "#FFA500", "#800080", "#008000", "#000080",
    "#800000", "#008080", "#FF4500", "#DA70D6", "#32CD32"
  ]

  /** The fourteen colours of public/overlay.js. */
  const OverlayPalette: seq<string> := [
    "#FF4D4D", "#FF8A4D", "#FFCA3A", "#8AC926", "#52D1DC", "#4D96FF", "#B04DFF",
    "#FF4DB7", "#32D583", "#F97066", "#12B0E8", "#7A5AF8", "#EE46BC", "#16BDCA"
  ]

  /** The unwrapped polynomial hash: sum of `u[i] * 31^(|u|-1-i)`. Both source
      hashes are this value seen through 32 bits. */
  function PolyHash(u: seq<CodeUnit>): int {
    if |u| == 0 then 0 else 31 * PolyHash(u[..|u| - 1]) + u[|u| - 1]
  }

  /** index.js: `hash = code + ((hash << 5) - hash)`, where only the shift wraps. */
  function UsernameHash(u: seq<CodeUnit>): int {
    if |u| == 0 then 0
    else
      var h := UsernameHash(u[..|u| - 1]);
      u[|u| - 1] + (ShiftLeft(h, 5) - h)
  }

  /** public/overlay.js: `h = (Math.imul(31, h) + code) | 0`. */
  function OverlayHash(u: seq<CodeUnit>): int {
    if |u| == 0 then 0
    else ToInt32(Imul(31, OverlayHash(u[..|u| - 1])) + u[|u| - 1])
  }

  /** The overlay hash is the polynomial hash wrapped once, at the end. */
  lemma {:induction false} OverlayHashWraps(u: seq<CodeUnit>)
    ensures OverlayHash(u) == ToInt32(PolyHash(u))
  {
    if |u| > 0 {
      var p := u[..|u| - 1];
      OverlayHashWraps(p);
      ImulStep(OverlayHash(p), PolyHash(p), u[|u| - 1]);
    }
  }

  /** One step of the overlay.js hash from a value that wraps `p` computes the
      wrapped value of the next polynomial step. */
  lemma ImulStep(h: int, p: int, c: int)
    requires h == ToInt32(p)
    ensures ToInt32(Imul(31, h) + c) == ToInt32(31 * p + c)
  {
    // h agrees with p, so 31 * h + c agrees with 31 * p + c ...
    CongruentAffine(p, h, -1, 0);
    CongruentAffine(h, p, 31, c);
    // ... and Math.imul(31, h) + c agrees with 31 * h + c
    CongruentAffine(31 * h, Imul(31, h), -1, 0);
    CongruentAffine(Imul(31, h), 31 * h, 1, c);
    CongruentTrans(Imul(31, h) + c, 31 * h + c, 31 * p + c);
    ToInt32Congruent(Imul(31, h) + c, 31 * p + c);
  }

  /** Although index.js lets the hash itself grow past 32 bits, the `<< 5` step
      wraps through signed 32-bit values in a way that keeps the hash congruent to
      the polynomial hash modulo 2^32. */
  lemma {:induction false} UsernameHashCongruent(u: seq<CodeUnit>)
    ensures (UsernameHash(u) - PolyHash(u)) % Two32 == 0
  {
    if |u| > 0 {
      var p := u[..|u| - 1];
      var c := u[|u| - 1];
      UsernameHashCongruent(p);
      var h := UsernameHash(p);
      assert Pow2(5) == 32;
      StepCongruent(h, PolyHash(p), c, ShiftLeft(h, 5));
    }
  }

  /** One step of the index.js hash keeps the congruence with the polynomial hash. */
  lemma StepCongruent(h: int, p: int, c: int, s: int)
    requires (h - p) % Two32 == 0
    requires (32 * h - s) % Two32 == 0
    ensures ((c + (s - h)) - (31 * p + c)) % Two32 == 0
  {
    // s agrees with 32 * h, so c + s - h agrees with 31 * h + c ...
    CongruentAffine(s, 32 * h, 1, c - h);
    // ... which agrees with 31 * p + c
    CongruentAffine(h, p, 31, c);
    CongruentTrans(c + (s - h), 31 * h + c, 31 * p + c);
  }

  /** Both scripts compute the same signed 32-bit hash of a name. */
  lemma SameHashModulo32(u: seq<CodeUnit>)
    ensures ToInt32(UsernameHash(u)) == OverlayHash(u)
  {
    UsernameHashCongruent(u);
    OverlayHashWraps(u);
    ToInt32Congruent(UsernameHash(u), PolyHash(u));
  }

  /** `getUsernameColor(username)` of index.js. */
  function UsernameColor(name: string): (color: string)
    ensures color in UsernamePalette
    ensures name == "" ==> color == "#FF0000"
  {
    UsernamePalette[Abs(UsernameHash(Utf16(name))) % |UsernamePalette|]
  }

  /** The colour `nameColor` computes for a name it has not cached. */
  function FreshNameColor(name: string): (color: string)
    ensures color in OverlayPalette
    ensures name == "" ==> color == "#FF4D4D"
  {
    OverlayPalette[Abs(OverlayHash(Utf16(name))) % |OverlayPalette|]
  }

  /** Every cached colour is the one a fresh computation would give. */
  predicate CacheSound(cache: map<string, string>) {
    forall n :: n in cache ==> cache[n] == FreshNameColor(n)
  }

  /** `nameColor(name)` with its `colorCache`: a cached colour is returned as is,
      otherwise the fresh colour is computed and stored. */
  function NameColor(cache: map<string, string>, name: string): (res: (string, map<string, string>))
    ensures name in res.1 && res.1[name] == res.0
    ensures res.1.Keys == cache.Keys + {name}
    ensures name in cache ==> res == (cache[name], cache)
    ensures CacheSound(cache) ==> res.0 == FreshNameColor(name) && res.0 in OverlayPalette
    ensures CacheSound(cache) ==> CacheSound(res.1)
  {
    if name in cache then (cache[name], cache)
    else
      var c := FreshNameColor(name);
      (c, cache[name := c])
  }
}
