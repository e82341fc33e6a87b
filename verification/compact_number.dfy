/** `parseCompactNumber` of server.js: viewer counts written as "12,345 watching",
    "7.8K" or "1.2M watching now". The mantissa is read as an exact decimal
    fraction rather than an IEEE double, and `Math.round` is round-half-up on
    that exact value. */
module CompactNumber {
  import opened Wrappers
  import opened JsText

  predicate IsDigit(c: char) {
    '0' <= c <= '9'
  }

  /** The characters of the class `[\d.]`. */
  predicate IsNumeric(c: char) {
    IsDigit(c) || c == '.'
  }

  /** `s.replace(/,/g, "")`. */
  function StripCommas(s: string): (r: string)
    ensures |r| <= |s|
    ensures forall i :: 0 <= i < |r| ==> r[i] != ','
  {
    if |s| == 0 then ""
    else if s[0] == ',' then StripCommas(s[1..])
    else [s[0]] + StripCommas(s[1..])
  }

  lemma {:induction false} StripCommasAppend(a: string, b: string)
    ensures StripCommas(a + b) == StripCommas(a) + StripCommas(b)
  {
    if |a| == 0 {
      assert a + b == b;
    } else {
      assert (a + b)[1..] == a[1..] + b;
      StripCommasAppend(a[1..], b);
    }
  }

  lemma {:induction false} StripCommasNoCommas(s: string)
    requires forall i :: 0 <= i < |s| ==> s[i] != ','
    ensures StripCommas(s) == s
  {
    if |s| > 0 {
      StripCommasNoCommas(s[1..]);
      assert [s[0]] + s[1..] == s;
    }
  }

  /** The text from the first `[\d.]` character on, where the regular expression
      starts its leftmost match; empty when there is no such character. */
  function FromFirstNumeric(t: string): (r: string)
    ensures |r| <= |t| && r == t[|t| - |r|..]
    ensures |r| > 0 ==> IsNumeric(r[0])
    ensures forall i :: 0 <= i < |t| - |r| ==> !IsNumeric(t[i])
  {
    if |t| == 0 || IsNumeric(t[0]) then t else FromFirstNumeric(t[1..])
  }

  /** The longest prefix of `t` whose characters all satisfy `IsNumeric`: the
      capture group `([\d.]+)` (a greedy match). */
  function NumericRun(t: string): (r: string)
    ensures |r| <= |t| && r == t[..|r|]
    ensures forall i :: 0 <= i < |r| ==> IsNumeric(r[i])
    ensures |r| < |t| ==> !IsNumeric(t[|r|])
  {
    if |t| > 0 && IsNumeric(t[0]) then [t[0]] + NumericRun(t[1..]) else ""
  }

  function DigitPrefix(t: string): (r: string)
    ensures |r| <= |t| && r == t[..|r|]
    ensures forall i :: 0 <= i < |r| ==> IsDigit(r[i])
    ensures |r| < |t| ==> !IsDigit(t[|r|])
  {
    if |t| > 0 && IsDigit(t[0]) then [t[0]] + DigitPrefix(t[1..]) else ""
  }

  /** The value of a string of decimal digits. */
  function DigitsValue(d: string): nat {
    if |d| == 0 then 0 else 10 * DigitsValue(d[..|d| - 1]) + (d[|d| - 1] as int - '0' as int) % 10
  }

  function Pow10(k: nat): (r: nat)
    ensures r >= 1
  {
    if k == 0 then 1 else 10 * Pow10(k - 1)
  }

  /** A decimal fraction `DigitsValue(digits) / 10^scale`. */
  datatype Mantissa = Mantissa(digits: string, scale: nat)

  /** What `parseFloat` reads from a run of digits and dots: digits, then
      optionally a dot and more digits, with at least one digit in all.
      `None` is the NaN that a lone "." or a run like "..5" produces. */
  function ParseMantissa(run: string): (m: Option<Mantissa>)
    ensures m.None? <==> !(|run| > 0 && IsDigit(run[0])) && !(|run| > 1 && run[0] == '.' && IsDigit(run[1]))
  {
    var ip := DigitPrefix(run);
    var after := run[|ip|..];
    var fp := if |after| > 0 && after[0] == '.' then DigitPrefix(after[1..]) else "";
    if |ip| + |fp| == 0 then None else Some(Mantissa(ip + fp, |fp|))
  }

  /** The multiplier of the optional `\s*([kmb])?` that follows the number,
      compared case-insensitively. */
  function Multiplier(rest: string): (k: nat)
    ensures k in {1, 1000, 1_000_000, 1_000_000_000}
  {
    var r := TrimStart(rest);
    if |r| == 0 then 1
    else if LowerChar(r[0]) == 'k' then 1000
    else if LowerChar(r[0]) == 'm' then 1_000_000
    else if LowerChar(r[0]) == 'b' then 1_000_000_000
    else 1
  }

  /** `Math.round(num / den)` for a non-negative fraction: the whole number
      nearest to it, halves rounding up. */
  function RoundHalfUp(num: nat, den: nat): (r: nat)
    requires den > 0
    ensures 2 * r * den <= 2 * num + den < 2 * (r + 1) * den
  {
    (2 * num + den) / (2 * den)
  }

  /** A comma-stripped text on which `parseFloat` finds a number: its first
      `[\d.]` character is a digit, or a dot directly followed by a digit. */
  predicate HasNumber(t: string) {
    var f := FromFirstNumeric(t);
    (|f| > 0 && IsDigit(f[0])) || (|f| > 1 && f[0] == '.' && IsDigit(f[1]))
  }

  lemma RunStart(f: string)
    requires |f| > 0 ==> IsNumeric(f[0])
    ensures ParseMantissa(NumericRun(f)).None? <==> !((|f| > 0 && IsDigit(f[0])) || (|f| > 1 && f[0] == '.' && IsDigit(f[1])))
  {
    var run := NumericRun(f);
    if |f| > 0 {
      assert run[0] == f[0];
      if |f| > 1 && IsNumeric(f[1]) {
        assert run[1] == f[1];
      }
    }
  }

  /** The number read from a comma-free text. */
  function ParseStripped(t: string): (n: int)
    ensures n >= -1
    ensures n == -1 <==> !HasNumber(t)
  {
    var f := FromFirstNumeric(t);
    var run := NumericRun(f);
    RunStart(f);
    match ParseMantissa(run)
    case None => -1
    case Some(m) => Scaled(m, f[|run|..])
  }

  /** `Math.round(n)` after `n *= 1e3` (or 1e6, 1e9) for the unit in `rest`. */
  function Scaled(m: Mantissa, rest: string): nat {
    RoundHalfUp(DigitsValue(m.digits) * Multiplier(rest), Pow10(m.scale))
  }

  /** `parseCompactNumber(s)`; `None` stands for an argument that is not a string. */
  function ParseCompactNumber(s: Option<string>): (n: int)
    ensures n >= -1
    ensures n == -1 <==> s.None? || s.value == "" || !HasNumber(StripCommas(s.value))
  {
    if s.None? || s.value == "" then -1 else ParseStripped(StripCommas(s.value))
  }

  /** `String(n)` for a natural number. */
  function Decimal(n: nat): (d: string)
    ensures |d| > 0
    ensures forall i :: 0 <= i < |d| ==> IsDigit(d[i])
  {
    if n < 10 then ["0123456789"[n]] else Decimal(n / 10) + ["0123456789"[n % 10]]
  }

  lemma {:induction false} DecimalValue(n: nat)
    ensures DigitsValue(Decimal(n)) == n
  {
    var d := Decimal(n);
    if n >= 10 {
      assert d[..|d| - 1] == Decimal(n / 10);
      DecimalValue(n / 10);
    }
  }

  lemma {:induction false} DigitPrefixOfDigits(d: string, tail: string)
    requires forall i :: 0 <= i < |d| ==> IsDigit(d[i])
    requires |tail| == 0 || !IsDigit(tail[0])
    ensures DigitPrefix(d + tail) == d
  {
    if |d| > 0 {
      assert (d + tail)[1..] == d[1..] + tail;
      DigitPrefixOfDigits(d[1..], tail);
      assert [d[0]] + d[1..] == d;
    } else {
      assert d + tail == tail;
    }
  }

  lemma {:induction false} NumericRunOfDigits(d: string, tail: string)
    requires forall i :: 0 <= i < |d| ==> IsDigit(d[i])
    requires |tail| == 0 || !IsNumeric(tail[0])
    ensures NumericRun(d + tail) == d
  {
    if |d| > 0 {
      assert (d + tail)[1..] == d[1..] + tail;
      NumericRunOfDigits(d[1..], tail);
      assert [d[0]] + d[1..] == d;
    } else {
      assert d + tail == tail;
    }
  }

  /** The multiplier a unit letter names. */
  function UnitValue(u: char): nat {
    match LowerChar(u)
    case 'k' => 1000
    case 'm' => 1_000_000
    case 'b' => 1_000_000_000
    case _ => 1
  }

  /** A character that ends a printed count without naming a unit. */
  predicate IsPlainEnd(c: char) {
    !IsNumeric(c) && !IsSpace(c) && c != ',' && LowerChar(c) !in {'k', 'm', 'b'}
  }

  /** A count printed as plain digits, after a text without digits or dots and
      before optional spaces and a unit letter, is read back exactly, multiplied
      by the unit; commas in the leading text or the tail are ignored. */
  lemma ParsePrinted(lead: string, n: nat, spaces: string, unit: Option<char>, tail: string)
    requires forall i :: 0 <= i < |lead| ==> !IsNumeric(lead[i])
    requires forall i :: 0 <= i < |spaces| ==> IsSpace(spaces[i])
    requires unit.Some? ==> LowerChar(unit.value) in {'k', 'm', 'b'}
    requires unit.None? ==> tail == "" || IsPlainEnd(tail[0])
    ensures ParseCompactNumber(Some(lead + Decimal(n) + spaces + (if unit.Some? then [unit.value] else "") + tail))
            == n * (if unit.Some? then UnitValue(unit.value) else 1)
  {
    var d := Decimal(n);
    var u := if unit.Some? then [unit.value] else "";
    var st := StripCommas(tail);
    StripPrinted(lead, d, spaces, u, tail);
    var rest := spaces + u + st;
    var k := if unit.Some? then UnitValue(unit.value) else 1;
    MultiplierOfUnit(spaces, unit, tail);
    assert Multiplier(rest) == k;
    NoNumericStrip(lead);
    ParseStrippedDigits(StripCommas(lead), d, rest);
    DecimalValue(n);
  }

  lemma MultiplierOfUnit(spaces: string, unit: Option<char>, tail: string)
    requires forall i :: 0 <= i < |spaces| ==> IsSpace(spaces[i])
    requires unit.Some? ==> LowerChar(unit.value) in {'k', 'm', 'b'}
    requires unit.None? ==> tail == "" || IsPlainEnd(tail[0])
    ensures var rest := spaces + (if unit.Some? then [unit.value] else "") + StripCommas(tail);
      && (|rest| == 0 || !IsNumeric(rest[0]))
      && Multiplier(rest) == if unit.Some? then UnitValue(unit.value) else 1
  {
    if unit.Some? {
      UnitMultiplier(spaces, unit.value, StripCommas(tail));
    } else {
      PlainMultiplier(spaces, tail);
      assert spaces + "" == spaces;
    }
  }

  lemma UnitMultiplier(spaces: string, c: char, st: string)
    requires forall i :: 0 <= i < |spaces| ==> IsSpace(spaces[i])
    requires LowerChar(c) in {'k', 'm', 'b'}
    ensures var rest := spaces + [c] + st;
      && !IsNumeric(rest[0])
      && Multiplier(rest) == UnitValue(c)
  {
    var t := [c] + st;
    assert spaces + [c] + st == spaces + t;
    UnitLetter(c);
    MultiplierAfterSpaces(spaces, t);
    UnitMultiplierStart(t);
    if |spaces| > 0 {
      assert (spaces + t)[0] == spaces[0];
    } else {
      assert spaces + t == t;
    }
  }

  lemma MultiplierAfterSpaces(spaces: string, t: string)
    requires forall i :: 0 <= i < |spaces| ==> IsSpace(spaces[i])
    requires |t| == 0 || !IsSpace(t[0])
    ensures Multiplier(spaces + t) == Multiplier(t)
  {
    TrimStartSpaces(spaces, t);
    assert TrimStart(t) == t;
  }

  lemma UnitMultiplierStart(t: string)
    requires |t| > 0 && LowerChar(t[0]) in {'k', 'm', 'b'}
    ensures Multiplier(t) == UnitValue(t[0])
  {
    UnitLetter(t[0]);
    assert TrimStart(t) == t;
  }

  lemma PlainMultiplier(spaces: string, tail: string)
    requires forall i :: 0 <= i < |spaces| ==> IsSpace(spaces[i])
    requires tail == "" || IsPlainEnd(tail[0])
    ensures var rest := spaces + StripCommas(tail);
      && (|rest| == 0 || !IsNumeric(rest[0]))
      && Multiplier(rest) == 1
  {
    var st := StripCommas(tail);
    if |st| > 0 {
      assert tail[0] != ',';
      assert st[0] == tail[0];
    }
    TrimStartSpaces(spaces, st);
    if |spaces| > 0 {
      assert (spaces + st)[0] == spaces[0];
    } else {
      assert spaces + st == st;
    }
  }

  lemma UnitLetter(c: char)
    requires LowerChar(c) in {'k', 'm', 'b'}
    ensures !IsSpace(c) && !IsNumeric(c)
  {
  }

  /** Where the commas go when a printed count is stripped of them. */
  lemma StripPrinted(lead: string, d: string, spaces: string, u: string, tail: string)
    requires forall i :: 0 <= i < |d| ==> IsDigit(d[i])
    requires forall i :: 0 <= i < |spaces| ==> IsSpace(spaces[i])
    requires forall i :: 0 <= i < |u| ==> u[i] != ','
    ensures StripCommas(lead + d + spaces + u + tail)
            == StripCommas(lead) + d + (spaces + u + StripCommas(tail))
  {
    var su := spaces + u;
    var after := su + tail;
    assert forall i :: 0 <= i < |su| ==> su[i] != ',' by {
      forall i | 0 <= i < |su| ensures su[i] != ',' {
        if i >= |spaces| {
          assert su[i] == u[i - |spaces|];
        }
      }
    }
    calc {
      StripCommas(lead + d + spaces + u + tail);
      == { assert lead + d + spaces + u + tail == lead + (d + after); }
      StripCommas(lead + (d + after));
      == { StripCommasAppend(lead, d + after); }
      StripCommas(lead) + StripCommas(d + after);
      == { StripCommasKeep(d, after); }
      StripCommas(lead) + (d + StripCommas(after));
      == { StripCommasKeep(su, tail); }
      StripCommas(lead) + (d + (su + StripCommas(tail)));
      == { assert d + (su + StripCommas(tail)) == d + (spaces + u + StripCommas(tail)); }
      StripCommas(lead) + (d + (spaces + u + StripCommas(tail)));
      == { AppendAssoc(StripCommas(lead), d, spaces + u + StripCommas(tail)); }
      StripCommas(lead) + d + (spaces + u + StripCommas(tail));
    }
  }

  lemma StripCommasKeep(pre: string, t: string)
    requires forall i :: 0 <= i < |pre| ==> pre[i] != ','
    ensures StripCommas(pre + t) == pre + StripCommas(t)
  {
    StripCommasAppend(pre, t);
    StripCommasNoCommas(pre);
  }

  lemma AppendAssoc(a: string, b: string, c: string)
    ensures (a + b) + c == a + (b + c)
  {
  }

  /** Digits after a text without digits or dots are the number `parseFloat`
      reads, scaled by whatever unit follows them. */
  lemma ParseStrippedDigits(lead: string, d: string, rest: string)
    requires forall i :: 0 <= i < |lead| ==> !IsNumeric(lead[i])
    requires |d| > 0 && forall i :: 0 <= i < |d| ==> IsDigit(d[i])
    requires |rest| == 0 || !IsNumeric(rest[0])
    ensures ParseStripped(lead + d + rest) == DigitsValue(d) * Multiplier(rest)
  {
    var f := d + rest;
    assert lead + d + rest == lead + f;
    FromFirstNumericSkips(lead, f);
    NumericRunOfDigits(d, rest);
    assert f[|d|..] == rest;
    MantissaOfDigits(d);
    ParseStrippedFrom(lead + f, f, d, Mantissa(d, 0));
    WholeRounds(d, rest);
  }

  /** `ParseStripped` once its three stages are known. */
  lemma ParseStrippedFrom(t: string, f: string, run: string, m: Mantissa)
    requires FromFirstNumeric(t) == f && NumericRun(f) == run && ParseMantissa(run) == Some(m)
    ensures ParseStripped(t) == Scaled(m, f[|run|..])
  {
  }

  lemma MantissaOfDigits(d: string)
    requires |d| > 0 && forall i :: 0 <= i < |d| ==> IsDigit(d[i])
    ensures ParseMantissa(d) == Some(Mantissa(d, 0))
  {
    DigitPrefixOfDigits(d, "");
    assert d + "" == d;
  }

  lemma WholeRounds(d: string, rest: string)
    ensures Scaled(Mantissa(d, 0), rest) == DigitsValue(d) * Multiplier(rest)
  {
    var x := DigitsValue(d) * Multiplier(rest);
    assert Pow10(0) == 1;
    assert RoundHalfUp(x, 1) == x;
  }

  lemma {:induction false} NoNumericStrip(s: string)
    requires forall i :: 0 <= i < |s| ==> !IsNumeric(s[i])
    ensures forall i :: 0 <= i < |StripCommas(s)| ==> !IsNumeric(StripCommas(s)[i])
  {
    if |s| > 0 {
      NoNumericStrip(s[1..]);
    }
  }

  lemma {:induction false} FromFirstNumericSkips(lead: string, t: string)
    requires forall i :: 0 <= i < |lead| ==> !IsNumeric(lead[i])
    requires |t| > 0 && IsNumeric(t[0])
    ensures FromFirstNumeric(lead + t) == t
  {
    if |lead| > 0 {
      assert (lead + t)[1..] == lead[1..] + t;
      FromFirstNumericSkips(lead[1..], t);
    } else {
      assert lead + t == t;
    }
  }

  lemma {:induction false} TrimStartSpaces(spaces: string, t: string)
    requires forall i :: 0 <= i < |spaces| ==> IsSpace(spaces[i])
    requires |t| == 0 || !IsSpace(t[0])
    ensures TrimStart(spaces + t) == t
  {
    if |spaces| > 0 {
      assert (spaces + t)[1..] == spaces[1..] + t;
      TrimStartSpaces(spaces[1..], t);
    } else {
      assert spaces + t == t;
    }
  }

  /** Commas are ignored wherever they appear. */
  lemma ParseIgnoresCommas(s: string)
    ensures ParseCompactNumber(Some(s)) == ParseCompactNumber(Some(StripCommas(s)))
  {
    StripCommasNoCommas(StripCommas(s));
  }
}
