/** HTML escaping of the five characters `& < > " '`, the helper defined four
    times with the same replacement table: as `esc` inside both `textToHtml` and
    `runsToHtml` of server.js, and as `escapeHtml` in public/overlay.js and
    public/app.js. */
module HtmlEscape {

  predicate IsSpecial(c: char) {
    c == '&' || c == '<' || c == '>' || c == '"' || c == '\''
  }

  /** The entity that replaces one character, or the character itself. */
  function EscapeChar(c: char): (r: string)
    ensures IsSpecial(c) ==> |r| >= 4 && r[0] == '&'
    ensures !IsSpecial(c) ==> r == [c]
  {
    match c
    case '&' => "&amp;"
    case '<' => "&lt;"
    case '>' => "&gt;"
    case '"' => "&quot;"
    case '\'' => "&#39;"
    case _ => [c]
  }

  /** No character that could open a tag or close an attribute value. */
  predicate NoMarkup(s: string) {
    forall i :: 0 <= i < |s| ==> !(s[i] == '<' || s[i] == '>' || s[i] == '"' || s[i] == '\'')
  }

  /** `s.replace(/[&<>"']/g, ...)` with the entity table above. */
  function Escape(s: string): (r: string)
    ensures NoMarkup(r)
    ensures |r| >= |s|
  {
    if |s| == 0 then "" else EscapeChar(s[0]) + Escape(s[1..])
  }

  lemma {:induction false} EscapeAppend(a: string, b: string)
    ensures Escape(a + b) == Escape(a) + Escape(b)
  {
    if |a| == 0 {
      assert a + b == b;
    } else {
      assert (a + b)[1..] == a[1..] + b;
      EscapeAppend(a[1..], b);
    }
  }

  /** Escaping leaves a string alone exactly when it holds none of the five
      characters: every other character is copied unchanged. */
  lemma {:induction false} EscapeIdentity(s: string)
    ensures Escape(s) == s <==> forall i :: 0 <= i < |s| ==> !IsSpecial(s[i])
  {
    if |s| > 0 {
      EscapeIdentity(s[1..]);
      if IsSpecial(s[0]) {
        assert |Escape(s)| >= 4 + |s[1..]| > |s|;
      } else {
        assert forall i :: 1 <= i < |s| ==> s[i] == s[1..][i - 1];
      }
    }
  }

  /** Decoding of the five entities, the inverse of `Escape`. */
  function Unescape(s: string): string {
    if |s| == 0 then ""
    else if s[0] == '&' && |s| >= 5 && s[..5] == "&amp;" then "&" + Unescape(s[5..])
    else if s[0] == '&' && |s| >= 4 && s[..4] == "&lt;" then "<" + Unescape(s[4..])
    else if s[0] == '&' && |s| >= 4 && s[..4] == "&gt;" then ">" + Unescape(s[4..])
    else if s[0] == '&' && |s| >= 6 && s[..6] == "&quot;" then "\"" + Unescape(s[6..])
    else if s[0] == '&' && |s| >= 5 && s[..5] == "&#39;" then "'" + Unescape(s[5..])
    else [s[0]] + Unescape(s[1..])
  }

  lemma UnescapeStep(c: char, rest: string)
    ensures Unescape(EscapeChar(c) + rest) == [c] + Unescape(rest)
  {
    var e := EscapeChar(c);
    var s := e + rest;
    assert s[..|e|] == e;
    assert s[|e|..] == rest;
    if c == '&' {
      assert s[..5] == "&amp;";
    } else if c == '<' {
      assert |s| >= 5 ==> s[..5][1] == 'l';
      assert s[..4] == "&lt;";
    } else if c == '>' {
      assert s[..4][1] == 'g' && (|s| >= 5 ==> s[..5][1] == 'g');
      assert s[..4] == "&gt;";
    } else if c == '"' {
      assert s[..5][1] == 'q' && s[..4][1] == 'q';
      assert s[..6] == "&quot;";
    } else if c == '\'' {
      assert s[..5][1] == '#' && s[..4][1] == '#' && (|s| >= 6 ==> s[..6][1] == '#');
      assert s[..5] == "&#39;";
    } else {
      assert s[0] == c && s[1..] == rest;
    }
  }

  /** Decoding reads an escaped text back and then carries on with whatever
      follows it. */
  lemma {:induction false} UnescapeEscapePrefix(s: string, rest: string)
    ensures Unescape(Escape(s) + rest) == s + Unescape(rest)
  {
    if |s| > 0 {
      var tail := Escape(s[1..]) + rest;
      calc {
        Unescape(Escape(s) + rest);
        { assert Escape(s) + rest == EscapeChar(s[0]) + tail; }
        Unescape(EscapeChar(s[0]) + tail);
        { UnescapeStep(s[0], tail); }
        [s[0]] + Unescape(tail);
        { UnescapeEscapePrefix(s[1..], rest); }
        [s[0]] + (s[1..] + Unescape(rest));
        { assert [s[0]] + s[1..] == s; }
        s + Unescape(rest);
      }
    } else {
      assert Escape(s) + rest == rest && s + Unescape(rest) == Unescape(rest);
    }
  }

  /** Escaping loses nothing: the original text can be recovered. */
  lemma UnescapeEscape(s: string)
    ensures Unescape(Escape(s)) == s
  {
    UnescapeEscapePrefix(s, "");
    assert Escape(s) + "" == Escape(s);
    assert s + "" == s;
  }

  lemma {:induction false} NoMarkupAppend(a: string, b: string)
    requires NoMarkup(a) && NoMarkup(b)
    ensures NoMarkup(a + b)
  {
    assert forall i :: |a| <= i < |a + b| ==> (a + b)[i] == b[i - |a|];
  }
}
