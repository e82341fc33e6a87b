/** The chat-bot name filters of the two browser scripts: `isBot` in
    public/overlay.js and `isBlockedBot` in public/app.js. */
module Bots {
  import opened JsText

  /** The form both filters compare: lower-cased with every `\s` character removed. */
  function BotKey(name: string): string {
    RemoveSpaces(Lower(name))
  }

  /** `isBot(name)` of public/overlay.js. */
  predicate IsBot(name: string) {
    BotKey(name) in {"nightbot", "streamlabs", "streamelements"}
  }

  /** `isBlockedBot(name)` of public/app.js, which also trims first. */
  predicate IsBlockedBot(name: string) {
    RemoveSpaces(Lower(Trim(name))) in {"nightbot", "streamelements"}
  }

  /** Lower-casing neither makes nor unmakes a `\s` character, so it commutes
      with their removal. */
  lemma {:induction false} LowerRemoveSpaces(s: string)
    ensures RemoveSpaces(Lower(s)) == Lower(RemoveSpaces(s))
  {
    if |s| > 0 {
      LowerRemoveSpaces(s[1..]);
      assert Lower(s) == [LowerChar(s[0])] + Lower(s[1..]);
      assert Lower(s)[1..] == Lower(s[1..]);
      if !IsSpace(s[0]) {
        assert RemoveSpaces(s) == [s[0]] + RemoveSpaces(s[1..]);
        assert Lower([s[0]] + RemoveSpaces(s[1..])) == [LowerChar(s[0])] + Lower(RemoveSpaces(s[1..]));
      }
    }
  }

  /** The `trim` in `isBlockedBot` changes nothing: it compares the same key as
      `isBot`. */
  lemma BlockedKey(name: string)
    ensures IsBlockedBot(name) <==> BotKey(name) in {"nightbot", "streamelements"}
  {
    LowerRemoveSpaces(Trim(name));
    TrimThenRemoveSpaces(name);
    LowerRemoveSpaces(name);
  }

  /** Every name the app blocks the overlay also drops; the one name the overlay
      drops and the app keeps is Streamlabs. */
  lemma BlockedIsBot(name: string)
    ensures IsBlockedBot(name) <==> IsBot(name) && BotKey(name) != "streamlabs"
  {
    BlockedKey(name);
  }

  /** A name already in lower-case letters is its own key. */
  lemma {:induction false} LetterKey(s: string)
    requires forall i :: 0 <= i < |s| ==> 'a' <= s[i] <= 'z'
    ensures BotKey(s) == s
  {
    if |s| > 0 {
      LetterKey(s[1..]);
      assert Lower(s) == [s[0]] + Lower(s[1..]);
      assert Lower(s)[1..] == Lower(s[1..]);
    }
  }

  /** For a name written in lower-case letters only, the filters compare the
      name itself: the overlay drops exactly the three bot names, the app only
      "nightbot" and "streamelements". */
  lemma LetterNames(s: string)
    requires forall i :: 0 <= i < |s| ==> 'a' <= s[i] <= 'z'
    ensures IsBot(s) <==> s in {"nightbot", "streamlabs", "streamelements"}
    ensures IsBlockedBot(s) <==> s in {"nightbot", "streamelements"}
  {
    LetterKey(s);
    BlockedKey(s);
  }
}
