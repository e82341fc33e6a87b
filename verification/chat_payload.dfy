/** Normalisation of the chat library's events in server.js: `normalizeActions`
    finds the list of actions in an event, and `parseActions` turns each
    chat-message action into the message the overlay receives. */
module ChatPayload {
  import opened Wrappers
  import opened JsText
  import RunsHtml
  import opened HtmlEscape

  /** An author badge; strings are "" when missing. */
  datatype Badge = Badge(
    tooltip: string,
    labelText: string,
    /** `custom_thumbnail.thumbnails`, `thumbnail.thumbnails`, `thumbnails`, `icon.thumbnails` */
    customThumbs: Option<seq<RunsHtml.Thumb>>,
    thumbnailThumbs: Option<seq<RunsHtml.Thumb>>,
    ownThumbs: Option<seq<RunsHtml.Thumb>>,
    iconThumbs: Option<seq<RunsHtml.Thumb>>)

  /** `(b?.tooltip || b?.label || "").toLowerCase()`. */
  function Tip(b: Badge): string {
    Lower(if b.tooltip != "" then b.tooltip else b.labelText)
  }

  /** `!!badges.find((b) => Tip(b).includes(keyword))`. */
  function AnyBadge(badges: seq<Badge>, keyword: string): (found: bool)
    ensures found <==> exists i :: 0 <= i < |badges| && Contains(Tip(badges[i]), keyword)
  {
    if |badges| == 0 then false
    else if Contains(Tip(badges[0]), keyword) then true
    else
      var rest := AnyBadge(badges[1..], keyword);
      assert forall i :: 1 <= i < |badges| ==> badges[i] == badges[1..][i - 1];
      rest
  }

  /** The thumbnail list a member badge offers: the first of its four sources
      that is present (an empty array counts as present), through `pickThumbUrl`. */
  function BadgeUrl(b: Badge): Option<string> {
    RunsHtml.PickThumbUrl(FirstSome([b.customThumbs, b.thumbnailThumbs, b.ownThumbs, b.iconThumbs]))
  }

  predicate IsMemberBadge(b: Badge) {
    Contains(Tip(b), "member")
  }

  /** The `member_badges` loop: the image url of every member badge that has one,
      in badge order. */
  function MemberBadges(badges: seq<Badge>): (urls: seq<string>)
    ensures |urls| <= |badges|
    ensures forall i :: 0 <= i < |urls| ==>
      urls[i] != "" && exists j :: 0 <= j < |badges| && IsMemberBadge(badges[j]) && BadgeUrl(badges[j]) == Some(urls[i])
  {
    if |badges| == 0 then []
    else
      var rest := MemberBadges(badges[1..]);
      assert forall j :: 1 <= j < |badges| ==> badges[j] == badges[1..][j - 1];
      var b := badges[0];
      if IsMemberBadge(b) && BadgeUrl(b).Some? then [BadgeUrl(b).value] + rest else rest
  }

  lemma {:induction false} MemberBadgesAppend(a: seq<Badge>, b: seq<Badge>)
    ensures MemberBadges(a + b) == MemberBadges(a) + MemberBadges(b)
  {
    if |a| == 0 {
      assert a + b == b;
    } else {
      assert (a + b)[1..] == a[1..] + b;
      MemberBadgesAppend(a[1..], b);
    }
  }

  /** One badge contributes its url exactly when it is a member badge with an image. */
  lemma MemberBadgesOne(b: Badge)
    ensures MemberBadges([b]) == if IsMemberBadge(b) && BadgeUrl(b).Some? then [BadgeUrl(b).value] else []
  {
    assert [b][1..] == [];
  }

  /** A message with a membership badge image always carries the member flag. */
  lemma MemberBadgesImplyMember(badges: seq<Badge>)
    ensures |MemberBadges(badges)| > 0 ==> AnyBadge(badges, "member")
  {
    if |MemberBadges(badges)| > 0 {
      var j :| 0 <= j < |badges| && IsMemberBadge(badges[j]) && BadgeUrl(badges[j]) == Some(MemberBadges(badges)[0]);
    }
  }

  /** An action or chat item object, reduced to the fields `parseActions` reads.
      Strings are "" and options `None` when the field is missing. */
  datatype Node = Node(
    typ: string,
    actionType: string,
    /** the nested `item` object */
    item: Option<Node>,
    itemType: string,
    /** `author.name.toString()` */
    authorName: Option<string>,
    /** `author_name.text` */
    authorNameText: Option<string>,
    /** `authorName` */
    authorNameField: Option<string>,
    message: Option<RunsHtml.TextValue>,
    headerPrimaryText: Option<RunsHtml.TextValue>,
    headerPrimaryTextCamel: Option<RunsHtml.TextValue>,
    authorBadges: Option<seq<Badge>>,
    authorBadgesCamel: Option<seq<Badge>>)

  /** The chat message sent to the overlay. */
  datatype Message = Message(
    author: string,
    html: string,
    isMod: bool,
    isOwner: bool,
    isMember: bool,
    memberBadges: seq<string>,
    rawType: string)

  const MessageKinds: set<string> := {"LiveChatTextMessage", "LiveChatPaidMessage", "LiveChatMembershipItem"}

  /** `act?.type || act?.action_type || ""`. */
  function ActionType(act: Node): string {
    if act.typ != "" then act.typ else act.actionType
  }

  /** `act?.item || act`. */
  function ItemOf(act: Node): Node {
    if act.item.Some? then act.item.value else act
  }

  /** `item?.type || item?.item_type || ""`. */
  function ItemType(item: Node): string {
    if item.typ != "" then item.typ else item.itemType
  }

  /** An action `parseActions` turns into a message. */
  predicate IsChatAction(act: Node) {
    ActionType(act) in {"", "AddChatItemAction"} && ItemType(ItemOf(act)) in MessageKinds
  }

  /** The author chain of `??`s, with the leading '@'s of a handle removed. A
      name that is present but empty stays empty: `??` only skips missing values. */
  function Author(item: Node): (author: string)
    ensures |author| > 0 ==> author[0] != '@'
    ensures item.authorName.None? && item.authorNameText.None? && item.authorNameField.None? ==> author == "User"
    ensures item.authorName.Some? ==> author == StripLeadingAts(item.authorName.value)
    ensures item.authorName.None? && item.authorNameText.Some? ==> author == StripLeadingAts(item.authorNameText.value)
    ensures item.authorName.None? && item.authorNameText.None? && item.authorNameField.Some? ==>
      author == StripLeadingAts(item.authorNameField.value)
  {
    FirstSomeOfThree(item.authorName, item.authorNameText, item.authorNameField);
    StripLeadingAts(FirstSome([item.authorName, item.authorNameText, item.authorNameField]).GetOr("User"))
  }

  /** `item?.author_badges || item?.authorBadges || []`. */
  function BadgesOf(item: Node): seq<Badge> {
    FirstSome([item.authorBadges, item.authorBadgesCamel]).GetOr([])
  }

  /** What every message `parseActions` emits satisfies: one of the three
      message kinds, an author without a leading '@', and the member flag set
      whenever a membership badge image is attached. */
  predicate WellFormed(m: Message) {
    && m.rawType in MessageKinds
    && (|m.author| > 0 ==> m.author[0] != '@')
    && (|m.memberBadges| > 0 ==> m.isMember)
  }

  /** The message of one action, if it is a chat action. */
  function ParseAction(act: Node): (m: Option<Message>)
    ensures m.Some? <==> IsChatAction(act)
    ensures m.Some? ==> WellFormed(m.value)
  {
    if !IsChatAction(act) then None
    else
      var item := ItemOf(act);
      var badges := BadgesOf(item);
      MemberBadgesImplyMember(badges);
      Some(Message(
        author := Author(item),
        html := RunsHtml.TextToHtml(MessageText(item)),
        isMod := AnyBadge(badges, "moderator"),
        isOwner := AnyBadge(badges, "owner"),
        isMember := AnyBadge(badges, "member"),
        memberBadges := MemberBadges(badges),
        rawType := ItemType(item)))
  }

  /** `item?.message ?? item?.header_primary_text ?? item?.headerPrimaryText`. */
  function MessageText(item: Node): Option<RunsHtml.TextValue> {
    FirstSome([item.message, item.headerPrimaryText, item.headerPrimaryTextCamel])
  }

  /** A chat message whose text has no image runs carries no markup, and
      decoding its entities gives back the text of the item, so the overlay
      shows what the chat showed. */
  lemma ParseActionText(act: Node)
    requires IsChatAction(act)
    requires
      var t := MessageText(ItemOf(act));
      t.Some? && RunsHtml.TextRuns(t.value).Some? ==>
        forall i :: 0 <= i < |RunsHtml.TextRuns(t.value).value| ==> !RunsHtml.IsImageRun(RunsHtml.TextRuns(t.value).value[i])
    ensures NoMarkup(ParseAction(act).value.html)
    ensures Unescape(ParseAction(act).value.html) == RunsHtml.ShownText(MessageText(ItemOf(act)))
  {
    RunsHtml.TextWithoutImages(MessageText(ItemOf(act)));
  }

  /** `parseActions(actions)`. */
  function ParseActions(actions: seq<Node>): (out: seq<Message>)
    ensures |out| <= |actions|
    ensures forall i :: 0 <= i < |out| ==> WellFormed(out[i])
  {
    if |actions| == 0 then []
    else
      var rest := ParseActions(actions[1..]);
      match ParseAction(actions[0])
      case None => rest
      case Some(m) => [m] + rest
  }

  /** Parsing works action by action: the messages of a list are those of its
      parts, in the same order. */
  lemma {:induction false} ParseActionsAppend(a: seq<Node>, b: seq<Node>)
    ensures ParseActions(a + b) == ParseActions(a) + ParseActions(b)
  {
    if |a| == 0 {
      assert a + b == b;
    } else {
      assert (a + b)[1..] == a[1..] + b;
      ParseActionsAppend(a[1..], b);
    }
  }

  /** A single action gives its message when it is a chat action, and nothing
      otherwise. */
  lemma ParseActionsOne(act: Node)
    ensures IsChatAction(act) ==> ParseActions([act]) == [ParseAction(act).value]
    ensures !IsChatAction(act) ==> ParseActions([act]) == []
  {
    assert [act][1..] == [];
  }

  /** What the chat library emits with an event. */
  datatype Payload =
    /** a missing or falsy event */
    | Absent
    /** an array or other iterable */
    | Iterable(elems: seq<Node>)
    /** an object: its `actions` when they are an array or iterable, its
        `action` when truthy, and the object itself read as an action */
    | Event(actions: Option<seq<Node>>, action: Option<Node>, self: Node)

  /** `normalizeActions(evt)`. */
  function NormalizeActions(evt: Payload): (acts: seq<Node>)
    ensures evt.Iterable? ==> acts == evt.elems
    ensures evt.Event? && evt.actions.Some? ==> acts == evt.actions.value
    ensures evt.Event? && evt.actions.None? && evt.action.Some? ==> acts == [evt.action.value]
    ensures evt.Event? && evt.actions.None? && evt.action.None? ==>
      (evt.self.typ != "" || evt.self.item.Some? || evt.self.itemType != "") ==> acts == [evt.self]
    ensures acts == [] <==>
      || evt.Absent?
      || (evt.Iterable? && evt.elems == [])
      || (evt.Event? && evt.actions == Some([]))
      || (evt.Event? && evt.actions.None? && evt.action.None?
          && evt.self.typ == "" && evt.self.item.None? && evt.self.itemType == "")
  {
    match evt
    case Absent => []
    case Iterable(elems) => elems
    case Event(actions, action, self) =>
      if actions.Some? then actions.value
      else if action.Some? then [action.value]
      else if self.typ != "" || self.item.Some? || self.itemType != "" then [self]
      else []
  }

  /** The `handle` callback: the messages an event yields, in order. */
  function HandleEvent(evt: Payload): (msgs: seq<Message>)
    ensures |msgs| <= |NormalizeActions(evt)|
    ensures evt.Absent? ==> msgs == []
  {
    ParseActions(NormalizeActions(evt))
  }
}
