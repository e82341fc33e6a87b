/** The first strategy of `resolveLiveInfo` in server.js: among a channel's
    videos, keep those flagged live and pick the one with the most viewers, as
    `liveViewerCount` estimates them. The `getChannel`/`getInfo` calls around it
    belong to the youtubei.js library and are not modelled. */
module LiveSelect {
  import opened Wrappers
  import CompactNumber

  /** One entry of a channel's video list, reduced to the fields read here. */
  datatype LiveItem = LiveItem(
    isLive: bool,
    /** `id`, "" when absent */
    id: string,
    /** `video_id`, "" when absent */
    videoId: string,
    /** `viewers`, `viewer_count`, `view_count`: `Some(n)` when the field is a finite number */
    numbers: seq<Option<int>>,
    /** the text forms of the non-null fields `view_count_text`,
        `short_view_count_text`, `view_count_short_text`, `watching_count_text`,
        `inline_badge.text` and `menu.label`, in that order */
    texts: seq<string>,
    /** the text form of the whole item */
    whole: string)

  /** What `parseCompactNumber` makes of each text, in order. */
  function Parsed(texts: seq<string>): (ns: seq<int>)
    ensures |ns| == |texts|
    ensures forall i :: 0 <= i < |texts| ==> ns[i] == CompactNumber.ParseCompactNumber(Some(texts[i]))
  {
    seq(|texts|, i requires 0 <= i < |texts| => CompactNumber.ParseCompactNumber(Some(texts[i])))
  }

  /** `ns[i]` is a count and no earlier entry is. */
  predicate FirstCountAt(ns: seq<int>, i: int) {
    && 0 <= i < |ns|
    && ns[i] >= 0
    && forall j :: 0 <= j < i ==> ns[j] < 0
  }

  /** The first entry that is a count, as the `for ... if (n >= 0) return n`
      loop finds it. */
  function FirstCount(ns: seq<int>): (r: Option<int>)
    ensures r.Some? ==> r.value >= 0
    ensures forall i :: FirstCountAt(ns, i) ==> r == Some(ns[i])
    ensures r.None? <==> forall i :: 0 <= i < |ns| ==> ns[i] < 0
  {
    if |ns| == 0 then None
    else if ns[0] >= 0 then Some(ns[0])
    else
      var r := FirstCount(ns[1..]);
      assert forall i :: 1 <= i < |ns| ==> ns[i] == ns[1..][i - 1];
      assert forall i :: FirstCountAt(ns, i) ==> FirstCountAt(ns[1..], i - 1);
      r
  }

  /** The first text that parses to a count, if any. */
  function FirstParsed(texts: seq<string>): Option<int> {
    FirstCount(Parsed(texts))
  }

  /** `liveViewerCount(v)`. */
  function ViewerCount(v: LiveItem): (c: int)
    ensures FirstSome(v.numbers).None? ==> c >= -1
    ensures FirstSome(v.numbers).None? && FirstParsed(v.texts).Some? ==> c >= 0
  {
    match FirstSome(v.numbers)
    case Some(x) => x
    case None =>
      match FirstParsed(v.texts)
      case Some(x) => x
      case None =>
        var rough := CompactNumber.ParseCompactNumber(Some(v.whole));
        if rough >= 0 then rough else -1
  }

  /** A numeric field wins over every text: the first finite one is the count.
      Without one the count is the first text that reads as a count; failing
      that, whatever the whole item's text yields, which is -1 when nothing
      reads as a count. */
  lemma ViewerCountSources(v: LiveItem)
    ensures forall i :: 0 <= i < |v.numbers| && v.numbers[i].Some? && (forall j :: 0 <= j < i ==> v.numbers[j].None?) ==>
      ViewerCount(v) == v.numbers[i].value
    ensures (forall i :: 0 <= i < |v.numbers| ==> v.numbers[i].None?) ==>
      forall i :: FirstCountAt(Parsed(v.texts), i) ==> ViewerCount(v) == Parsed(v.texts)[i]
    ensures
      && (forall i :: 0 <= i < |v.numbers| ==> v.numbers[i].None?)
      && (forall i :: 0 <= i < |v.texts| ==> Parsed(v.texts)[i] == -1)
      ==> ViewerCount(v) == CompactNumber.ParseCompactNumber(Some(v.whole))
  {
    forall i | 0 <= i < |v.numbers| && v.numbers[i].Some? && (forall j :: 0 <= j < i ==> v.numbers[j].None?)
      ensures FirstSome(v.numbers) == v.numbers[i]
    {
      FirstSomeAt(v.numbers, i);
    }
  }

  /** The first present value sits at the first index holding one. */
  lemma FirstSomeAt<T>(xs: seq<Option<T>>, i: nat)
    requires i < |xs| && xs[i].Some? && forall j :: 0 <= j < i ==> xs[j].None?
    ensures FirstSome(xs) == xs[i]
  {
    var k :| 0 <= k < |xs| && xs[k] == FirstSome(xs) && forall j :: 0 <= j < k ==> xs[j].None?;
  }

  /** `list.filter((v) => v?.is_live)`. */
  function Lives(items: seq<LiveItem>): (lives: seq<LiveItem>)
    ensures |lives| <= |items|
    ensures forall i :: 0 <= i < |lives| ==> lives[i].isLive && lives[i] in items
    ensures forall i :: 0 <= i < |items| && items[i].isLive ==> items[i] in lives
    ensures (forall i :: 0 <= i < |items| ==> items[i].isLive) ==> lives == items
  {
    if |items| == 0 then []
    else if items[0].isLive then [items[0]] + Lives(items[1..])
    else Lives(items[1..])
  }

  /** The filter works on each part of a concatenation separately, so the live
      items keep their order, which decides ties in `ChooseLiveVideo`. */
  lemma {:induction false} LivesAppend(a: seq<LiveItem>, b: seq<LiveItem>)
    ensures Lives(a + b) == Lives(a) + Lives(b)
  {
    if |a| == 0 {
      assert a + b == b;
    } else {
      assert (a + b)[0] == a[0] && (a + b)[1..] == a[1..] + b;
      LivesAppend(a[1..], b);
    }
  }

  /** A single item is kept exactly when it is flagged live; with `LivesAppend`
      this fixes the result. */
  lemma LivesOne(v: LiveItem)
    ensures Lives([v]) == if v.isLive then [v] else []
  {
    assert [v][1..] == [];
  }

  /** The viewer counts of the items, in order. */
  function Counts(lives: seq<LiveItem>): (cs: seq<int>)
    ensures |cs| == |lives|
    ensures forall i :: 0 <= i < |lives| ==> cs[i] == ViewerCount(lives[i])
  {
    seq(|lives|, i requires 0 <= i < |lives| => ViewerCount(lives[i]))
  }

  /** Position `k` holds a count no other exceeds, and every earlier count is
      strictly smaller: the item a left-to-right reduce with a strict `>`
      keeps. */
  predicate IsMostViewed(counts: seq<int>, k: nat) {
    && k < |counts|
    && (forall j :: 0 <= j < |counts| ==> counts[j] <= counts[k])
    && (forall j :: 0 <= j < k ==> counts[j] < counts[k])
  }

  /** At most one position is the most viewed, so the reduce's result is fixed
      by the counts alone. */
  lemma MostViewedUnique(counts: seq<int>, k1: nat, k2: nat)
    requires IsMostViewed(counts, k1) && IsMostViewed(counts, k2)
    ensures k1 == k2
  {
    assert counts[k1] <= counts[k2] && counts[k2] <= counts[k1];
    if k1 != k2 {
      assert false;
    }
  }

  /** `lives.reduce((acc, v) => (liveViewerCount(v) > liveViewerCount(acc) ? v : acc))`
      over the items' counts, reporting the position of the item kept. */
  method PickMostViewed(counts: seq<int>) returns (best: nat)
    requires |counts| > 0
    ensures IsMostViewed(counts, best)
  {
    best := 0;
    var i := 1;
    while i < |counts|
      invariant 1 <= i <= |counts|
      invariant best < i
      invariant forall j :: 0 <= j < i ==> counts[j] <= counts[best]
      invariant forall j :: 0 <= j < best ==> counts[j] < counts[best]
    {
      if counts[i] > counts[best] {
        best := i;
      }
      i := i + 1;
    }
  }

  /** `best?.id || best?.video_id`: the `id` when it is not empty, else the
      `video_id`, and nothing when both are empty. */
  function VideoIdOf(v: LiveItem): (vid: Option<string>)
    ensures v.id != "" ==> vid == Some(v.id)
    ensures v.id == "" && v.videoId != "" ==> vid == Some(v.videoId)
    ensures v.id == "" && v.videoId == "" ==> vid.None?
  {
    if v.id != "" then Some(v.id)
    else if v.videoId != "" then Some(v.videoId)
    else None
  }

  /** The video id `best?.id || best?.video_id` of the chosen live item, or
      `None` when the channel lists nothing live or the item carries no id. */
  method ChooseLiveVideo(items: seq<LiveItem>) returns (vid: Option<string>)
    ensures |Lives(items)| > 0 ==>
      exists k: nat :: IsMostViewed(Counts(Lives(items)), k) && vid == VideoIdOf(Lives(items)[k])
    ensures |Lives(items)| == 0 ==> vid.None?
    ensures (forall i :: 0 <= i < |items| ==> !items[i].isLive) ==> vid.None?
    ensures
      && (exists i :: 0 <= i < |items| && items[i].isLive)
      && (forall i :: 0 <= i < |items| && items[i].isLive ==> items[i].id != "")
      ==> vid.Some?
  {
    var lives := Lives(items);
    if |lives| == 0 {
      return None;
    }
    var k := PickMostViewed(Counts(lives));
    vid := VideoIdOf(lives[k]);
  }
}
