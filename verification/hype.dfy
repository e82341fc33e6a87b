/** The chat-speed meter of public/overlay.js: arrival times over a sliding
    60-second window (`recordMessages`), and the hype image shown when more than
    500 messages arrived in that window, at most once per 30 minutes
    (`triggerHype`). Clock readings are parameters; the hide timer is an
    explicit `HideTick` step. */
module Hype {
  import opened Wrappers

  const HypeThreshold: int := 500
  const HypeDurationMs: int := 8000
  const HypeCooldownMs: int := 30 * 60 * 1000
  const SpeedWindowMs: int := 60000

  datatype HypeState = HypeState(
    /** `arrivalTimes` */
    arrivals: seq<int>,
    /** `hypeVisible` */
    visible: bool,
    lastHypeAt: int,
    /** `hypeReady`: the image has loaded */
    ready: bool,
    /** when the pending `hypeTimer` fires, if one is pending */
    hideAt: Option<int>)

  /** The state when the page loads, given whether the image loaded. */
  function Initial(ready: bool): (s: HypeState)
    ensures s.arrivals == [] && !s.visible && s.hideAt.None?
    ensures s.ready == ready
    ensures Inv(s)
  {
    HypeState([], false, 0, ready, None)
  }

  /** The image is visible exactly while its hide timer is pending. */
  predicate Inv(s: HypeState) {
    s.visible <==> s.hideAt.Some?
  }

  predicate Sorted(s: seq<int>) {
    forall i, j :: 0 <= i < j < |s| ==> s[i] <= s[j]
  }

  /** The entries of `s` not older than `cutoff`, in order. */
  function NotOlder(s: seq<int>, cutoff: int): (r: seq<int>)
    ensures |r| <= |s|
    ensures forall i :: 0 <= i < |r| ==> r[i] >= cutoff
  {
    if |s| == 0 then []
    else (if s[0] >= cutoff then [s[0]] else []) + NotOlder(s[1..], cutoff)
  }

  lemma {:induction false} NotOlderOfNewer(s: seq<int>, cutoff: int)
    requires forall i :: 0 <= i < |s| ==> s[i] >= cutoff
    ensures NotOlder(s, cutoff) == s
  {
    if |s| > 0 {
      NotOlderOfNewer(s[1..], cutoff);
      assert [s[0]] + s[1..] == s;
    }
  }

  /** `while (arrivalTimes.length && arrivalTimes[0] < cutoff) arrivalTimes.shift()`:
      the leading entries older than the cutoff go, and what is left is a
      suffix whose first entry is not older than the cutoff. */
  function DropLeading(arrivals: seq<int>, cutoff: int): (kept: seq<int>)
    ensures |kept| <= |arrivals| && kept == arrivals[|arrivals| - |kept|..]
    ensures forall i :: 0 <= i < |arrivals| - |kept| ==> arrivals[i] < cutoff
    ensures |kept| > 0 ==> kept[0] >= cutoff
  {
    if |arrivals| > 0 && arrivals[0] < cutoff then DropLeading(arrivals[1..], cutoff) else arrivals
  }

  /** On a sorted list, dropping the leading old entries drops every old entry. */
  lemma DropLeadingSorted(arrivals: seq<int>, cutoff: int)
    requires Sorted(arrivals)
    ensures DropLeading(arrivals, cutoff) == NotOlder(arrivals, cutoff)
  {
    var kept := DropLeading(arrivals, cutoff);
    var k := |arrivals| - |kept|;
    NotOlderOfOlder(arrivals, cutoff, k);
    assert arrivals[k..] == kept;
    forall i | 0 <= i < |kept|
      ensures kept[i] >= cutoff
    {
      assert kept[i] == arrivals[k + i] && kept[0] == arrivals[k];
    }
    NotOlderOfNewer(kept, cutoff);
  }

  lemma DropLeadingWhenSorted(arrivals: seq<int>, cutoff: int)
    ensures Sorted(arrivals) ==> DropLeading(arrivals, cutoff) == NotOlder(arrivals, cutoff)
  {
    if Sorted(arrivals) {
      DropLeadingSorted(arrivals, cutoff);
    }
  }

  /** Entries before position `k`, all older than the cutoff, do not count. */
  lemma {:induction false} NotOlderOfOlder(s: seq<int>, cutoff: int, k: nat)
    requires k <= |s| && forall i :: 0 <= i < k ==> s[i] < cutoff
    ensures NotOlder(s, cutoff) == NotOlder(s[k..], cutoff)
  {
    if k > 0 {
      assert s[1..][k - 1..] == s[k..];
      NotOlderOfOlder(s[1..], cutoff, k - 1);
      assert [] + NotOlder(s[1..], cutoff) == NotOlder(s[1..], cutoff);
    }
  }

  /** Leading entries all older than the cutoff, followed by a newer one or by
      nothing, are exactly what `DropLeading` removes. */
  lemma {:induction false} DropLeadingAt(s: seq<int>, cutoff: int, k: nat)
    requires k <= |s| && forall i :: 0 <= i < k ==> s[i] < cutoff
    requires k == |s| || s[k] >= cutoff
    ensures DropLeading(s, cutoff) == s[k..]
  {
    if k > 0 {
      assert s[1..][k - 1..] == s[k..];
      DropLeadingAt(s[1..], cutoff, k - 1);
    }
  }

  /** The shift loop itself, which computes `DropLeading`. */
  method DropOld(arrivals: seq<int>, cutoff: int) returns (kept: seq<int>)
    ensures kept == DropLeading(arrivals, cutoff)
    ensures Sorted(arrivals) ==> kept == NotOlder(arrivals, cutoff)
  {
    var k := 0;
    while k < |arrivals| && arrivals[k] < cutoff
      invariant 0 <= k <= |arrivals|
      invariant forall i :: 0 <= i < k ==> arrivals[i] < cutoff
    {
      k := k + 1;
    }
    DropLeadingAt(arrivals, cutoff, k);
    kept := arrivals[k..];
    DropLeadingWhenSorted(arrivals, cutoff);
  }

  /** `triggerHype(now)`: within the cooldown, or before the image has loaded,
      nothing changes. Otherwise the hype time becomes `now`, and the image is
      shown with a fresh hide timer only if it was hidden. */
  function TriggerHype(s: HypeState, now: int): (s': HypeState)
    ensures now - s.lastHypeAt < HypeCooldownMs || !s.ready ==> s' == s
    ensures !(now - s.lastHypeAt < HypeCooldownMs || !s.ready) ==>
      && s'.lastHypeAt == now && s'.visible
      && s'.arrivals == s.arrivals && s'.ready == s.ready
    ensures !(now - s.lastHypeAt < HypeCooldownMs || !s.ready) && s.visible ==> s' == s.(lastHypeAt := now)
    ensures !(now - s.lastHypeAt < HypeCooldownMs || !s.ready) && !s.visible ==> s'.hideAt == Some(now + HypeDurationMs)
    ensures Inv(s) ==> Inv(s')
  {
    if now - s.lastHypeAt < HypeCooldownMs then s
    else if !s.ready then s
    else if s.visible then s.(lastHypeAt := now)
    else s.(lastHypeAt := now, visible := true, hideAt := Some(now + HypeDurationMs))
  }

  /** The `hypeTimer` callback, at clock reading `now`. */
  function HideTick(s: HypeState, now: int): (s': HypeState)
    ensures s.hideAt.Some? && now >= s.hideAt.value ==> !s'.visible && s'.hideAt.None?
    ensures !(s.hideAt.Some? && now >= s.hideAt.value) ==> s' == s
    ensures s'.lastHypeAt == s.lastHypeAt && s'.arrivals == s.arrivals
    ensures Inv(s) ==> Inv(s')
  {
    if s.hideAt.Some? && now >= s.hideAt.value then s.(visible := false, hideAt := None) else s
  }

  function Repeat(x: int, n: nat): (r: seq<int>)
    ensures |r| == n && forall i :: 0 <= i < n ==> r[i] == x
  {
    if n == 0 then [] else [x] + Repeat(x, n - 1)
  }

  /** Adding arrivals at `now` to a sorted window of earlier arrivals keeps it sorted. */
  lemma AppendNowSorted(arrivals: seq<int>, count: nat, now: int)
    requires Sorted(arrivals) && forall i :: 0 <= i < |arrivals| ==> arrivals[i] <= now
    ensures Sorted(arrivals + Repeat(now, count))
    ensures forall i :: 0 <= i < |arrivals + Repeat(now, count)| ==> (arrivals + Repeat(now, count))[i] <= now
  {
  }

  /** A suffix of a sorted list bounded above by `hi` whose entries are at
      least `lo` is sorted and lies between the two. */
  lemma SuffixInWindow(all: seq<int>, kept: seq<int>, lo: int, hi: int)
    requires Sorted(all) && forall i :: 0 <= i < |all| ==> all[i] <= hi
    requires |kept| <= |all| && kept == all[|all| - |kept|..]
    requires forall i :: 0 <= i < |kept| ==> kept[i] >= lo
    ensures Sorted(kept)
    ensures forall i :: 0 <= i < |kept| ==> lo <= kept[i] <= hi
  {
    assert forall i :: 0 <= i < |kept| ==> kept[i] == all[|all| - |kept| + i];
  }

  /** With a clock that never goes back, the window after an update is sorted
      and holds exactly the arrivals of the last 60 seconds. */
  lemma WindowAfterUpdate(arrivals: seq<int>, count: nat, now: int)
    requires Sorted(arrivals) && forall i :: 0 <= i < |arrivals| ==> arrivals[i] <= now
    ensures
      var all := arrivals + Repeat(now, count);
      var kept := DropLeading(all, now - SpeedWindowMs);
      && Sorted(kept)
      && kept == NotOlder(all, now - SpeedWindowMs)
      && forall i :: 0 <= i < |kept| ==> now - SpeedWindowMs <= kept[i] <= now
  {
    var all := arrivals + Repeat(now, count);
    AppendNowSorted(arrivals, count, now);
    SuffixInWindow(all, DropLeading(all, now - SpeedWindowMs), now - SpeedWindowMs, now);
    DropLeadingSorted(all, now - SpeedWindowMs);
  }

  /** `recordMessages(count)` at clock reading `now`: `count` arrivals at `now`,
      the window moved to the last 60 seconds, and hype attempted when more
      than 500 arrivals remain. With a clock that never goes back, the window
      stays sorted and holds exactly the arrivals of the last 60 seconds. */
  function RecordMessages(s: HypeState, count: nat, now: int): (s': HypeState)
    ensures
      var all := s.arrivals + Repeat(now, count);
      |s'.arrivals| <= |all| && s'.arrivals == all[|all| - |s'.arrivals|..]
    ensures |s'.arrivals| > 0 ==> s'.arrivals[0] >= now - SpeedWindowMs
    ensures |s'.arrivals| > HypeThreshold ==> s' == TriggerHype(s.(arrivals := s'.arrivals), now)
    ensures |s'.arrivals| <= HypeThreshold ==> s' == s.(arrivals := s'.arrivals)
    ensures Sorted(s.arrivals) && (forall i :: 0 <= i < |s.arrivals| ==> s.arrivals[i] <= now) ==>
      && Sorted(s'.arrivals)
      && s'.arrivals == NotOlder(s.arrivals + Repeat(now, count), now - SpeedWindowMs)
      && forall i :: 0 <= i < |s'.arrivals| ==> now - SpeedWindowMs <= s'.arrivals[i] <= now
    ensures Inv(s) ==> Inv(s')
  {
    var kept := DropLeading(s.arrivals + Repeat(now, count), now - SpeedWindowMs);
    if Sorted(s.arrivals) && (forall i :: 0 <= i < |s.arrivals| ==> s.arrivals[i] <= now) then
      WindowAfterUpdate(s.arrivals, count, now);
      Meter(s, kept, now)
    else
      Meter(s, kept, now)
  }

  /** The meter with its window replaced by `kept`, after the hype check. */
  function Meter(s: HypeState, kept: seq<int>, now: int): (s': HypeState)
    ensures s'.arrivals == kept
    ensures Inv(s) ==> Inv(s')
  {
    if |kept| > HypeThreshold then TriggerHype(s.(arrivals := kept), now) else s.(arrivals := kept)
  }

  /** Two appearances of the image are at least 30 minutes apart: after it was
      shown at `t1`, hiding it again and triggering it at `t2` shows it only if
      `t2` is 30 minutes later. */
  lemma ShowsSpaced(s: HypeState, t1: int, tHide: int, t2: int)
    requires !s.visible && TriggerHype(s, t1).visible
    ensures
      var s2 := TriggerHype(HideTick(TriggerHype(s, t1), tHide), t2);
      s2.visible && !HideTick(TriggerHype(s, t1), tHide).visible ==> t2 - t1 >= HypeCooldownMs
  {
  }
}
