/** The watchdogs that run beside the alarm rules: a sensor that stopped reporting, a 1-Wire slot that
    holds the wrong device, a low battery. Each latch queues edges that alternate and pair up. */
module AlarmWatchdogs {
  import opened Bytes
  import opened AlarmRuleLatch

  const SLOTS: nat := 5                // motherboard, then four 1-Wire slots
  const W1_SLOTS: nat := 4
  const MB_LATCHES: nat := 6
  const W1_LATCHES: nat := 6           // the device and five parts
  const NO_DATA_MS: nat := 5000
  const DEVICE_CHANNEL: nat := 0xFF
  const BATTERY_HYSTERESIS: real := 0.3
  const NO_TYPE: nat := 0

  /** What the watchdogs know of a sensor type: the channels that must report, and per part (chip) its
      channels; retired channels are not listed. */
  datatype SensorType = SensorType(liveness: seq<nat>, parts: seq<seq<nat>>)

  datatype NoDataLatch = NoDataLatch(nanSince: nat, nan: bool, active: bool, seen: bool, channel: nat)

  function NoDataEvent(slot: nat, channel: nat, sensorType: nat, act: bool): Event {
    Event(WATCHDOG_RULE, slot, channel, sensorType, act, NoData)
  }

  function MismatchEvent(s: nat, expected: nat, act: bool): Event {
    Event(WATCHDOG_RULE, s + 1, 0, expected, act, Mismatch)
  }

  /** A latch and its edges: in turn, active iff the last is an activate, which `off` would end. */
  ghost predicate Tracks(active: bool, h: seq<Event>, off: Event) {
    Alternating(h, 0) && (active <==> Open(h, 0)) && (active ==> Ends(h, off))
  }

  lemma TrackEdge(active: bool, h: seq<Event>, e: Event, off: Event)
    requires Tracks(active, h, e) && e.active != active && SameAlarm(e, off)
    ensures Tracks(e.active, h + [e], off)
  {
    hide Alternating, Open;
    PushEvent(h, 0, e);
  }

  /** `nodata_step` on a latch: missing input arms the timer, `NO_DATA_MS` of it raise the alarm; the
      clock is the 32-bit uptime. */
  function Missing(l: NoDataLatch, now: nat): NoDataLatch {
    var since := if l.nan then l.nanSince else now;
    l.(nan := true, nanSince := since, active := l.active || Age(since, now) >= NO_DATA_MS)
  }

  /** Time since `since`, of the 32-bit uptime. */
  function Age(since: nat, now: nat): nat { (now + TWO_32 - since % TWO_32) % TWO_32 }

  lemma AgeIs(since: nat, now: nat)
    requires since <= now < since + TWO_32
    ensures Age(since, now) == now - since
  {
    var q, r := since / TWO_32, since % TWO_32;
    assert now + TWO_32 - r == (now - since) + (q + 1) * TWO_32;
  }

  function Reporting(l: NoDataLatch): NoDataLatch { l.(nan := false, active := false) }

  ghost predicate LatchTracks(slot: nat, typ: nat, l: NoDataLatch, h: seq<Event>) {
    Tracks(l.active, h, NoDataEvent(slot, l.channel, typ, false))
  }

  function Dropped(l: NoDataLatch): NoDataLatch { l.(nan := false, active := false, seen := false) }

  /** `nodata_step`. */
  function Stepped(l: NoDataLatch, ok: bool, now: nat): NoDataLatch { if ok then Reporting(l) else Missing(l, now) }

  /** One part of a 1-Wire device: fitted once any of its channels reported, healthy while all do; held
      while the whole device is silent. */
  function PartOf(l: NoDataLatch, part: seq<nat>, reported: set<nat>, now: nat): NoDataLatch {
    var fitted := Fitted(l, part, reported);
    if reported != {} && fitted.seen then Stepped(fitted, forall c :: c in part ==> c in reported, now) else fitted
  }

  /** The latch of a part before its age is looked at. */
  function Fitted(l: NoDataLatch, part: seq<nat>, reported: set<nat>): NoDataLatch {
    var named := if part != [] then l.(channel := part[0]) else l;
    if reported == {} then named.(nan := false) else named.(seen := named.seen || exists c :: c in part && c in reported)
  }

  /** What a poll makes of latch `k` of a slot whose sensor is of type `t`. */
  function Watched(slot: nat, t: SensorType, k: nat, l: NoDataLatch, enabled: set<nat>, reported: set<nat>, now: nat): NoDataLatch {
    if slot == 0 then
      if k >= |t.liveness| then l
      else
        var named := l.(channel := t.liveness[k]);
        if t.liveness[k] !in enabled then Dropped(named) else Stepped(named, t.liveness[k] in reported, now)
    else if k == 0 then Stepped(l.(channel := DEVICE_CHANNEL), reported != {}, now)
    else if k - 1 < |t.parts| then PartOf(l, t.parts[k - 1], reported, now)
    else l
  }

  /** The latches of a slot before any of the new type is looked at. */
  function Armed(typ: nat, newType: nat, ls: seq<NoDataLatch>): (r: seq<NoDataLatch>)
    ensures |r| == |ls|
  {
    if newType == typ then ls else seq(|ls|, k requires 0 <= k < |ls| => Dropped(ls[k]))
  }

  /** The edge of a latch that changed. */
  function Change(slot: nat, typ: nat, was: NoDataLatch, l: NoDataLatch): seq<Event> {
    if l.active != was.active then [NoDataEvent(slot, l.channel, typ, l.active)] else []
  }

  function Changes(slot: nat, typ: nat, was: seq<NoDataLatch>, ls: seq<NoDataLatch>): seq<Event>
    requires |was| == |ls|
  {
    if ls == [] then []
    else Changes(slot, typ, was[..|ls| - 1], ls[..|ls| - 1]) + Change(slot, typ, was[|ls| - 1], ls[|ls| - 1])
  }

  /** Of which latch each of these edges is. */
  function Changers(was: seq<NoDataLatch>, ls: seq<NoDataLatch>): seq<nat>
    requires |was| == |ls|
  {
    if ls == [] then []
    else Changers(was[..|ls| - 1], ls[..|ls| - 1]) + if ls[|ls| - 1].active != was[|ls| - 1].active then [|ls| - 1] else []
  }

  lemma ChangesNext(slot: nat, typ: nat, was: seq<NoDataLatch>, ls: seq<NoDataLatch>, k: nat)
    requires k < |was| && k < |ls|
    ensures Changes(slot, typ, was[..k + 1], ls[..k + 1]) == Changes(slot, typ, was[..k], ls[..k]) + Change(slot, typ, was[k], ls[k])
    ensures Changers(was[..k + 1], ls[..k + 1]) == Changers(was[..k], ls[..k]) + Changer(was[k], ls[k], k)
  {
    assert was[..k + 1][..k] == was[..k] && ls[..k + 1][..k] == ls[..k];
  }

  function Changer(was: NoDataLatch, l: NoDataLatch, k: nat): seq<nat> { if l.active != was.active then [k] else [] }

  lemma {:induction false} ChangesNone(slot: nat, typ: nat, was: seq<NoDataLatch>, ls: seq<NoDataLatch>, k: nat)
    requires k <= |was| == |ls| && forall j :: k <= j < |ls| ==> ls[j] == was[j]
    ensures Changes(slot, typ, was, ls) == Changes(slot, typ, was[..k], ls[..k])
    ensures Changers(was, ls) == Changers(was[..k], ls[..k])
    decreases |ls|
  {
    if k < |ls| {
      var n := |ls| - 1;
      ChangesNone(slot, typ, was[..n], ls[..n], k);
      assert was[..n][..k] == was[..k] && ls[..n][..k] == ls[..k];
    } else {
      assert was[..k] == was && ls[..k] == ls;
    }
  }

  /** A no-data alarm is only ever of a channel that is switched on and does not report; while a device
      is silent its own alarm stands for its parts, which are held. */
  lemma WatchedRight(slot: nat, t: SensorType, k: nat, l: NoDataLatch, enabled: set<nat>, reported: set<nat>, now: nat)
    ensures var l' := Watched(slot, t, k, l, enabled, reported, now);
      && (slot == 0 && k < |t.liveness| && l'.active ==> t.liveness[k] in enabled && t.liveness[k] !in reported)
      && (slot > 0 && k == 0 && l'.active ==> reported == {})
      && (slot > 0 && k > 0 && reported == {} ==> l'.active == l.active && l'.seen == l.seen)
      && (slot > 0 && 0 < k <= |t.parts| && reported != {} && l'.active && (l.active ==> l.seen) ==>
            l'.seen && exists c :: c in t.parts[k - 1] && c !in reported)
  {
  }

  /** The alarm rises no sooner than `NO_DATA_MS` after the first poll that found its input missing. */
  lemma WatchedLate(slot: nat, t: SensorType, k: nat, l: NoDataLatch, enabled: set<nat>, reported: set<nat>, now: nat)
    requires !l.active && (l.nan ==> l.nanSince <= now < l.nanSince + TWO_32)
    ensures var l' := Watched(slot, t, k, l, enabled, reported, now);
      l'.active ==> l.nan && l'.nan && l'.nanSince == l.nanSince && now - l.nanSince >= NO_DATA_MS
  {
    hide Age;
    AgeIs(now, now);
    if l.nan {
      AgeIs(l.nanSince, now);
    }
  }

  /** Edges of latch `k`, when edge `j` is of latch `os[j]`. */
  function Pick(es: seq<Event>, os: seq<nat>, k: nat): seq<Event>
    requires |es| == |os|
  {
    if es == [] then []
    else Pick(es[..|es| - 1], os[..|es| - 1], k) + if os[|es| - 1] == k then [es[|es| - 1]] else []
  }

  lemma PickMore(es: seq<Event>, os: seq<nat>, out: seq<Event>, o: nat, k: nat)
    requires |es| == |os| && |out| <= 1
    ensures Pick(es + out, os + seq(|out|, _ => o), k) == Pick(es, os, k) + if o == k then out else []
  {
    if out == [] {
      assert es + out == es && os + seq(0, _ => o) == os;
    } else {
      var os' := os + seq(|out|, _ => o);
      assert (es + out)[..|es|] == es && os'[..|os|] == os && os'[|os|] == o && out == [out[0]];
    }
  }

  class NoDataSlot {
    const slot: nat
    var typ: nat                       // type the latches were armed for
    var latches: seq<NoDataLatch>
    ghost var histories: seq<seq<Event>>
    ghost var emitted: seq<Event>      // all edges of the slot in order, and of which latch each is
    ghost var owners: seq<nat>

    constructor (s: nat, n: nat)
      ensures Valid() && slot == s && |latches| == n && emitted == [] && forall k :: 0 <= k < n ==> !latches[k].active
    {
      slot, typ := s, NO_TYPE;
      latches := seq(n, _ => NoDataLatch(0, false, false, false, 0));
      histories := seq(n, _ => []);
      emitted, owners := [], [];
    }

    ghost predicate Valid()
      reads this
    {
      && |histories| == |latches| && (forall k :: 0 <= k < |latches| ==> LatchTracks(slot, typ, latches[k], histories[k]))
      && |emitted| == |owners| && (forall k :: 0 <= k < |latches| ==> histories[k] == Pick(emitted, owners, k))
    }

    predicate AnyActive()
      reads this
    {
      exists k :: 0 <= k < |latches| && latches[k].active
    }

    /** The latch at `k` becomes `l`; a change of `active` queues its edge. */
    method Put(k: nat, l: NoDataLatch) returns (out: seq<Event>)
      requires Valid() && k < |latches| && (latches[k].active ==> l.channel == latches[k].channel)
      modifies `latches, `histories, `emitted, `owners
      ensures Valid() && latches == old(latches)[k := l]
      ensures out == Change(slot, typ, old(latches)[k], l) && emitted == old(emitted) + out
      ensures owners == old(owners) + Changer(old(latches)[k], l, k)
    {
      hide Tracks, Pick;
      out := [];
      assert LatchTracks(slot, typ, latches[k], histories[k]);
      assert histories[k] + [] == histories[k];
      if l.active != latches[k].active {
        out := [NoDataEvent(slot, l.channel, typ, l.active)];
        ChannelFree(histories[k], latches[k], l, slot, typ);
        TrackEdge(latches[k].active, histories[k], out[0], NoDataEvent(slot, l.channel, typ, false));
      } else {
        ChannelFree(histories[k], latches[k], l, slot, typ);
      }
      forall j | 0 <= j < |latches|
        ensures Pick(emitted + out, owners + seq(|out|, _ => k), j) == histories[j] + if j == k then out else []
      {
        PickMore(emitted, owners, out, k, j);
      }
      latches := latches[k := l];
      histories := histories[k := histories[k] + out];
      emitted, owners := emitted + out, owners + seq(|out|, _ => k);
    }

    /** `nodata_poll` when the slot's type changed: every latch is dropped, a latched alarm ending
        under the old type. */
    method Rearm(newType: nat) returns (out: seq<Event>)
      requires Valid() && newType != typ
      modifies `typ, `latches, `histories, `emitted, `owners
      ensures Valid() && typ == newType && latches == Armed(old(typ), newType, old(latches))
      ensures out == Changes(slot, old(typ), old(latches), latches) && emitted == old(emitted) + out
      ensures owners == old(owners) + Changers(old(latches), latches)
    {
      hide Tracks, Pick, Changes, Changers;
      out := [];
      var k := 0;
      ghost var was, from, of := latches, emitted, owners;
      ChangesStart(slot, typ, was, latches);
      assert emitted + [] == emitted && owners + [] == owners;
      while k < |latches|
        modifies `latches, `histories, `emitted, `owners
        invariant Valid() && 0 <= k <= |latches| == |was|
        invariant forall j :: 0 <= j < k ==> latches[j] == Dropped(was[j])
        invariant forall j :: k <= j < |latches| ==> latches[j] == was[j]
        invariant out == Changes(slot, typ, was[..k], latches[..k]) && emitted == from + out
        invariant owners == of + Changers(was[..k], latches[..k])
      {
        ghost var before := latches;
        var e := Put(k, Dropped(latches[k]));
        assert latches[..k] == before[..k];
        ChangesNext(slot, typ, was, latches, k);
        out := out + e;
        k := k + 1;
      }
      assert was[..k] == was && latches[..k] == latches;
      forall j | 0 <= j < |latches|
        ensures LatchTracks(slot, newType, latches[j], histories[j])
      {
        assert LatchTracks(slot, typ, latches[j], histories[j]);
        TypeFree(histories[j], latches[j], slot, typ, newType);
      }
      typ := newType;
    }

    /** Name the channel a latch reports for; a latched alarm keeps the one it named. */
    method NameChannel(k: nat, channel: nat)
      requires Valid() && k < |latches| && (latches[k].active ==> channel == latches[k].channel)
      modifies `latches, `histories, `emitted, `owners
      ensures Valid() && latches == old(latches)[k := old(latches)[k].(channel := channel)] && emitted == old(emitted) && owners == old(owners)
    {
      Mark(k, latches[k].(channel := channel));
    }

    /** A change of a latch that makes no edge. */
    method Mark(k: nat, l: NoDataLatch)
      requires Valid() && k < |latches| && l.active == latches[k].active && (l.active ==> l.channel == latches[k].channel)
      modifies `latches, `histories, `emitted, `owners
      ensures Valid() && latches == old(latches)[k := l] && emitted == old(emitted) && owners == old(owners)
    {
      hide NoDataSlot.Valid;
      var e := Put(k, l);
      assert emitted == old(emitted) + [] && owners == old(owners) + [];
    }

    /** `nodata_step`. */
    method Step(k: nat, ok: bool, now: nat) returns (out: seq<Event>)
      requires Valid() && k < |latches|
      modifies `latches, `histories, `emitted, `owners
      ensures Valid() && latches == old(latches)[k := Stepped(old(latches)[k], ok, now)]
      ensures out == Change(slot, typ, old(latches)[k], latches[k]) && emitted == old(emitted) + out
      ensures owners == old(owners) + Changer(old(latches)[k], latches[k], k)
    {
      out := Put(k, Stepped(latches[k], ok, now));
    }

    /** A motherboard channel; one whose capability is off drops its latch. */
    method PollChannel(k: nat, t: SensorType, enabled: set<nat>, reported: set<nat>, now: nat) returns (out: seq<Event>)
      requires Valid() && slot == 0 && k < |t.liveness| && k < |latches| && (latches[k].active ==> latches[k].channel == t.liveness[k])
      modifies `latches, `histories, `emitted, `owners
      ensures Valid() && latches == old(latches)[k := Watched(slot, t, k, old(latches)[k], enabled, reported, now)]
      ensures out == Change(slot, typ, old(latches)[k], latches[k]) && emitted == old(emitted) + out
      ensures owners == old(owners) + Changer(old(latches)[k], latches[k], k)
    {
      hide NoDataSlot.Valid;
      var ch := t.liveness[k];
      NameChannel(k, ch);
      if ch !in enabled {
        out := Put(k, Dropped(latches[k]));
      } else {
        out := Step(k, ch in reported, now);
      }
    }

    /** One part of a 1-Wire device. */
    method PollPart(k: nat, t: SensorType, enabled: set<nat>, reported: set<nat>, now: nat) returns (out: seq<Event>)
      requires Valid() && slot > 0 && 0 < k < |latches| && k <= |t.parts|
      requires latches[k].active ==> Target(slot, t, k) == Some(latches[k].channel)
      modifies `latches, `histories, `emitted, `owners
      ensures Valid() && latches == old(latches)[k := Watched(slot, t, k, old(latches)[k], enabled, reported, now)]
      ensures out == Change(slot, typ, old(latches)[k], latches[k]) && emitted == old(emitted) + out
      ensures owners == old(owners) + Changer(old(latches)[k], latches[k], k)
    {
      hide NoDataSlot.Valid, Missing, Stepped;
      var part := t.parts[k - 1];
      out := [];
      assert emitted + [] == emitted && owners + [] == owners;
      FitPart(k, part, reported);
      if reported != {} && latches[k].seen {
        out := Step(k, forall c :: c in part ==> c in reported, now);
      }
    }

    /** A part's first channel names its latch; a part that reports is known to be fitted. */
    method FitPart(k: nat, part: seq<nat>, reported: set<nat>)
      requires Valid() && k < |latches| && (latches[k].active && part != [] ==> latches[k].channel == part[0])
      modifies `latches, `histories, `emitted, `owners
      ensures Valid() && emitted == old(emitted) && owners == old(owners)
      ensures latches == old(latches)[k := Fitted(old(latches)[k], part, reported)]
    {
      hide NoDataSlot.Valid;
      if part != [] {
        NameChannel(k, part[0]);
      }
      if reported == {} {
        Mark(k, latches[k].(nan := false));
      } else if exists c :: c in part && c in reported {
        Mark(k, latches[k].(seen := true));
      }
    }

    /** `nodata_poll_mb` and `nodata_poll_w1`: every latch that the sensor's type has an input for. */
    method PollLatches(t: SensorType, enabled: set<nat>, reported: set<nat>, now: nat) returns (out: seq<Event>)
      requires Valid() && Aimed(slot, t, latches)
      modifies `latches, `histories, `emitted, `owners
      ensures Valid() && Aimed(slot, t, latches) && |latches| == |old(latches)|
      ensures forall k :: 0 <= k < |latches| ==> latches[k] == Watched(slot, t, k, old(latches)[k], enabled, reported, now)
      ensures out == Changes(slot, typ, old(latches), latches) && emitted == old(emitted) + out
      ensures owners == old(owners) + Changers(old(latches), latches)
    {
      hide NoDataSlot.Valid, Changes, Changers, Watched;
      out := [];
      ghost var was := latches;
      var n := if slot == 0 then |t.liveness| else 1 + |t.parts|;
      ChangesStart(slot, typ, was, latches);
      assert emitted + [] == emitted && owners + [] == owners;
      var k := 0;
      while k < n && k < |latches|
        modifies `latches, `histories, `emitted, `owners
        invariant Valid() && 0 <= k <= n && k <= |latches| == |was|
        invariant forall j :: 0 <= j < k ==> latches[j] == Watched(slot, t, j, was[j], enabled, reported, now)
        invariant forall j :: k <= j < |latches| ==> latches[j] == was[j]
        invariant out == Changes(slot, typ, was[..k], latches[..k]) && emitted == old(emitted) + out
        invariant owners == old(owners) + Changers(was[..k], latches[..k])
        decreases n - k
      {
        ghost var before := latches;
        AimedAt(slot, t, was, k);
        var e;
        if slot == 0 {
          e := PollChannel(k, t, enabled, reported, now);
        } else if k == 0 {
          e := PollDevice(t, enabled, reported, now);
        } else {
          e := PollPart(k, t, enabled, reported, now);
        }
        assert latches[..k] == before[..k];
        ChangesNext(slot, typ, was, latches, k);
        out := out + e;
        k := k + 1;
      }
      ChangesNone(slot, typ, was, latches, k);
      forall j | 0 <= j < |latches|
        ensures latches[j] == Watched(slot, t, j, was[j], enabled, reported, now) && (latches[j].active ==> Target(slot, t, j) == Some(latches[j].channel))
      {
        if j >= k {
          WatchedRest(slot, t, j, was[j], enabled, reported, now);
        }
        AimedAt(slot, t, was, j);
        WatchedAims(slot, t, j, was[j], enabled, reported, now);
      }
    }

    /** The device as a whole. */
    method PollDevice(t: SensorType, enabled: set<nat>, reported: set<nat>, now: nat) returns (out: seq<Event>)
      requires Valid() && slot > 0 && |latches| > 0 && (latches[0].active ==> latches[0].channel == DEVICE_CHANNEL)
      modifies `latches, `histories, `emitted, `owners
      ensures Valid() && latches == old(latches)[0 := Watched(slot, t, 0, old(latches)[0], enabled, reported, now)]
      ensures out == Change(slot, typ, old(latches)[0], latches[0]) && emitted == old(emitted) + out
      ensures owners == old(owners) + Changer(old(latches)[0], latches[0], 0)
    {
      hide NoDataSlot.Valid;
      NameChannel(0, DEVICE_CHANNEL);
      out := Step(0, reported != {}, now);
    }

    /** `nodata_poll` for this slot, which now is to be watched as `newType`. */
    method Poll(newType: nat, types: nat -> Option<SensorType>, enabled: set<nat>, reported: set<nat>, now: nat) returns (out: seq<Event>)
      requires Watching(types)
      modifies `typ, `latches, `histories, `emitted, `owners
      ensures Watching(types) && typ == newType && |latches| == |old(latches)| && emitted == old(emitted) + out
      ensures types(newType).None? ==> latches == Armed(old(typ), newType, old(latches))
      ensures types(newType).Some? ==> forall k :: 0 <= k < |latches| ==>
                latches[k] == Watched(slot, types(newType).value, k, Armed(old(typ), newType, old(latches))[k], enabled, reported, now)
      ensures var armed := Armed(old(typ), newType, old(latches));
        && out == Changes(slot, old(typ), old(latches), armed) + Changes(slot, newType, armed, latches)
        && owners == old(owners) + Changers(old(latches), armed) + Changers(armed, latches)
    {
      hide NoDataSlot.Valid, Changes, Changers, Watched;
      out := [];
      ghost var was := latches;
      if newType != typ {
        out := Rearm(newType);
      } else {
        ChangesSame(slot, typ, was);
        assert emitted + [] == emitted && owners + [] == owners;
      }
      var t := types(newType);
      if t.None? {
        ChangesSame(slot, newType, latches);
        return;
      }
      var e := PollLatches(t.value, enabled, reported, now);
      out := out + e;
    }

    /** The slot's latches are those of its type: none is active without one, and an active one names
        its channel. */
    ghost predicate Watching(types: nat -> Option<SensorType>)
      reads this
    {
      && Valid() && |latches| > 0
      && (types(typ).None? ==> forall k :: 0 <= k < |latches| ==> !latches[k].active)
      && (types(typ).Some? ==> Aimed(slot, types(typ).value, latches))
    }
  }

  /** The mismatch latch of one 1-Wire slot; the expected type is kept for the deactivate edge. */
  class MismatchSlot {
    const s: nat
    var active: bool
    var expected: nat
    ghost var history: seq<Event>

    constructor (slot: nat)
      ensures Valid() && s == slot && !active && history == []
    {
      s, active, expected, history := slot, false, 0, [];
    }

    ghost predicate Valid()
      reads this
    {
      Tracks(active, history, MismatchEvent(s, expected, false))
    }

    /** `mismatch_poll` for this slot. */
    method Poll(mismatch: bool, expectedType: nat) returns (out: seq<Event>)
      requires Valid()
      modifies this
      ensures Valid() && active == mismatch && history == old(history) + out && Own(out, WATCHDOG_RULE)
      ensures out == if mismatch && !old(active) then [MismatchEvent(s, expectedType, true)]
                     else if !mismatch && old(active) then [MismatchEvent(s, old(expected), false)]
                     else []
    {
      hide Alternating, Open;
      out := [];
      if mismatch && !active {
        expected := expectedType;
        active := true;
        out := [MismatchEvent(s, expected, true)];
        PushEvent(history, 0, out[0]);
      } else if !mismatch && active {
        active := false;
        out := [MismatchEvent(s, expected, false)];
        PushEvent(history, 0, out[0]);
      }
      assert history + [] == history;
      history := history + out;
    }
  }

  /** Low below the threshold, good again above it by more than the hysteresis; without a plausible
      voltage nothing changes. */
  predicate LowNow(low: bool, voltage: Option<real>, threshold: real) {
    if voltage.None? || voltage.value <= 0.5 then low
    else voltage.value < threshold || (low && voltage.value <= threshold + BATTERY_HYSTERESIS)
  }

  /** The low-battery latch. */
  class Battery {
    const channel: nat
    const sensorType: nat
    var low: bool
    ghost var history: seq<Event>

    constructor (ch: nat, typ: nat)
      ensures Valid() && !low && history == []
    {
      channel, sensorType, low, history := ch, typ, false, [];
    }

    function EventOf(act: bool): Event { Event(BATTERY_RULE, 0, channel, sensorType, act, Low) }

    ghost predicate Valid()
      reads this
    {
      Tracks(low, history, EventOf(false))
    }

    /** `battery_poll`: without a plausible voltage nothing changes; low below the threshold, good again
        above it by more than the hysteresis. */
    method Poll(voltage: Option<real>, threshold: real) returns (out: seq<Event>)
      requires Valid()
      modifies this
      ensures Valid() && history == old(history) + out
      ensures low == LowNow(old(low), voltage, threshold)
      ensures out == (if low != old(low) then [EventOf(low)] else []) && Own(out, BATTERY_RULE)
    {
      hide Alternating, Open;
      out := [];
      assert history + [] == history;
      if voltage.None? || !(voltage.value > 0.5) {
        return;
      }
      var v := voltage.value;
      if !low {
        if v < threshold {
          low := true;
          out := [EventOf(true)];
          PushEvent(history, 0, out[0]);
          history := history + out;
        }
      } else if v > threshold + BATTERY_HYSTERESIS {
        low := false;
        out := [EventOf(false)];
        PushEvent(history, 0, out[0]);
        history := history + out;
      }
    }
  }

  /** The channel latch `k` of a slot reports for: the k-th liveness channel of the motherboard; the
      whole 1-Wire device, or the first channel of its part k - 1. */
  function Target(slot: nat, t: SensorType, k: nat): Option<nat> {
    if slot == 0 then (if k < |t.liveness| then Some(t.liveness[k]) else None)
    else if k == 0 then Some(DEVICE_CHANNEL)
    else if k - 1 < |t.parts| && t.parts[k - 1] != [] then Some(t.parts[k - 1][0])
    else None
  }

  ghost predicate Aimed(slot: nat, t: SensorType, ls: seq<NoDataLatch>) {
    forall k :: 0 <= k < |ls| && ls[k].active ==> Target(slot, t, k) == Some(ls[k].channel)
  }

  lemma AimedAt(slot: nat, t: SensorType, ls: seq<NoDataLatch>, k: nat)
    requires Aimed(slot, t, ls) && k < |ls|
    ensures ls[k].active ==> Target(slot, t, k) == Some(ls[k].channel)
  {
  }

  lemma WatchedAims(slot: nat, t: SensorType, k: nat, l: NoDataLatch, enabled: set<nat>, reported: set<nat>, now: nat)
    requires l.active ==> Target(slot, t, k) == Some(l.channel)
    ensures var l' := Watched(slot, t, k, l, enabled, reported, now); l'.active ==> Target(slot, t, k) == Some(l'.channel)
  {
  }

  lemma WatchedRest(slot: nat, t: SensorType, k: nat, l: NoDataLatch, enabled: set<nat>, reported: set<nat>, now: nat)
    requires k >= if slot == 0 then |t.liveness| else 1 + |t.parts|
    ensures Watched(slot, t, k, l, enabled, reported, now) == l
  {
  }

  lemma ChangesStart(slot: nat, typ: nat, was: seq<NoDataLatch>, ls: seq<NoDataLatch>)
    ensures Changes(slot, typ, was[..0], ls[..0]) == [] && Changers(was[..0], ls[..0]) == []
  {
  }

  lemma ChangesSame(slot: nat, typ: nat, ls: seq<NoDataLatch>)
    ensures Changes(slot, typ, ls, ls) == [] && Changers(ls, ls) == []
  {
    ChangesNone(slot, typ, ls, ls, 0);
    ChangesStart(slot, typ, ls, ls);
  }

  lemma TypeFree(h: seq<Event>, l: NoDataLatch, slot: nat, typ: nat, newType: nat)
    requires LatchTracks(slot, typ, l, h) && !l.active
    ensures LatchTracks(slot, newType, l, h)
  {
  }

  /** Only a latched alarm is tied to the channel it named. */
  lemma ChannelFree(h: seq<Event>, was: NoDataLatch, l: NoDataLatch, slot: nat, typ: nat)
    requires Tracks(was.active, h, NoDataEvent(slot, was.channel, typ, false))
    requires was.active ==> l.channel == was.channel
    ensures Tracks(was.active, h, NoDataEvent(slot, l.channel, typ, !was.active))
    ensures Tracks(was.active, h, NoDataEvent(slot, l.channel, typ, false))
  {
  }

  // ---- Runs of battery readings ----------------------------------------------------------------------

  datatype Reading = Reading(voltage: Option<real>, threshold: real)

  /** What the latch is after these readings. */
  function LowAfter(cs: seq<Reading>): bool {
    cs != [] && LowNow(LowAfter(cs[..|cs| - 1]), cs[|cs| - 1].voltage, cs[|cs| - 1].threshold)
  }

  predicate Below(c: Reading) { c.voltage.Some? && 0.5 < c.voltage.value < c.threshold }

  predicate Recovers(c: Reading) { c.voltage.Some? && c.voltage.value > 0.5 && c.voltage.value > c.threshold + BATTERY_HYSTERESIS }

  /** Reading `k` was plausible and below the threshold, and none since was above it by more than the
      hysteresis. */
  ghost predicate LowSince(cs: seq<Reading>, k: nat) {
    k < |cs| && Below(cs[k]) && forall m :: k < m < |cs| ==> !Recovers(cs[m])
  }

  /** After any readings the battery is low exactly if it was once and has not recovered since. */
  lemma {:induction false} LowIff(cs: seq<Reading>)
    ensures LowAfter(cs) <==> exists k: nat :: LowSince(cs, k)
  {
    if cs != [] {
      var n := |cs| - 1;
      LowIff(cs[..n]);
      if k: nat :| LowSince(cs[..n], k) && !Recovers(cs[n]) {
        assert LowSince(cs, k);
      }
      if k: nat :| LowSince(cs, k) && k < n {
        assert LowSince(cs[..n], k);
      }
      if Below(cs[n]) {
        assert LowSince(cs, n);
      }
    }
  }
}
