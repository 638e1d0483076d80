/** Segments: runs of consecutive records stamped from one base. Record times are implicit and
    periodic within a segment, and both storage backends present their records as segments. */
module Segments {
  import opened Bytes

  datatype Segment = Segment(
    origin: nat,     // ordinal `base` refers to
    first: nat,      // first record still stored
    end: nat,        // one past the last record
    base: nat,       // time of record `origin`
    synced: bool,    // base is unix time
    curBoot: bool)

  /** The segments cover [first, end), oldest first, without gap or overlap. */
  ghost predicate Partition(segs: seq<Segment>, first: nat, end: nat) {
    && (segs == [] ==> first == end)
    && (segs != [] ==> segs[0].first == first && segs[|segs| - 1].end == end)
    && (forall i :: 0 <= i < |segs| ==> segs[i].origin <= segs[i].first <= segs[i].end)
    && (forall i {:trigger Joined(segs, i)} :: 0 <= i < |segs| - 1 ==> Joined(segs, i))
  }

  ghost predicate Joined(segs: seq<Segment>, i: nat) {
    i + 1 < |segs| && segs[i].end == segs[i + 1].first
  }

  /** Time of record `abs` in segment `s`, in 32-bit arithmetic. */
  function SegTime(s: Segment, abs: nat, interval: nat): nat
    requires s.origin <= abs
  {
    (s.base + (abs - s.origin) * interval) % TWO_32
  }

  lemma {:induction false} PartitionOrder(segs: seq<Segment>, first: nat, end: nat, i: nat, j: nat)
    requires Partition(segs, first, end) && i < j < |segs|
    ensures first <= segs[i].first <= segs[i].end <= segs[j].first <= segs[j].end <= end
    decreases j - i, |segs| - j, i
  {
    assert Joined(segs, j - 1);
    if i + 1 < j {
      PartitionOrder(segs, first, end, i, j - 1);
    }
    PartitionFirst(segs, first, end, i);
    PartitionEnd(segs, first, end, j);
  }

  lemma {:induction false} PartitionFirst(segs: seq<Segment>, first: nat, end: nat, i: nat)
    requires Partition(segs, first, end) && i < |segs|
    ensures first <= segs[i].first
  {
    if i > 0 {
      assert Joined(segs, i - 1);
      PartitionFirst(segs, first, end, i - 1);
    }
  }

  lemma {:induction false} PartitionEnd(segs: seq<Segment>, first: nat, end: nat, i: nat)
    requires Partition(segs, first, end) && i < |segs|
    ensures segs[i].end <= end
    decreases |segs| - i
  {
    if i + 1 < |segs| {
      assert Joined(segs, i);
      PartitionEnd(segs, first, end, i + 1);
    }
  }

  // ---- Which segment a record is in, and what time that gives it ----------------------------------

  ghost predicate InSegment(segs: seq<Segment>, i: nat, a: nat) {
    i < |segs| && segs[i].origin <= segs[i].first <= a < segs[i].end
  }

  lemma {:induction false} Covered(segs: seq<Segment>, first: nat, end: nat, a: nat) returns (i: nat)
    requires Partition(segs, first, end) && first <= a < end
    ensures InSegment(segs, i, a)
  {
    i := |segs| - 1;
    while segs[i].first > a
      decreases i
      invariant i < |segs| && a < segs[i].end
    {
      PartitionFirst(segs, first, end, i);
      assert Joined(segs, i - 1);
      i := i - 1;
    }
  }

  lemma InPartition(segs: seq<Segment>, first: nat, stop: nat, i: nat, x: nat)
    requires Partition(segs, first, stop) && InSegment(segs, i, x)
    ensures first <= x < stop && i < |segs|
  {
    hide Partition;
    PartitionFirst(segs, first, stop, i);
    PartitionEnd(segs, first, stop, i);
  }

  lemma InOne(segs: seq<Segment>, first: nat, end: nat, i: nat, j: nat, a: nat)
    requires Partition(segs, first, end) && InSegment(segs, i, a) && InSegment(segs, j, a)
    ensures i == j
  {
    if i < j {
      PartitionOrder(segs, first, end, i, j);
    } else if j < i {
      PartitionOrder(segs, first, end, j, i);
    }
  }

  /** What is known of when a record was taken: its time, whether that is unix time, and whether it was
      taken since the device booted. */
  datatype Stamp = Stamp(time: nat, synced: bool, curBoot: bool)

  ghost predicate StampIn(segs: seq<Segment>, interval: nat, i: nat, a: nat, st: Stamp) {
    && InSegment(segs, i, a) && SegTime(segs[i], a, interval) == st.time
    && segs[i].synced == st.synced && segs[i].curBoot == st.curBoot
  }

  /** The segment that holds record `a` gives it this stamp. */
  ghost predicate HasStamp(segs: seq<Segment>, interval: nat, a: nat, st: Stamp) {
    exists i: nat :: StampIn(segs, interval, i, a, st)
  }

  /** The stamp of a record that continues the newest segment. */
  function NextStamp(segs: seq<Segment>, interval: nat): Stamp {
    if segs == [] || segs[|segs| - 1].end < segs[|segs| - 1].origin then Stamp(0, false, false)
    else
      var s := segs[|segs| - 1];
      Stamp(SegTime(s, s.end, interval), s.synced, s.curBoot)
  }

  /** The records of [lo, hi) have the stamps they had. */
  ghost predicate KeepsStamps(was: seq<Segment>, now: seq<Segment>, interval: nat, lo: nat, hi: nat) {
    forall a: nat, st: Stamp :: lo <= a < hi ==> (HasStamp(was, interval, a, st) <==> HasStamp(now, interval, a, st))
  }

  /** Every stored record has exactly one stamp. */
  lemma OneStamp(segs: seq<Segment>, interval: nat, first: nat, end: nat, a: nat) returns (st: Stamp)
    requires Partition(segs, first, end) && first <= a < end
    ensures forall s: Stamp :: HasStamp(segs, interval, a, s) <==> s == st
  {
    hide Partition;
    var i := Covered(segs, first, end, a);
    st := Stamp(SegTime(segs[i], a, interval), segs[i].synced, segs[i].curBoot);
    assert StampIn(segs, interval, i, a, st);
    forall s: Stamp | HasStamp(segs, interval, a, s)
      ensures s == st
    {
      var j: nat :| StampIn(segs, interval, j, a, s);
      InOne(segs, first, end, i, j, a);
    }
  }

  /** What a clock sync makes of a stamp: an uptime of this boot becomes unix time. */
  function Rebased(st: Stamp, offset: nat): Stamp {
    if !st.synced && st.curBoot then Stamp((st.time + offset) % TWO_32, true, true) else st
  }

  /** Every record stays, with its stamp rebased. */
  ghost predicate MovesStamps(was: seq<Segment>, now: seq<Segment>, interval: nat, offset: nat) {
    forall a: nat, st: Stamp :: HasStamp(was, interval, a, st) ==> HasStamp(now, interval, a, Rebased(st, offset))
  }

  ghost predicate Moved(s: Segment, t: Segment, offset: nat) {
    t == if !s.synced && s.curBoot then s.(base := (s.base + offset) % TWO_32, synced := true) else s
  }

  lemma MovedAll(was: seq<Segment>, now: seq<Segment>, interval: nat, offset: nat)
    requires |was| <= |now|
    requires forall i: nat, a: nat :: InSegment(was, i, a) ==> InSegment(now, i, a) && Moved(was[i], now[i], offset)
    ensures MovesStamps(was, now, interval, offset)
  {
    forall a: nat, st: Stamp | HasStamp(was, interval, a, st)
      ensures HasStamp(now, interval, a, Rebased(st, offset))
    {
      var i: nat :| StampIn(was, interval, i, a, st);
      MovedTime(was[i], offset, (a - was[i].origin) * interval);
      assert StampIn(now, interval, i, a, Rebased(st, offset));
    }
  }

  lemma MovedTime(s: Segment, offset: nat, d: int)
    ensures ((s.base + offset) % TWO_32 + d) % TWO_32 == ((s.base + d) % TWO_32 + offset) % TWO_32
  {
  }

  ghost predicate SameStamp(s: Segment, t: Segment) {
    s.origin == t.origin && s.base == t.base && s.synced == t.synced && s.curBoot == t.curBoot
  }

  /** Two partitions whose segments of a record start at the same time give it the same stamp. */
  lemma SameStamps(was: seq<Segment>, now: seq<Segment>, interval: nat, first: nat, end: nat, first': nat, end': nat)
    requires Partition(was, first, end) && Partition(now, first', end') && first <= first' && end <= end'
    requires forall i: nat, j: nat, a: nat :: InSegment(was, i, a) && InSegment(now, j, a) ==> SameStamp(was[i], now[j])
    ensures KeepsStamps(was, now, interval, first', end)
  {
    hide Partition;
    forall a: nat, st: Stamp | first' <= a < end
      ensures HasStamp(was, interval, a, st) <==> HasStamp(now, interval, a, st)
    {
      var i := Covered(was, first, end, a);
      var j := Covered(now, first', end', a);
      assert SameStamp(was[i], now[j]);
      StampsAlike(was, now, interval, first, end, first', end', i, j, a, st);
    }
  }

  lemma StampsAlike(was: seq<Segment>, now: seq<Segment>, interval: nat, first: nat, end: nat, first': nat, end': nat,
      i: nat, j: nat, a: nat, st: Stamp)
    requires Partition(was, first, end) && Partition(now, first', end')
    requires InSegment(was, i, a) && InSegment(now, j, a) && SameStamp(was[i], now[j])
    ensures HasStamp(was, interval, a, st) <==> HasStamp(now, interval, a, st)
  {
    hide Partition;
    assert StampIn(was, interval, i, a, st) <==> StampIn(now, interval, j, a, st);
    if k: nat :| StampIn(was, interval, k, a, st) {
      InOne(was, first, end, i, k, a);
    }
    if k: nat :| StampIn(now, interval, k, a, st) {
      InOne(now, first', end', j, k, a);
    }
  }

  // ---- The time of the next record -----------------------------------------------------------------

  /** A time on the unix clock, or, if not `synced`, on the uptime of this boot. */
  datatype Clock = Clock(time: nat, synced: bool)

  /** `head_next_time`: when the next record is due, if it continues a segment of this boot. */
  function HeadNext(segs: seq<Segment>, interval: nat): Option<Clock> {
    if segs == [] || !segs[|segs| - 1].curBoot then None
    else var st := NextStamp(segs, interval); Some(Clock(st.time, st.synced))
  }

  /** A 32-bit difference read as a signed number. */
  function Signed(n: int): int { if n % TWO_32 < TWO_32 / 2 then n % TWO_32 else n % TWO_32 - TWO_32 }

  /** `slot_continues`. */
  predicate SlotContinues(next: Clock, slot: Clock, interval: nat) {
    next.synced == slot.synced && -(interval / 2) <= Signed(slot.time - next.time) <= interval / 2
  }

  /** What `capture` gives an append: the base of a segment the record may open, and whether it must. A
      record on the report cadence has its `slot`, others have none. */
  function CapturePlan(head: Option<Clock>, interval: nat, slot: Option<Clock>, now: Clock): (r: (Clock, bool))
    ensures (head.Some? ==> head.value.time < TWO_32) && (slot.Some? ==> slot.value.time < TWO_32) && now.time < TWO_32 ==> r.0.time < TWO_32
  {
    match slot
    case Some(at) => (at, head.Some? && !SlotContinues(head.value, at, interval))
    case None => (if head.Some? then head.value else now, false)
  }

  /** `t` is at most half an interval before or after `slot`, on the 32-bit clock. */
  ghost predicate Near(t: nat, slot: nat, interval: nat) {
    exists d: int :: Shifts(t, d, slot) && -(interval as int) <= d + d <= interval
  }

  ghost predicate Shifts(t: nat, d: int, slot: nat) { (t + d) % TWO_32 == slot }

  lemma SignedShifts(t: nat, slot: nat)
    requires slot < TWO_32
    ensures Shifts(t, Signed(slot - t), slot)
  {
  }

  /** The record was taken at `slot`; its time says so to half an interval. */
  ghost predicate TakenAt(segs: seq<Segment>, interval: nat, a: nat, slot: Clock) {
    exists st: Stamp :: HasStamp(segs, interval, a, st) && st.synced == slot.synced && st.curBoot && Near(st.time, slot.time, interval)
  }

  /** The time of record `a`, captured at `slot` while the segments were `was`: that of its slot to half
      an interval; without a slot, exactly the grid's time, or the clock's. */
  ghost predicate Captured(was: seq<Segment>, now: seq<Segment>, interval: nat, a: nat, slot: Option<Clock>, clock: Clock) {
    if slot.Some? then TakenAt(now, interval, a, slot.value)
    else
      var t := if HeadNext(was, interval).Some? then HeadNext(was, interval).value else clock;
      HasStamp(now, interval, a, Stamp(t.time, t.synced, true))
  }

  /** A record that continues the grid or opens a segment, as `CapturePlan` has it, has that time. */
  lemma PlannedStamp(was: seq<Segment>, now: seq<Segment>, interval: nat, a: nat, slot: Option<Clock>, clock: Clock, opens: bool)
    requires var plan := CapturePlan(HeadNext(was, interval), interval, slot, clock);
      && (plan.1 || HeadNext(was, interval).None? ==> opens)
      && HasStamp(now, interval, a, if opens then Stamp(plan.0.time, plan.0.synced, true) else NextStamp(was, interval))
    requires slot.Some? ==> slot.value.time < TWO_32
    requires was != [] ==> was[|was| - 1].origin <= was[|was| - 1].end
    ensures Captured(was, now, interval, a, slot, clock)
  {
    hide HasStamp, NextStamp, Near;
    HeadIsNext(was, interval);
    var head := HeadNext(was, interval);
    var plan := CapturePlan(head, interval, slot, clock);
    if slot.Some? {
      if opens {
        NearSelf(slot.value.time, interval);
        assert HasStamp(now, interval, a, Stamp(plan.0.time, plan.0.synced, true));
      } else {
        NearGrid(head.value.time, slot.value.time, interval);
        assert HasStamp(now, interval, a, NextStamp(was, interval)) && NextStamp(was, interval).time == head.value.time;
      }
    }
  }

  lemma HeadIsNext(was: seq<Segment>, interval: nat)
    requires was != [] ==> was[|was| - 1].origin <= was[|was| - 1].end
    ensures var st := NextStamp(was, interval);
      HeadNext(was, interval).Some? ==> HeadNext(was, interval).value == Clock(st.time, st.synced) && st.curBoot
  {
  }

  lemma NearSelf(t: nat, interval: nat)
    requires t < TWO_32
    ensures Near(t, t, interval)
  {
    assert Shifts(t, 0, t);
  }

  lemma NearGrid(t: nat, slot: nat, interval: nat)
    requires slot < TWO_32 && -(interval / 2) <= Signed(slot - t) <= interval / 2
    ensures Near(t, slot, interval)
  {
    SignedShifts(t, slot);
  }
}
