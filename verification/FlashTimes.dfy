/** The times of the records in the flash ring: what an append, a clock sync and a reboot make of them. */
module FlashTimes {
  import opened Bytes
  import opened FlashDevice
  import opened FlashMount
  import opened FlashRingState
  import opened Segments

  /** A record is on the same page before and after an append. */
  lemma SamePage(r: Ring, r': Ring, base: nat, synced: bool, i: nat, j: nat, x: nat)
    requires r.lastPhys < |r.pages| && r.absOrd <= r'.absOrd && Ordered(r.live)
    requires r'.live == r.live || r'.live == OpenedLive(r, base, synced)
    requires InSegment(SegmentsOf(r), i, x) && InSegment(SegmentsOf(r'), j, x) && x < r.absOrd
    ensures SameStamp(SegmentsOf(r)[i], SegmentsOf(r')[j])
  {
    hide Ordered;
    assert SegmentsOf(r)[i] == SegmentAt(r, i) && SegmentsOf(r')[j] == SegmentAt(r', j);
    var w := |r.live| - |r'.live| + if r'.live == r.live then 0 else 1;
    assert j + w < |r.live| && r'.live[j] == r.live[j + w];
    if i < j + w {
      OrderedAt(r.live, i + 1, j + w);
    } else if j + w < i {
      assert r'.live[j + 1] == r.live[j + w + 1];
      OrderedAt(r.live, j + w + 1, i);
    }
  }

  lemma RingOrder(c: Crcs, r: Ring)
    requires r.Valid(c)
    ensures r.Shape() && r.lastPhys < |r.pages| && r.FirstAbs() <= r.absOrd && |r.contents| == r.absOrd - r.FirstAbs() && Ordered(r.live)
  {
    hide Ring.HeadersOk, Ring.HeadOk, Ring.TimesOk, DiskClean, Ring.Run, Flat, Ordered;
  }


  /** An append changes the time of no record that stays. A record that opens a page has the time given
      with it; any other continues the grid of the head page. */
  lemma AppendStamps(c: Crcs, r: Ring, r': Ring, rec: Record, base: nat, synced: bool, split: bool, res: AppendResult, evicted: nat)
    requires r.Valid(c) && r'.Valid(c) && r'.interval == r.interval && base < TWO_32 && r.lastPhys < |r.pages|
    requires RecordAppended(r, r', rec, base, synced, split, res, evicted)
    ensures KeepsStamps(SegmentsOf(r), SegmentsOf(r'), r.interval, r'.FirstAbs(), r.absOrd)
    ensures res == Appended && Opens(r, split) ==> HasStamp(SegmentsOf(r'), r.interval, r.absOrd, Stamp(base, synced, true))
    ensures res == Appended && !Opens(r, split) ==> HasStamp(SegmentsOf(r'), r.interval, r.absOrd, NextStamp(SegmentsOf(r), r.interval))
  {
    hide Ring.Valid, Ring.Shape, Partition, Ring.Intact, OpenedLive, SegmentsOf, Ordered, KeepsStored, KeepsDurable, Phantom, HasStamp,
      KeepsStamps, SameStamp, Ring.FirstAbs;
    RingOrder(c, r);
    RingOrder(c, r');
    SegmentsPartition(c, r);
    SegmentsPartition(c, r');
    forall i: nat, j: nat, a: nat | InSegment(SegmentsOf(r), i, a) && InSegment(SegmentsOf(r'), j, a)
      ensures SameStamp(SegmentsOf(r)[i], SegmentsOf(r')[j])
    {
      InPartition(SegmentsOf(r), r.FirstAbs(), r.absOrd, i, a);
      SamePage(r, r', base, synced, i, j, a);
    }
    SameStamps(SegmentsOf(r), SegmentsOf(r'), r.interval, r.FirstAbs(), r.absOrd, r'.FirstAbs(), r'.absOrd);
    if res == Appended {
      HeadStarts(c, r);
      NewestStamp(r, r', base, synced, split);
    }
  }

  lemma HeadStarts(c: Crcs, r: Ring)
    requires r.Valid(c)
    ensures r.live != [] ==> r.Head().firstOrd <= r.absOrd
  {
    hide Ring.Valid;
    ValidShape(c, r);
  }

  /** The ring lost its `evicted` oldest records, and has `rec` as its newest if it was appended. */
  ghost predicate Queued(r: Ring, r': Ring, rec: Record, res: AppendResult, evicted: nat) {
    && r'.FirstAbs() == r.FirstAbs() + evicted && evicted <= |r.contents|
    && r'.absOrd == r.absOrd + (if res == Appended then 1 else 0)
    && r'.contents == r.contents[evicted..] + (if res == Appended then [rec] else [])
  }

  /** With no segment of this boot to continue, the next record opens a page. */
  lemma HeadOpens(c: Crcs, r: Ring)
    requires r.Valid(c)
    ensures HeadNext(SegmentsOf(r), r.interval).None? ==> Opens(r, false)
    ensures HeadNext(SegmentsOf(r), r.interval).Some? ==> HeadNext(SegmentsOf(r), r.interval).value.time < TWO_32
    ensures var segs := SegmentsOf(r); segs != [] ==> segs[|segs| - 1].origin <= segs[|segs| - 1].end
  {
    hide Flat, Flushed, WrittenDw, Ring.RunsOk, Ring.HeadersOk, Ring.TimesOk, DiskClean, Tidy, Agrees;
    HeadStarts(c, r);
    if r.live != [] {
      assert SegmentsOf(r)[|r.live| - 1] == SegmentAt(r, |r.live| - 1);
    }
  }

  lemma NewestStamp(r: Ring, r': Ring, base: nat, synced: bool, split: bool)
    requires r.lastPhys < |r.pages| && base < TWO_32 && (r.live != [] ==> r.Head().firstOrd <= r.absOrd)
    requires r'.absOrd == r.absOrd + 1 && r'.live == if Opens(r, split) then OpenedLive(r, base, synced) else r.live
    ensures Opens(r, split) ==> HasStamp(SegmentsOf(r'), r.interval, r.absOrd, Stamp(base, synced, true))
    ensures !Opens(r, split) ==> HasStamp(SegmentsOf(r'), r.interval, r.absOrd, NextStamp(SegmentsOf(r), r.interval))
  {
    var n := |r'.live| - 1;
    assert SegmentsOf(r')[n] == SegmentAt(r', n);
    if Opens(r, split) {
      assert StampIn(SegmentsOf(r'), r.interval, n, r.absOrd, Stamp(base, synced, true));
    } else {
      assert SegmentsOf(r)[n] == SegmentAt(r, n);
      assert StampIn(SegmentsOf(r'), r.interval, n, r.absOrd, NextStamp(SegmentsOf(r), r.interval));
    }
  }

  /** A clock sync moves exactly the times that were this boot's uptime. */
  lemma SyncStamps(r: Ring, live: seq<LivePage>, offset: nat)
    requires |live| == |r.live| && forall i :: 0 <= i < |live| ==> live[i] == SyncPage(r.live[i], offset)
    ensures MovesStamps(SegmentsOf(r), SegmentsOf(r.(live := live)), r.interval, offset)
  {
    var now := r.(live := live);
    forall i: nat, a: nat | InSegment(SegmentsOf(r), i, a)
      ensures InSegment(SegmentsOf(now), i, a)
      ensures Moved(SegmentsOf(r)[i], SegmentsOf(now)[i], offset)
    {
      assert SegmentsOf(r)[i] == SegmentAt(r, i) && SegmentsOf(now)[i] == SegmentAt(now, i);
      assert now.End(i) == r.End(i);
    }
    hide SegmentsOf;
    MovedAll(SegmentsOf(r), SegmentsOf(now), r.interval, offset);
  }

  /** Times do not depend on whether a page is still to be fixed up, nor on what is on flash. */
  lemma FixedStamps(r: Ring, pages: seq<Page>, live: seq<LivePage>)
    requires |live| == |r.live|
    requires forall i :: 0 <= i < |live| ==> live[i] == r.live[i].(fixPending := live[i].fixPending)
    ensures SegmentsOf(r.(pages := pages, live := live)) == SegmentsOf(r)
  {
    var now := r.(pages := pages, live := live);
    forall i | 0 <= i < |live|
      ensures SegmentsOf(now)[i] == SegmentsOf(r)[i]
    {
      assert SegmentsOf(r)[i] == SegmentAt(r, i) && SegmentsOf(now)[i] == SegmentAt(now, i);
    }
  }

  // ---- After a reboot --------------------------------------------------------------------------------

  /** The time of record `a` is on flash: in its page's header, or in the fix-up of that page. */
  ghost predicate TimeDurable(c: Crcs, r: Ring, a: nat) {
    exists i: nat :: DurablePage(c, r, i) && InSegment(SegmentsOf(r), i, a)
  }

  ghost predicate DurablePage(c: Crcs, r: Ring, i: nat) {
    && i < |r.live| && r.live[i].phys < |r.pages|
    && (r.live[i].baseTime, r.live[i].synced) == DurableTime(c, r.pages[r.live[i].phys])
  }

  /** After a reboot a record has the time it had if and only if that time is on flash; it is no longer
      a time of this boot. */
  ghost predicate Restamps(c: Crcs, r: Ring, m: Ring) {
    forall a: nat, st: Stamp :: m.FirstAbs() <= a < m.absOrd && HasStamp(SegmentsOf(r), r.interval, a, st) ==>
      (HasStamp(SegmentsOf(m), m.interval, a, Stamp(st.time, st.synced, false)) <==> TimeDurable(c, r, a))
  }

  lemma RebootStamps(c: Crcs, r: Ring)
    requires r.Valid(c) && r.live != [] && CanMount(r, r.lastPhys, |r.live| - Gone(r))
    requires Mounted(c, r, r.lastPhys, |r.live| - Gone(r)).Valid(c)
    ensures Restamps(c, r, Mounted(c, r, r.lastPhys, |r.live| - Gone(r)))
  {
    hide Mounted, Ring.Valid, Partition, SegmentsOf, Ring.FirstAbs, MountPage, DurablePage, DurableTime, CanMount, HasStamp, TimeDurable;
    var m := Mounted(c, r, r.lastPhys, |r.live| - Gone(r));
    SegmentsPartition(c, r);
    SegmentsPartition(c, m);
    MountedInterval(c, r);
    RebootFields(c, r);
    forall a: nat, st: Stamp | m.FirstAbs() <= a < m.absOrd && HasStamp(SegmentsOf(r), r.interval, a, st)
      ensures HasStamp(SegmentsOf(m), m.interval, a, Stamp(st.time, st.synced, false)) <==> TimeDurable(c, r, a)
    {
      RebootStamp(c, r, m, a, st);
    }
  }

  lemma RebootStamp(c: Crcs, r: Ring, m: Ring, a: nat, st: Stamp)
    requires r.Valid(c) && m.Valid(c) && r.live != [] && CanMount(r, r.lastPhys, |r.live| - Gone(r))
    requires m == Mounted(c, r, r.lastPhys, |r.live| - Gone(r)) && |m.live| == |r.live| - Gone(r) && m.interval == r.interval && !m.wiped
    requires Partition(SegmentsOf(r), r.FirstAbs(), r.absOrd) && Partition(SegmentsOf(m), m.FirstAbs(), m.absOrd)
    requires m.FirstAbs() <= a < m.absOrd && HasStamp(SegmentsOf(r), r.interval, a, st)
    ensures HasStamp(SegmentsOf(m), m.interval, a, Stamp(st.time, st.synced, false)) <==> TimeDurable(c, r, a)
  {
    hide Mounted, Ring.Valid, Partition, SegmentsOf, Ring.FirstAbs, MountPage, DurablePage, DurableTime, CanMount, TimeDurable,
      SegTime, InSegment;
    var i: nat :| StampIn(SegmentsOf(r), r.interval, i, a, st);
    var j := Covered(SegmentsOf(m), m.FirstAbs(), m.absOrd, a);
    MountedSame(c, r, m, i, j, a);
    BaseWidth(c, r, i);
    BaseWidth(c, m, j);
    MountedStamp(c, r, m, i, j, a, st);
  }

  lemma BaseWidth(c: Crcs, r: Ring, i: nat)
    requires r.Valid(c) && i < |r.live|
    ensures (i == 0 ==> !r.wiped) ==> r.live[i].baseTime < TWO_32
  {
    hide Ring.Valid;
    PhysDistinct(c, r, i);
  }

  lemma MountedInterval(c: Crcs, r: Ring)
    requires r.Valid(c) && r.live != [] && CanMount(r, r.lastPhys, |r.live| - Gone(r))
    ensures Mounted(c, r, r.lastPhys, |r.live| - Gone(r)).interval == r.interval
  {
    hide Recovered, RecoveredCount, Flat, Flushed, WrittenDw, Concat, Ring.RunsOk, Ring.HeadOk, Ring.TimesOk, DiskClean, Ring.HeaderOk, ChainLive;
    NextIsOldest(r);
    HeadInterval(c, r);
  }

  lemma HeadInterval(c: Crcs, r: Ring)
    requires r.Shape() && r.HeadersOk(c) && r.live != []
    ensures r.Head().phys < |r.pages| && r.pages[r.Head().phys].hdr.body.interval == r.interval
  {
    assert r.HeaderOk(c, |r.live| - 1);
  }

  /** The page that holds record `a` after the reboot is the one that held it before. */
  lemma MountedSame(c: Crcs, r: Ring, m: Ring, i: nat, j: nat, a: nat)
    requires r.Valid(c) && r.live != [] && CanMount(r, r.lastPhys, |r.live| - Gone(r))
    requires m == Mounted(c, r, r.lastPhys, |r.live| - Gone(r)) && |m.live| == |r.live| - Gone(r)
    requires InSegment(SegmentsOf(r), i, a) && InSegment(SegmentsOf(m), j, a)
    ensures i == j + Gone(r) && r.live[i].phys < |r.pages|
    ensures m.live[j] == MountPage(c, r.pages[r.live[i].phys], r.live[i].phys) && m.live[j].firstOrd == r.live[i].firstOrd
  {
    hide Mounted, Ring.HeadOk, Ring.RunsOk, Ring.TimesOk, DiskClean, Flat, MountPage, CanMount, Ordered;
    assert SegmentsOf(r)[i] == SegmentAt(r, i) && SegmentsOf(m)[j] == SegmentAt(m, j);
    RebootPage(c, r, j);
    RingOrder(c, r);
    if j + 1 < |m.live| {
      RebootPage(c, r, j + 1);
    }
    if i < j + Gone(r) {
      OrderedAt(r.live, i + 1, j + Gone(r));
    } else if j + Gone(r) < i {
      OrderedAt(r.live, j + Gone(r) + 1, i);
    }
  }

  lemma MountedStamp(c: Crcs, r: Ring, m: Ring, i: nat, j: nat, a: nat, st: Stamp)
    requires Partition(SegmentsOf(r), r.FirstAbs(), r.absOrd) && Partition(SegmentsOf(m), m.FirstAbs(), m.absOrd)
    requires StampIn(SegmentsOf(r), r.interval, i, a, st) && InSegment(SegmentsOf(m), j, a) && m.interval == r.interval
    requires r.live[i].phys < |r.pages| && m.live[j].firstOrd == r.live[i].firstOrd
    requires m.live[j] == MountPage(c, r.pages[r.live[i].phys], r.live[i].phys)
    requires r.live[i].baseTime < TWO_32 && m.live[j].baseTime < TWO_32
    ensures HasStamp(SegmentsOf(m), m.interval, a, Stamp(st.time, st.synced, false)) <==> TimeDurable(c, r, a)
  {
    hide Partition, DurableTime;
    assert SegmentsOf(r)[i] == SegmentAt(r, i) && SegmentsOf(m)[j] == SegmentAt(m, j);
    SameBase(r.live[i].baseTime, m.live[j].baseTime, (a - r.live[i].firstOrd) * r.interval);
    if DurablePage(c, r, i) {
      assert StampIn(SegmentsOf(m), m.interval, j, a, Stamp(st.time, st.synced, false));
    }
    if k: nat :| DurablePage(c, r, k) && InSegment(SegmentsOf(r), k, a) {
      InOne(SegmentsOf(r), r.FirstAbs(), r.absOrd, i, k, a);
    }
    if k: nat :| StampIn(SegmentsOf(m), m.interval, k, a, Stamp(st.time, st.synced, false)) {
      InOne(SegmentsOf(m), m.FirstAbs(), m.absOrd, j, k, a);
      assert DurablePage(c, r, i);
    }
  }

  lemma SameBase(b: nat, t: nat, d: int)
    requires b < TWO_32 && t < TWO_32
    ensures (b + d) % TWO_32 == (t + d) % TWO_32 <==> b == t
  {
  }
}
