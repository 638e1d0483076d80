/** The RAM backend of the history store: a ring of fixed-size slots behind the same interface as the
    flash ring, with a table of at most four segments. */
module HistoryRam {
  import opened Bytes
  import opened Segments

  type Record = seq<byte>

  const TABLE_SIZE: nat := 4

  datatype Entry = Entry(origin: nat, base: nat, synced: bool)

  /** The table entry of record `a`: the newest one that starts at or before it. */
  function EntryOf(segs: seq<Entry>, a: nat): Entry
    requires segs != []
  {
    if |segs| == 1 || segs[|segs| - 1].origin <= a then segs[|segs| - 1] else EntryOf(segs[..|segs| - 1], a)
  }

  /** Its place in the table. */
  function IndexOf(segs: seq<Entry>, a: nat): (i: nat)
    requires segs != []
    ensures i < |segs| && segs[i] == EntryOf(segs, a)
  {
    if |segs| == 1 || segs[|segs| - 1].origin <= a then |segs| - 1 else IndexOf(segs[..|segs| - 1], a)
  }

  /** Another base time for entry `i` changes what `EntryOf` gives for the records of that entry alone. */
  lemma {:induction false} SyncEntry(segs: seq<Entry>, i: nat, e: Entry, a: nat)
    requires i < |segs| && e.origin == segs[i].origin
    ensures EntryOf(segs[i := e], a) == if IndexOf(segs, a) == i then e else EntryOf(segs, a)
    decreases |segs|
  {
    var n := |segs| - 1;
    if n > 0 && segs[n].origin > a {
      if i < n {
        assert segs[i := e][..n] == segs[..n][i := e];
        SyncEntry(segs[..n], i, e, a);
      } else {
        assert segs[i := e][..n] == segs[..n];
      }
    }
  }

  lemma SyncEntries(segs: seq<Entry>, i: nat, e: Entry)
    requires i < |segs| && e.origin == segs[i].origin
    ensures forall a: nat :: EntryOf(segs[i := e], a) == if IndexOf(segs, a) == i then e else EntryOf(segs, a)
  {
    forall a: nat
      ensures EntryOf(segs[i := e], a) == if IndexOf(segs, a) == i then e else EntryOf(segs, a)
    {
      SyncEntry(segs, i, e, a);
    }
  }

  /** The table as segments of the records [first, end). */
  function Table(segs: seq<Entry>, first: nat, end: nat): (t: seq<Segment>)
    ensures |t| == |segs|
  {
    seq(|segs|, i requires 0 <= i < |segs| =>
      Segment(segs[i].origin, if i == 0 then first else segs[i].origin,
              if i + 1 < |segs| then segs[i + 1].origin else end, segs[i].base, segs[i].synced, true))
  }

  /** Entry origins rise, the oldest entry starts at or before the oldest record, and none is empty. */
  ghost predicate TableOk(segs: seq<Entry>, first: nat, end: nat) {
    && 1 <= |segs| <= TABLE_SIZE
    && segs[0].origin <= first < end
    && (forall i :: 1 <= i < |segs| ==> first < segs[i].origin < end)
    && (forall i, j :: 0 <= i < j < |segs| ==> segs[i].origin < segs[j].origin)
  }

  /** The table is ready for a record at ordinal `end`: its newest entry will hold it. */
  ghost predicate TableNext(segs: seq<Entry>, first: nat, end: nat) {
    && 1 <= |segs| <= TABLE_SIZE && segs[0].origin <= first <= end
    && (forall i :: 1 <= i < |segs| ==> first < segs[i].origin <= end)
    && (forall i, j :: 0 <= i < j < |segs| ==> segs[i].origin < segs[j].origin)
  }

  lemma TableNextOk(segs: seq<Entry>, first: nat, end: nat)
    requires TableNext(segs, first, end)
    ensures TableOk(segs, first, end + 1) && segs[|segs| - 1].origin <= end
  {
  }

  lemma TableOkNext(segs: seq<Entry>, first: nat, end: nat)
    requires TableOk(segs, first, end)
    ensures TableNext(segs, first, end)
  {
  }

  lemma TablePartitions(segs: seq<Entry>, first: nat, end: nat)
    requires TableOk(segs, first, end)
    ensures Partition(Table(segs, first, end), first, end)
  {
    var t := Table(segs, first, end);
    forall i | 0 <= i < |t| - 1
      ensures Joined(t, i)
    {
    }
  }

  /** Dropping the oldest entry changes nothing for the records of the others. */
  lemma {:induction false} EntryOfDrop(segs: seq<Entry>, a: nat)
    requires |segs| > 1 && segs[1].origin <= a
    ensures EntryOf(segs[1..], a) == EntryOf(segs, a)
  {
    if |segs| > 2 && segs[|segs| - 1].origin > a {
      assert segs[1..][..|segs| - 2] == segs[..|segs| - 1][1..];
      EntryOfDrop(segs[..|segs| - 1], a);
    }
  }

  lemma EntryOfAppend(segs: seq<Entry>, e: Entry, a: nat)
    requires segs != [] && a < e.origin
    ensures EntryOf(segs + [e], a) == EntryOf(segs, a)
  {
    assert (segs + [e])[..|segs|] == segs;
  }

  lemma EntryOfLast(segs: seq<Entry>, a: nat)
    requires segs != [] && segs[|segs| - 1].origin <= a
    ensures EntryOf(segs, a) == segs[|segs| - 1]
  {
  }

  lemma {:induction false} EntryIs(segs: seq<Entry>, first: nat, end: nat, i: nat, x: nat)
    requires TableOk(segs, first, end) && InSegment(Table(segs, first, end), i, x)
    ensures EntryOf(segs, x) == segs[i] && first <= x < end
    decreases |segs|
  {
    if i + 1 < |segs| {
      var less := segs[..|segs| - 1];
      assert less[i] == segs[i];
      assert x < segs[i + 1].origin <= segs[|segs| - 1].origin;
      EntryIs(less, first, segs[|segs| - 1].origin, i, x);
    }
  }

  lemma EntryStamp(segs: seq<Entry>, first: nat, end: nat, interval: nat, a: nat)
    requires TableOk(segs, first, end) && first <= a < end
    ensures var e := EntryOf(segs, a);
      e.origin <= a && HasStamp(Table(segs, first, end), interval, a, Stamp((e.base + (a - e.origin) * interval) % TWO_32, e.synced, true))
  {
    hide Partition, EntryOf, TableOk;
    TablePartitions(segs, first, end);
    var i := Covered(Table(segs, first, end), first, end, a);
    EntryIs(segs, first, end, i, a);
    var e := segs[i];
    assert StampIn(Table(segs, first, end), interval, i, a, Stamp((e.base + (a - e.origin) * interval) % TWO_32, e.synced, true));
  }

  /** A table that gives the records of [first', end) the entries they had gives them the stamps they had. */
  lemma EntriesStamps(segs: seq<Entry>, first: nat, end: nat, segs': seq<Entry>, first': nat, end': nat, interval: nat)
    requires TableOk(segs, first, end) && TableOk(segs', first', end') && first <= first' && end <= end'
    requires forall a :: first' <= a < end ==> EntryOf(segs', a) == EntryOf(segs, a)
    ensures KeepsStamps(Table(segs, first, end), Table(segs', first', end'), interval, first', end)
  {
    hide Partition, EntryOf, TableOk, Table;
    TablePartitions(segs, first, end);
    TablePartitions(segs', first', end');
    var was, now := Table(segs, first, end), Table(segs', first', end');
    forall i: nat, j: nat, a: nat | InSegment(was, i, a) && InSegment(now, j, a)
      ensures SameStamp(was[i], now[j])
    {
      EntryIs(segs, first, end, i, a);
      EntryIs(segs', first', end', j, a);
      TableAt(segs, first, end, i);
      TableAt(segs', first', end', j);
    }
    SameStamps(was, now, interval, first, end, first', end');
  }

  lemma TableAt(segs: seq<Entry>, first: nat, end: nat, i: nat)
    requires i < |segs|
    ensures var s := Table(segs, first, end)[i];
      s.origin == segs[i].origin && s.base == segs[i].base && s.synced == segs[i].synced && s.curBoot
  {
  }

  function SyncedEntry(e: Entry, offset: nat): Entry {
    if !e.synced then Entry(e.origin, (e.base + offset) % TWO_32, true) else e
  }

  lemma SyncStamps(was: seq<Entry>, now: seq<Entry>, first: nat, end: nat, offset: nat, interval: nat)
    requires |was| == |now| && forall k :: 0 <= k < |was| ==> now[k] == SyncedEntry(was[k], offset)
    ensures MovesStamps(Table(was, first, end), Table(now, first, end), interval, offset)
  {
    hide MovesStamps, Table;
    forall i: nat, a: nat | InSegment(Table(was, first, end), i, a)
      ensures InSegment(Table(now, first, end), i, a) && Moved(Table(was, first, end)[i], Table(now, first, end)[i], offset)
    {
      SyncedAt(was, now, first, end, offset, i);
    }
    MovedAll(Table(was, first, end), Table(now, first, end), interval, offset);
  }

  lemma SyncedAt(was: seq<Entry>, now: seq<Entry>, first: nat, end: nat, offset: nat, i: nat)
    requires |was| == |now| && i < |was| && forall k :: 0 <= k < |was| ==> now[k] == SyncedEntry(was[k], offset)
    ensures var s, t := Table(was, first, end)[i], Table(now, first, end)[i];
      s.origin == t.origin && s.first == t.first && s.end == t.end && Moved(s, t, offset)
  {
  }

  /** What an append makes of the stamps, by what it makes of the table. */
  lemma AppendStamps(segs: seq<Entry>, first: nat, end: nat, segs': seq<Entry>, first': nat, end': nat, base: nat, synced: bool, opens: bool, interval: nat)
    requires first <= first' <= end && end' == end + 1 && TableOk(segs', first', end') && (first < end ==> TableOk(segs, first, end))
    requires first < end ==> forall a :: first' <= a < end ==> EntryOf(segs', a) == EntryOf(segs, a)
    requires first == end ==> opens
    requires EntryOf(segs', end) == if opens then Entry(end, base, synced) else segs[|segs| - 1]
    ensures var was := if first < end then Table(segs, first, end) else []; var now := Table(segs', first', end');
      && KeepsStamps(was, now, interval, first', end)
      && HasStamp(now, interval, end, if opens then Stamp(base % TWO_32, synced, true) else NextStamp(was, interval))
  {
    hide EntryOf, HasStamp, KeepsStamps, Table, NextStamp;
    if first < end {
      EntriesStamps(segs, first, end, segs', first', end', interval);
    } else {
      NoStamps([], Table(segs', first', end'), interval, first', end);
    }
    EntryStamp(segs', first', end', interval, end);
    if !opens {
      NextStampIs(segs, first, end, interval);
    }
  }

  lemma NextStampIs(segs: seq<Entry>, first: nat, end: nat, interval: nat)
    requires TableOk(segs, first, end)
    ensures var e := segs[|segs| - 1];
      e.origin <= end && NextStamp(Table(segs, first, end), interval) == Stamp((e.base + (end - e.origin) * interval) % TWO_32, e.synced, true)
  {
    hide Table;
    LastAt(segs, first, end);
  }

  lemma LastAt(segs: seq<Entry>, first: nat, end: nat)
    requires segs != []
    ensures var e := segs[|segs| - 1]; var t := Table(segs, first, end);
      |t| == |segs| && t[|t| - 1].origin == e.origin && t[|t| - 1].base == e.base && t[|t| - 1].synced == e.synced
      && t[|t| - 1].end == end && t[|t| - 1].curBoot
  {
  }

  lemma HeadNextIs(segs: seq<Entry>, first: nat, end: nat, interval: nat)
    requires first < end ==> TableOk(segs, first, end)
    ensures var t := if first < end then Table(segs, first, end) else [];
      && (HeadNext(t, interval).None? <==> first >= end)
      && (HeadNext(t, interval).Some? ==> HeadNext(t, interval).value.time < TWO_32)
      && (t != [] ==> t[|t| - 1].origin <= t[|t| - 1].end)
  {
    if first < end {
      LastAt(segs, first, end);
    }
  }

  lemma NoStamps(was: seq<Segment>, now: seq<Segment>, interval: nat, lo: nat, hi: nat)
    requires lo >= hi
    ensures KeepsStamps(was, now, interval, lo, hi)
  {
  }

  // ---- Slots of the byte buffer ---------------------------------------------------------------

  lemma MulStep(a: nat, b: nat, size: nat)
    requires a < b
    ensures a * size + size <= b * size
  {
    var d := b - a - 1;
    assert b == a + 1 + d;
    assert d * size >= 0;
    assert (a + 1 + d) * size == a * size + size + d * size;
  }

  lemma SlotRange(slot: nat, cap: nat, size: nat, len: nat)
    requires slot < cap && cap * size <= len
    ensures slot * size + size <= len
  {
    MulStep(slot, cap, size);
  }

  lemma SlotsApart(a: nat, b: nat, size: nat)
    requires a != b
    ensures a * size + size <= b * size || b * size + size <= a * size
  {
    if a < b {
      MulStep(a, b, size);
    } else {
      MulStep(b, a, size);
    }
  }

  /** The slot `k` steps after `start`, for less than one turn of the ring. */
  function SlotOf(start: nat, k: nat, cap: nat): nat
    requires start < cap && k <= cap
  {
    if start + k < cap then start + k else start + k - cap
  }

  /** The `k`-th stored record is in its slot of the buffer. */
  ghost predicate SlotHolds(ram: seq<byte>, start: nat, cap: nat, size: nat, contents: seq<Record>, k: nat)
    requires k < |contents| <= cap && start < cap
  {
    var off := SlotOf(start, k, cap) * size;
    off + size <= |ram| && ram[off..off + size] == contents[k]
  }

  ghost predicate SlotsHold(ram: seq<byte>, start: nat, cap: nat, size: nat, contents: seq<Record>) {
    && |contents| <= cap && (cap > 0 ==> start < cap)
    && forall k :: 0 <= k < |contents| ==> SlotHolds(ram, start, cap, size, contents, k)
  }

  lemma SlotsStart(ram: seq<byte>, start: nat, cap: nat, size: nat, contents: seq<Record>)
    requires SlotsHold(ram, start, cap, size, contents) && cap > 0
    ensures start < cap
  {
  }

  lemma SlotsDrop(ram: seq<byte>, start: nat, cap: nat, size: nat, contents: seq<Record>, n: nat)
    requires SlotsHold(ram, start, cap, size, contents) && cap > 0 && n <= |contents|
    ensures (start + n) % cap < cap && SlotsHold(ram, (start + n) % cap, cap, size, contents[n..])
  {
    ModOnce(start + n, cap);
    var start' := (start + n) % cap;
    forall k | 0 <= k < |contents| - n
      ensures SlotHolds(ram, start', cap, size, contents[n..], k)
    {
      assert SlotOf(start', k, cap) == SlotOf(start, n + k, cap);
      assert SlotHolds(ram, start, cap, size, contents, n + k);
    }
  }

  lemma OtherSlot(start: nat, k: nat, n: nat, cap: nat)
    requires k < n < cap && start < cap
    ensures SlotOf(start, k, cap) != SlotOf(start, n, cap)
  {
  }

  lemma SlotsStore(was: seq<byte>, start: nat, cap: nat, size: nat, contents: seq<Record>, rec: Record, slot: nat, off: nat)
    requires SlotsHold(was, start, cap, size, contents) && |contents| < cap && |rec| == size
    requires slot == SlotOf(start, |contents|, cap) && off == slot * size && off + size <= |was|
    ensures SlotsHold(was[..off] + rec + was[off + size..], start, cap, size, contents + [rec])
  {
    hide SlotOf;
    var ram := was[..off] + rec + was[off + size..];
    forall k | 0 <= k < |contents| + 1
      ensures SlotHolds(ram, start, cap, size, contents + [rec], k)
    {
      if k < |contents| {
        assert SlotHolds(was, start, cap, size, contents, k);
        OtherSlot(start, k, |contents|, cap);
        SlotsApart(SlotOf(start, k, cap), slot, size);
      }
    }
  }

  lemma ModOnce(x: nat, cap: nat)
    requires 0 < cap && x < cap + cap
    ensures x % cap == if x < cap then x else x - cap
  {
    var q := x / cap;
    assert x == q * cap + x % cap;
    if q >= 2 {
      Multiple(q, 2, cap);
    }
    assert q == 0 || q == 1;
  }

  lemma Multiple(q: nat, k: nat, cap: nat)
    requires q >= k
    ensures q * cap >= k * cap
  {
    assert q * cap == k * cap + (q - k) * cap;
  }

  class RamRing {
    const ram: array<byte>
    var sampleSize: nat
    var interval: nat
    var start: nat
    var count: nat
    var firstAbs: nat
    var segs: seq<Entry>               // [0] is the oldest

    ghost var contents: seq<Record>

    constructor (bytes: nat)
      requires bytes <= 0xFFFF
      ensures Valid() && contents == [] && firstAbs == 0 && fresh(ram) && ram.Length == bytes
    {
      ram := new byte[bytes];
      sampleSize, interval, start, count, firstAbs, segs := 0, 0, 0, 0, 0, [];
      contents := [];
    }

    /** Records of the current size the buffer holds: 0 when nothing can be recorded. */
    function Capacity(): (c: nat)
      reads this
      ensures sampleSize > 0 ==> c * sampleSize <= ram.Length < (c + 1) * sampleSize
      ensures sampleSize == 0 ==> c == 0
    {
      if sampleSize == 0 then 0 else ram.Length / sampleSize
    }

    ghost predicate Valid()
      reads this, ram
    {
      && ram.Length <= 0xFFFF
      && |contents| == count <= Capacity() && SlotsHold(ram[..], start, Capacity(), sampleSize, contents)
      && (count > 0 ==> TableOk(segs, firstAbs, firstAbs + count))
    }

    /** What the upper layer sees of the table. */
    function Segs(): seq<Segment>
      reads this
    {
      if count == 0 then [] else Table(segs, firstAbs, firstAbs + count)
    }

    /** The at most four segments cover exactly the stored records. */
    lemma SegsPartition()
      requires Valid()
      ensures Partition(Segs(), firstAbs, firstAbs + count) && |Segs()| <= TABLE_SIZE
    {
      hide SlotsHold, Table, Joined;
      if count > 0 {
        TablePartitions(segs, firstAbs, firstAbs + count);
      }
    }

    /** Forget the oldest `n` records. */
    method DropOldest(n: nat)
      requires Valid() && n <= count && Capacity() > 0
      modifies `start, `count, `firstAbs, `contents
      ensures count == old(count) - n && firstAbs == old(firstAbs) + n && contents == old(contents)[n..]
      ensures SlotsHold(ram[..], start, Capacity(), sampleSize, contents)
    {
      SlotsDrop(ram[..], start, Capacity(), sampleSize, contents, n);
      start := (start + n) % Capacity();
      count := count - n;
      firstAbs := firstAbs + n;
      contents := contents[n..];
    }

    /** A new segment starts with the next record; a full table gives up its oldest segment. */
    method OpenSegment(base: nat, synced: bool) returns (evicted: nat)
      requires Valid() && Capacity() > 0 && (count == 0 ==> segs == [])
      modifies `start, `count, `firstAbs, `segs, `contents
      ensures evicted <= old(count) && count == old(count) - evicted && firstAbs == old(firstAbs) + evicted
      ensures contents == old(contents)[evicted..] && |contents| == count <= Capacity()
      ensures SlotsHold(ram[..], start, Capacity(), sampleSize, contents)
      ensures TableNext(segs, firstAbs, firstAbs + count)
      ensures segs[|segs| - 1] == Entry(old(firstAbs + count), base, synced)
      ensures evicted > 0 ==> |old(segs)| == TABLE_SIZE && evicted == old(segs)[1].origin - old(firstAbs)
      ensures evicted > 0 ==> count < Capacity()
      ensures old(count) > 0 ==> forall a :: firstAbs <= a < firstAbs + count ==> EntryOf(segs, a) == old(EntryOf(segs, a))
    {
      hide SlotsHold, EntryOf;
      evicted := 0;
      if |segs| == TABLE_SIZE {
        evicted := segs[1].origin - firstAbs;
        DropOldest(evicted);
        forall a | firstAbs <= a
          ensures EntryOf(segs[1..], a) == EntryOf(segs, a)
        {
          EntryOfDrop(segs, a);
        }
        segs := segs[1..];
      }
      ghost var kept := segs;
      segs := segs + [Entry(firstAbs + count, base, synced)];
      if kept != [] {
        forall a | firstAbs <= a < firstAbs + count
          ensures EntryOf(segs, a) == EntryOf(kept, a)
        {
          EntryOfAppend(kept, segs[|segs| - 1], a);
        }
      }
    }

    /** The buffer is full: the oldest record goes, and with it the segments that end before it. */
    method DropForRoom()
      requires |contents| == count == Capacity() > 0
      requires SlotsHold(ram[..], start, Capacity(), sampleSize, contents)
      requires TableNext(segs, firstAbs, firstAbs + count)
      modifies `start, `count, `firstAbs, `segs, `contents
      ensures count == old(count) - 1 && firstAbs == old(firstAbs) + 1 && contents == old(contents)[1..] && |contents| == count
      ensures SlotsHold(ram[..], start, Capacity(), sampleSize, contents)
      ensures TableNext(segs, firstAbs, firstAbs + count)
      ensures segs[|segs| - 1] == old(segs)[|old(segs)| - 1]
      ensures forall a :: firstAbs <= a ==> EntryOf(segs, a) == old(EntryOf(segs, a))
    {
      hide SlotsHold, EntryOf;
      SlotsDrop(ram[..], start, Capacity(), sampleSize, contents, 1);
      start := (start + 1) % Capacity();
      count := count - 1;
      firstAbs := firstAbs + 1;
      contents := contents[1..];
      while |segs| > 1 && segs[1].origin <= firstAbs
        modifies `segs
        invariant 1 <= |segs| <= TABLE_SIZE && segs[0].origin <= firstAbs
        invariant segs[|segs| - 1] == old(segs)[|old(segs)| - 1]
        invariant forall i :: 1 <= i < |segs| ==> firstAbs <= segs[i].origin <= firstAbs + count
        invariant forall i, j :: 0 <= i < j < |segs| ==> segs[i].origin < segs[j].origin
        invariant forall a :: firstAbs <= a ==> EntryOf(segs, a) == old(EntryOf(segs, a))
      {
        forall a | firstAbs <= a
          ensures EntryOf(segs[1..], a) == EntryOf(segs, a)
        {
          EntryOfDrop(segs, a);
        }
        segs := segs[1..];
      }
    }

    /** A segment and a slot for one more record. */
    method MakeRoom(base: nat, synced: bool, split: bool) returns (evicted: nat)
      requires Valid() && Capacity() > 0
      modifies `start, `count, `firstAbs, `segs, `contents
      ensures evicted <= old(count) && count == old(count) - evicted && firstAbs == old(firstAbs) + evicted
      ensures contents == old(contents)[evicted..] && |contents| == count < Capacity()
      ensures SlotsHold(ram[..], start, Capacity(), sampleSize, contents)
      ensures TableNext(segs, firstAbs, firstAbs + count)
      ensures segs[|segs| - 1] ==
                if split || old(count) == 0 then Entry(old(firstAbs + count), base, synced) else old(segs)[|old(segs)| - 1]
      ensures old(count) > 0 ==> forall a :: firstAbs <= a < old(firstAbs + count) ==> EntryOf(segs, a) == old(EntryOf(segs, a))
      ensures evicted > 0 ==> old(count) == Capacity() || (split && |old(segs)| == TABLE_SIZE)
      ensures evicted > 1 ==> |old(segs)| == TABLE_SIZE && evicted == old(segs)[1].origin - old(firstAbs)
    {
      hide SlotsHold, EntryOf, TableOk, TableNext;
      evicted := 0;
      if count == 0 {
        segs := [];
      } else {
        TableOkNext(segs, firstAbs, firstAbs + count);
      }
      if segs == [] || split {
        evicted := OpenSegment(base, synced);
      }
      if count >= Capacity() {
        DropForRoom();
        evicted := evicted + 1;
      }
    }

    /** Append one record; `split` makes it open a new segment. The oldest ordinal rises by exactly
        `evicted`, and the records kept are the ones that were there, under the same ordinals and in
        the same segments. */
    method Append(rec: Record, base: nat, synced: bool, split: bool) returns (evicted: nat)
      requires Valid() && Capacity() > 0 && |rec| == sampleSize
      modifies ram, `start, `count, `firstAbs, `segs, `contents
      ensures Valid() && evicted <= old(count) && firstAbs == old(firstAbs) + evicted
      ensures contents == old(contents)[evicted..] + [rec]
      ensures old(count) > 0 ==> forall a :: firstAbs <= a < old(firstAbs + count) ==> EntryOf(segs, a) == old(EntryOf(segs, a))
      ensures EntryOf(segs, old(firstAbs + count)) ==
                if split || old(count) == 0 then Entry(old(firstAbs + count), base, synced) else old(segs)[|old(segs)| - 1]
      ensures evicted > 0 ==> old(count) == Capacity() || (split && |old(segs)| == TABLE_SIZE)
      ensures evicted > 1 ==> |old(segs)| == TABLE_SIZE && evicted == old(segs)[1].origin - old(firstAbs)
      // what time the new record has, and that no other gets another
      ensures KeepsStamps(old(Segs()), Segs(), interval, firstAbs, old(firstAbs + count))
      ensures HasStamp(Segs(), interval, old(firstAbs + count),
                       if split || old(count) == 0 then Stamp(base % TWO_32, synced, true) else NextStamp(old(Segs()), interval))
    {
      hide SlotsHold, EntryOf, TableOk, TableNext, HasStamp, KeepsStamps, NextStamp, Table;
      ghost var was, first, next, opens := segs, firstAbs, firstAbs + count, split || count == 0;
      evicted := MakeRoom(base, synced, split);
      TableNextOk(segs, firstAbs, next);
      EntryOfLast(segs, next);
      StoreRecord(rec);
      AppendStamps(was, first, next, segs, firstAbs, firstAbs + count, base, synced, opens, interval);
    }

    /** `head_next_time`: every segment is of this boot. */
    method NextTime() returns (next: Option<Clock>)
      requires Valid()
      ensures next == HeadNext(Segs(), interval)
    {
      hide SlotsHold;
      next := None;
      if count > 0 {
        var e := segs[|segs| - 1];
        LastAt(segs, firstAbs, firstAbs + count);
        next := Some(Clock((e.base + (firstAbs + count - e.origin) * interval) % TWO_32, e.synced));
      }
    }

    /** The end of `capture`: append `rec`, taken at `slot` or, without one, off the report cadence. A
        slot off the grid opens a segment. The record's time is then that of its slot, to half an interval. */
    method Capture(rec: Record, slot: Option<Clock>, now: Clock) returns (evicted: nat)
      requires Valid() && Capacity() > 0 && |rec| == sampleSize && now.time < TWO_32 && (slot.Some? ==> slot.value.time < TWO_32)
      modifies ram, `start, `count, `firstAbs, `segs, `contents
      ensures Valid() && evicted <= old(count) && firstAbs == old(firstAbs) + evicted && contents == old(contents)[evicted..] + [rec]
      ensures KeepsStamps(old(Segs()), Segs(), interval, firstAbs, old(firstAbs + count))
      ensures Captured(old(Segs()), Segs(), interval, old(firstAbs + count), slot, now)
    {
      hide SlotsHold, EntryOf, HasStamp, KeepsStamps, NextStamp, HeadNext, Captured, CapturePlan, Table, TableOk;
      ghost var was, a, none := Segs(), firstAbs + count, count == 0;
      HeadNextIs(segs, firstAbs, a, interval);
      var next := NextTime();
      var plan := CapturePlan(next, interval, slot, now);
      evicted := Append(rec, plan.0.time, plan.0.synced, plan.1);
      PlannedStamp(was, Segs(), interval, a, slot, now, plan.1 || none);
    }

    method CopyIn(off: nat, rec: Record)
      requires off + |rec| <= ram.Length
      modifies ram
      ensures ram[..] == old(ram[..off]) + rec + old(ram[off + |rec|..])
    {
      forall i | 0 <= i < |rec| {
        ram[off + i] := rec[i];
      }
    }

    /** Copy `rec` into the slot after the newest record. */
    method StoreRecord(rec: Record)
      requires |contents| == count < Capacity() && |rec| == sampleSize && ram.Length <= 0xFFFF
      requires SlotsHold(ram[..], start, Capacity(), sampleSize, contents)
      requires TableNext(segs, firstAbs, firstAbs + count)
      modifies ram, `count, `contents
      ensures Valid() && count == old(count) + 1 && contents == old(contents) + [rec]
    {
      hide SlotHolds, SlotsHold, TableOk, TableNext, SlotOf;
      SlotsStart(ram[..], start, Capacity(), sampleSize, contents);
      TableNextOk(segs, firstAbs, firstAbs + count);
      var slot, off := NextSlot();
      ghost var was := ram[..];
      CopyIn(off, rec);
      SlotsStore(was, start, Capacity(), sampleSize, contents, rec, slot, off);
      count := count + 1;
      contents := contents + [rec];
    }

    /** Where the next record goes. */
    method NextSlot() returns (slot: nat, off: nat)
      requires count < Capacity() && start < Capacity()
      ensures slot == SlotOf(start, count, Capacity()) && off == slot * sampleSize && off + sampleSize <= ram.Length
    {
      ModOnce(start + count, Capacity());
      slot := (start + count) % Capacity();
      SlotRange(slot, Capacity(), sampleSize, ram.Length);
      off := slot * sampleSize;
    }

    /** The record at absolute ordinal `abs`. */
    method Read(abs: nat) returns (r: Option<Record>)
      requires Valid()
      ensures firstAbs <= abs < firstAbs + count ==> r == Some(contents[abs - firstAbs])
      ensures abs < firstAbs || abs >= firstAbs + count ==> r == None
    {
      if abs < firstAbs || abs - firstAbs >= count {
        return None;
      }
      ModOnce(start + (abs - firstAbs), Capacity());
      var slot := (start + (abs - firstAbs)) % Capacity();
      assert SlotHolds(ram[..], start, Capacity(), sampleSize, contents, abs - firstAbs);
      r := Some(ram[slot * sampleSize..slot * sampleSize + sampleSize]);
    }

    /** Drop all records and take a new record size and report interval; ordinals are not rewound. */
    method ResetLogical(size: nat, interval': nat)
      requires Valid()
      modifies `sampleSize, `interval, `start, `count, `firstAbs, `segs, `contents
      ensures Valid() && contents == [] && sampleSize == size && interval == interval' && firstAbs == old(firstAbs + count)
    {
      firstAbs := firstAbs + count;
      start, count, segs := 0, 0, [];
      sampleSize, interval := size, interval';
      contents := [];
    }

    /** A clock sync re-bases entry `i`: the records of that entry, and no others, get another time. */
    method SegSync(i: nat, offset: nat)
      requires Valid() && i < |segs|
      modifies `segs
      ensures Valid()
      ensures segs == old(segs)[i := Entry(old(segs)[i].origin, (old(segs)[i].base + offset) % TWO_32, true)]
      ensures forall a: nat :: EntryOf(segs, a) == if IndexOf(old(segs), a) == i then segs[i] else old(EntryOf(segs, a))
    {
      SyncEntries(segs, i, Entry(segs[i].origin, (segs[i].base + offset) % TWO_32, true));
      segs := segs[i := Entry(segs[i].origin, (segs[i].base + offset) % TWO_32, true)];
    }

    /** The RTC was set: the entries stamped on uptime get unix times, and no record another. */
    method OnClockSync(offset: nat)
      requires Valid()
      modifies `segs
      ensures Valid() && |segs| == |old(segs)|
      ensures MovesStamps(old(Segs()), Segs(), interval, offset)
    {
      hide SlotsHold, TableOk, EntryOf, MovesStamps;
      var nseg := if count == 0 then 0 else |segs|;
      ghost var was := segs;
      var i := 0;
      while i < nseg
        invariant 0 <= i <= nseg <= |segs| == |was| && Valid()
        invariant forall k :: 0 <= k < i ==> segs[k] == SyncedEntry(was[k], offset)
        invariant forall k :: i <= k < |was| ==> segs[k] == was[k]
      {
        if !segs[i].synced {
          SegSync(i, offset);
        }
        i := i + 1;
      }
      if count > 0 {
        SyncStamps(was, segs, firstAbs, firstAbs + count, offset, interval);
      } else {
        MovedAll([], [], interval, offset);
      }
    }
  }
}
