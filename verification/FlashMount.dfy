/** Recovery of the page ring from the flash alone: which ring a mount builds, that it is a valid
    one, and what it keeps of the ring that was there before the reboot. */
module FlashMount {
  import opened Bytes
  import opened FlashDevice
  import opened FlashRingState

  predicate Matches(c: Crcs, pg: Page, layout: nat, size: nat) {
    && HeaderValid(c.header, pg.hdr)
    && size != 0 && pg.hdr.body.layout == layout && pg.hdr.body.sampleSize == size
  }

  /** `p` is the page a mount takes for the head: the newest one of the current layout. */
  predicate IsHead(c: Crcs, pages: seq<Page>, layout: nat, size: nat, p: nat) {
    && p < |pages| && Matches(c, pages[p], layout, size)
    && forall q :: 0 <= q < |pages| && Matches(c, pages[q], layout, size) ==>
         pages[q].hdr.body.seqNo <= pages[p].hdr.body.seqNo
  }

  /** No valid page, of whatever layout, is newer than `p`. */
  predicate NoneNewer(c: Crcs, pages: seq<Page>, p: nat) {
    && p < |pages|
    && forall q :: 0 <= q < |pages| && HeaderValid(c.header, pages[q].hdr) ==>
         pages[q].hdr.body.seqNo <= pages[p].hdr.body.seqNo
  }

  /** The backward walk from `head` collects exactly `len` pages. */
  predicate IsChain(c: Crcs, pages: seq<Page>, head: nat, len: nat) {
    && head < |pages| && 1 <= len <= |pages|
    && (forall i :: 1 <= i < len ==> Linked(c.header, pages[Back(head, i, |pages|)], pages[Back(head, i - 1, |pages|)]))
    && (len < |pages| ==> !Linked(c.header, pages[Back(head, len, |pages|)], pages[Back(head, len - 1, |pages|)]))
  }

  function MountPage(c: Crcs, pg: Page, phys: nat): LivePage {
    var t := DurableTime(c, pg);
    LivePage(pg.hdr.body.firstOrd, t.0, phys, t.1, false, false)
  }

  /** The page `k` steps behind the head of the chain. */
  function ChainPage(c: Crcs, pages: seq<Page>, head: nat, k: nat): (lp: LivePage)
    requires head < |pages| && k < |pages|
    ensures lp.phys == Back(head, k, |pages|) < |pages|
  {
    MountPage(c, pages[Back(head, k, |pages|)], Back(head, k, |pages|))
  }

  function ChainLive(c: Crcs, pages: seq<Page>, head: nat, len: nat): (live: seq<LivePage>)
    requires head < |pages| && len <= |pages|
    ensures |live| == len && forall i :: 0 <= i < len ==> live[i] == ChainPage(c, pages, head, len - 1 - i)
  {
    if len == 0 then [] else [ChainPage(c, pages, head, len - 1)] + ChainLive(c, pages, head, len - 1)
  }

  function WholeIn(bytes: nat, size: nat): (n: nat)
    requires size > 0
    ensures n * size <= bytes < (n + 1) * size
  {
    bytes / size
  }

  /** Number of whole records in the flushed bytes of the head page. */
  function RecoveredCount(pg: Page, size: nat): (n: nat)
    requires size > 0 && |pg.dws| == PAYLOAD_DW
    ensures n * size <= DW_DATA * WrittenDw(pg.dws) && n * size <= PAGE_DATA
    ensures DW_DATA * WrittenDw(pg.dws) < (n + 1) * size || PAGE_DATA < (n + 1) * size
  {
    var n, most := WholeIn(DW_DATA * WrittenDw(pg.dws), size), WholeIn(PAGE_DATA, size);
    MulMono(if n > most then most else n, if n > most then n else most, size);
    if n > most then most else n
  }

  /** The records a mount finds in the head page. */
  function Recovered(pg: Page, size: nat): seq<Record>
    requires size > 0 && |pg.dws| == PAYLOAD_DW
  {
    Slots(Flushed(pg.dws, WrittenDw(pg.dws)), RecoveredCount(pg, size), size)
  }

  /** The first `n` records of `size` bytes of a stream. */
  function Slots(st: seq<byte>, n: nat, size: nat): (rs: seq<Record>)
    ensures |rs| == n && forall j :: 0 <= j < n ==> rs[j] == Slot(st, j, size)
  {
    if n == 0 then [] else Slots(st, n - 1, size) + [Slot(st, n - 1, size)]
  }

  /** Ordinal at which the page after live page `k` starts. */
  function NextOrd(live: seq<LivePage>, end: nat, k: nat): nat {
    if k + 1 < |live| then live[k + 1].firstOrd else end
  }

  /** The records of the live pages, oldest first. */
  function Concat(recs: seq<seq<Record>>, live: seq<LivePage>): seq<Record>
    requires forall i :: 0 <= i < |live| ==> live[i].phys < |recs|
  {
    if live == [] then [] else Concat(recs, live[..|live| - 1]) + recs[live[|live| - 1].phys]
  }

  predicate CanMount(r: Ring, head: nat, len: nat) {
    && head < |r.pages| == |r.recs| && 1 <= len <= |r.pages| && r.size > 0 && |r.pages[head].dws| == PAYLOAD_DW
  }

  /** The ring a mount builds on the chain of `len` pages ending at `head`. */
  function Mounted(c: Crcs, r: Ring, head: nat, len: nat): Ring
    requires CanMount(r, head, len)
  {
    var pg := r.pages[head];
    var live := ChainLive(c, r.pages, head, len);
    var recs := r.recs[head := Recovered(pg, r.size)];
    Ring(r.pages, r.layout, r.size, pg.hdr.body.interval, live, pg.hdr.body.seqNo + 1,
         pg.hdr.body.firstOrd + RecoveredCount(pg, r.size), head, WrittenDw(pg.dws), [], true,
         Concat(recs, live), recs, false)
  }

  // ---- The records of the head page ------------------------------------------------------------

  lemma MulStep(n: nat, size: nat)
    requires n > 0
    ensures (n - 1) * size + size == n * size && 0 <= (n - 1) * size
  {
  }

  lemma LastSlot(st: seq<byte>, n: nat, size: nat, m: nat)
    requires m == n * size <= |st| && n > 0
    ensures size <= m && (n - 1) * size == m - size && Slot(st, n - 1, size) == st[m - size..m]
  {
    MulStep(n, size);
  }

  lemma SlotsStep(st: seq<byte>, n: nat, size: nat)
    ensures Flat(Slots(st, 0, size)) == []
    ensures n > 0 ==> Slots(st, n, size) == Slots(st, n - 1, size) + [Slot(st, n - 1, size)]
  {
    hide Slot;
  }

  lemma {:induction false} FlatSlots(st: seq<byte>, n: nat, size: nat, m: nat)
    requires m == n * size <= |st|
    ensures Flat(Slots(st, n, size)) == st[..m]
  {
    hide Slot, Slots, Flat;
    SlotsStep(st, n, size);
    if n > 0 {
      LastSlot(st, n, size, m);
      FlatSlots(st, n - 1, size, m - size);
      FlatAppend(Slots(st, n - 1, size), Slot(st, n - 1, size));
      assert st[..m - size] + st[m - size..m] == st[..m];
    }
  }

  /** Records cut from a stream are of the right size. */
  lemma SlotsSized(st: seq<byte>, n: nat, size: nat)
    requires n * size <= |st|
    ensures Sized(Slots(st, n, size), size)
  {
    hide Slots;
    forall j | 0 <= j < n
      ensures |Slot(st, j, size)| == size
    {
      MulBelow(j, n, size);
    }
  }

  /** The records a mount finds in a page, as a stream. */
  lemma RecoveredFlat(pg: Page, size: nat)
    requires size > 0 && |pg.dws| == PAYLOAD_DW
    ensures var st := Flushed(pg.dws, WrittenDw(pg.dws)); var n := RecoveredCount(pg, size);
      && n * size <= |st| && n * size <= PAGE_DATA && (|st| < n * size + size || PAGE_DATA < n * size + size)
      && Flat(Recovered(pg, size)) == st[..n * size] && Sized(Recovered(pg, size), size)
  {
    hide Flushed, Flat, WrittenDw, RecoveredCount, Sized, Slots;
    var st := Flushed(pg.dws, WrittenDw(pg.dws));
    var n := RecoveredCount(pg, size);
    FlatSlots(st, n, size, n * size);
    SlotsSized(st, n, size);
    assert (n + 1) * size == n * size + size;
  }

  lemma RecoveredClean(c: Crcs, pg: Page, rs: seq<Record>)
    requires PageClean(c.header, pg, rs) && HeaderValid(c.header, pg.hdr)
    ensures var size := pg.hdr.body.sampleSize; var st := Flushed(pg.dws, WrittenDw(pg.dws));
      && PageClean(c.header, pg, Recovered(pg, size))
      && Flat(Recovered(pg, size)) == st[..RecoveredCount(pg, size) * size]
      && |st| < |Flat(Recovered(pg, size))| + size
  {
    hide Flushed, Flat, WrittenDw, RecoveredCount, Recovered, Sized;
    RecoveredFlat(pg, pg.hdr.body.sampleSize);
  }

  // ---- The runs of the chain -------------------------------------------------------------------

  /** The pages hold consecutive runs of records, the last of which ends at `end`. */
  ghost predicate Chained(recs: seq<seq<Record>>, live: seq<LivePage>, end: nat) {
    && (forall k :: 0 <= k < |live| ==> live[k].phys < |recs|)
    && (forall k {:trigger NextOrd(live, end, k)} :: 0 <= k < |live| ==>
          live[k].firstOrd + |recs[live[k].phys]| == NextOrd(live, end, k))
  }

  lemma ChainedAt(recs: seq<seq<Record>>, live: seq<LivePage>, end: nat, k: nat)
    requires Chained(recs, live, end) && k < |live|
    ensures live[k].phys < |recs| && live[k].firstOrd + |recs[live[k].phys]| == NextOrd(live, end, k)
  {
  }

  lemma {:induction false} OrdUp(recs: seq<seq<Record>>, live: seq<LivePage>, end: nat, i: nat)
    requires Chained(recs, live, end) && i < |live|
    ensures live[0].firstOrd <= live[i].firstOrd
  {
    hide Chained;
    if i > 0 {
      OrdUp(recs, live, end, i - 1);
      ChainedAt(recs, live, end, i - 1);
    }
  }

  lemma {:induction false} OrdDown(recs: seq<seq<Record>>, live: seq<LivePage>, end: nat, i: nat)
    requires Chained(recs, live, end) && i < |live|
    ensures live[i].firstOrd <= NextOrd(live, end, i) <= end
    decreases |live| - i
  {
    hide Chained;
    ChainedAt(recs, live, end, i);
    if i + 1 < |live| {
      OrdDown(recs, live, end, i + 1);
    }
  }

  lemma ChainedFront(recs: seq<seq<Record>>, live: seq<LivePage>, end: nat)
    requires Chained(recs, live, end) && |live| > 1
    ensures Chained(recs, live[..|live| - 1], live[|live| - 1].firstOrd)
    ensures forall i :: 0 <= i < |live| ==> live[i].phys < |recs|
  {
    var front, mid := live[..|live| - 1], live[|live| - 1].firstOrd;
    forall k: nat | k < |front|
      ensures front[k].firstOrd + |recs[front[k].phys]| == NextOrd(front, mid, k)
    {
      assert live[k].firstOrd + |recs[live[k].phys]| == NextOrd(live, end, k);
    }
  }

  lemma {:induction false} ConcatRun(recs: seq<seq<Record>>, live: seq<LivePage>, end: nat, i: nat)
    requires Chained(recs, live, end) && i < |live|
    ensures live[0].firstOrd <= live[i].firstOrd <= NextOrd(live, end, i) <= end
    ensures |Concat(recs, live)| == end - live[0].firstOrd
    ensures Concat(recs, live)[live[i].firstOrd - live[0].firstOrd..NextOrd(live, end, i) - live[0].firstOrd]
            == recs[live[i].phys]
  {
    hide Chained;
    var n := |live|;
    OrdUp(recs, live, end, i);
    OrdDown(recs, live, end, i);
    ChainedAt(recs, live, end, n - 1);
    if n == 1 {
      assert live[..0] == [];
    } else {
      var front, mid := live[..n - 1], live[n - 1].firstOrd;
      ChainedFront(recs, live, end);
      ConcatRun(recs, front, mid, if i < n - 1 then i else 0);
      SlicesOf(Concat(recs, front), recs[live[n - 1].phys], live[i].firstOrd - live[0].firstOrd, NextOrd(live, end, i) - live[0].firstOrd);
    }
  }

  lemma SlicesOf(a: seq<Record>, b: seq<Record>, lo: nat, hi: nat)
    ensures lo <= hi <= |a| ==> (a + b)[lo..hi] == a[lo..hi]
    ensures lo == |a| && hi == |a| + |b| ==> (a + b)[lo..hi] == b
  {
  }

  // ---- The mounted ring is valid ---------------------------------------------------------------

  /** What a mount needs of the flash: it is clean, and the chain ends at the newest page of all. */
  ghost predicate Mountable(c: Crcs, r: Ring, head: nat, len: nat) {
    && 3 <= |r.pages| && |r.pages| * 1764 <= 0xFFFF && CanMount(r, head, len)
    && DiskClean(c.header, r.pages, r.recs)
    && head < |r.pages| && Matches(c, r.pages[head], r.layout, r.size)
    && NoneNewer(c, r.pages, head) && IsChain(c, r.pages, head, len)
  }

  /** Pages of the chain carry the head's layout, and sequence numbers falling by one. */
  lemma {:induction false} ChainHeader(c: Crcs, pages: seq<Page>, head: nat, len: nat, k: nat)
    requires IsChain(c, pages, head, len) && k < len && HeaderValid(c.header, pages[head].hdr)
    ensures var h, g := pages[Back(head, k, |pages|)].hdr, pages[head].hdr;
      && HeaderValid(c.header, h) && h.body.layout == g.body.layout && h.body.sampleSize == g.body.sampleSize
      && h.body.interval == g.body.interval && h.body.seqNo + k == g.body.seqNo
  {
    if k > 0 {
      ChainHeader(c, pages, head, len, k - 1);
      assert Linked(c.header, pages[Back(head, k, |pages|)], pages[Back(head, k - 1, |pages|)]);
    }
  }

  lemma BackNext(p: nat, k: nat, n: nat)
    requires p < n && 0 < k < n
    ensures Next(Back(p, k, n), n) == Back(p, k - 1, n)
    ensures Back(Back(p, k - 1, n), 1, n) == Back(p, k, n)
  {
  }

  /** Rewriting the record list of the newest page leaves the disk clean. */
  lemma RecoveredDisk(c: Crcs, r: Ring, head: nat)
    requires DiskClean(c.header, r.pages, r.recs) && head < |r.pages| && Matches(c, r.pages[head], r.layout, r.size)
    requires NoneNewer(c, r.pages, head)
    ensures DiskClean(c.header, r.pages, r.recs[head := Recovered(r.pages[head], r.size)])
  {
    hide Recovered, RecoveredCount, Flat, Flushed, WrittenDw;
    assert PageClean(c.header, r.pages[head], r.recs[head]);
    RecoveredClean(c, r.pages[head], r.recs[head]);
    DiskWithPayload(c.header, r.pages, r.recs, head, r.pages[head], Recovered(r.pages[head], r.size));
    assert r.pages[head := r.pages[head]] == r.pages;
  }

  lemma ChainStep(c: Crcs, pages: seq<Page>, recs: seq<seq<Record>>, head: nat, len: nat, j: nat)
    requires IsChain(c, pages, head, len) && DiskClean(c.header, pages, recs) && 0 < j < len
    ensures ChainPage(c, pages, head, j).firstOrd + |recs[Back(head, j, |pages|)]| == ChainPage(c, pages, head, j - 1).firstOrd
  {
    hide PageClean, HeaderValid, Linked;
    BackNext(head, j, |pages|);
    assert Linked(c.header, pages[Back(head, j, |pages|)], pages[Back(head, j - 1, |pages|)]);
  }

  lemma MountedChained(c: Crcs, r: Ring, head: nat, len: nat)
    requires Mountable(c, r, head, len)
    ensures var m := Mounted(c, r, head, len);
      |m.live| == len && Chained(m.recs, m.live, m.absOrd) && m.contents == Concat(m.recs, m.live)
  {
    hide RecoveredCount, Flat, Flushed, WrittenDw, PageClean, DiskClean, IsChain, NoneNewer, Linked, HeaderValid;
    var m := Mounted(c, r, head, len);
    RecoveredDisk(c, r, head);
    forall k | 0 <= k < len
      ensures m.live[k].firstOrd + |m.recs[m.live[k].phys]| == NextOrd(m.live, m.absOrd, k)
    {
      var j := len - 1 - k;
      assert m.live[k] == ChainPage(c, r.pages, head, j);
      if j > 0 {
        assert m.live[k + 1] == ChainPage(c, r.pages, head, j - 1);
        ChainStep(c, r.pages, m.recs, head, len, j);
      }
    }
  }

  lemma {:induction false} ConcatSized(recs: seq<seq<Record>>, live: seq<LivePage>, size: nat)
    requires forall k :: 0 <= k < |live| ==> live[k].phys < |recs| && Sized(recs[live[k].phys], size)
    ensures Sized(Concat(recs, live), size)
  {
    if live != [] {
      ConcatSized(recs, live[..|live| - 1], size);
    }
  }

  lemma {:induction false} OrdMono(recs: seq<seq<Record>>, live: seq<LivePage>, end: nat, i: nat, j: nat)
    requires Chained(recs, live, end) && i <= j < |live|
    ensures live[i].firstOrd <= live[j].firstOrd
  {
    hide Chained;
    if i < j {
      OrdMono(recs, live, end, i, j - 1);
      ChainedAt(recs, live, end, j - 1);
    }
  }

  lemma ChainedOrdered(recs: seq<seq<Record>>, live: seq<LivePage>, end: nat)
    requires Chained(recs, live, end)
    ensures Ordered(live)
  {
    hide Chained;
    forall i, j | 0 <= i <= j < |live|
      ensures live[i].firstOrd <= live[j].firstOrd
    {
      OrdMono(recs, live, end, i, j);
    }
  }

  /** A page of the chain, under the records the mounted ring has for it. */
  lemma ChainClean(c: Crcs, r: Ring, head: nat, len: nat, i: nat)
    requires Mountable(c, r, head, len) && i < len
    ensures var m := Mounted(c, r, head, len); var lp := m.live[i];
      && lp.phys < |m.pages| && lp == ChainPage(c, r.pages, head, len - 1 - i)
      && PageClean(c.header, m.pages[lp.phys], m.recs[lp.phys])
      && m.pages[lp.phys].hdr.body.seqNo + len == m.nextSeq + i
      && HeaderValid(c.header, m.pages[lp.phys].hdr)
      && m.pages[lp.phys].hdr.body.layout == r.layout && m.pages[lp.phys].hdr.body.sampleSize == r.size
      && m.pages[lp.phys].hdr.body.interval == m.interval && m.pages[lp.phys].hdr.body.firstOrd == lp.firstOrd
  {
    hide Recovered, RecoveredCount, Flat, Flushed, WrittenDw, PageClean, Linked, IsChain;
    RecoveredDisk(c, r, head);
    ChainHeader(c, r.pages, head, len, len - 1 - i);
  }

  /** The runs of a ring whose contents are the records of its chain. */
  lemma ChainedRun(m: Ring, i: nat)
    requires Chained(m.recs, m.live, m.absOrd) && m.contents == Concat(m.recs, m.live) && i < |m.live|
    ensures m.FirstAbs() <= m.live[i].firstOrd <= m.End(i) <= m.absOrd && |m.contents| == m.absOrd - m.FirstAbs()
    ensures m.live[i].phys < |m.recs| && m.Run(i) == m.recs[m.live[i].phys]
  {
    hide Chained, Concat;
    ChainedAt(m.recs, m.live, m.absOrd, i);
    ConcatRun(m.recs, m.live, m.absOrd, i);
    assert m.End(i) == NextOrd(m.live, m.absOrd, i);
  }

  lemma MountedRuns(c: Crcs, r: Ring, head: nat, len: nat)
    requires Mountable(c, r, head, len)
    ensures Mounted(c, r, head, len).Shape() && Mounted(c, r, head, len).RunsOk()
  {
    hide Recovered, RecoveredCount, Flat, Flushed, WrittenDw, DiskClean, IsChain, NoneNewer, Matches, Concat,
      Ring.Run, HeaderValid, Tidy, Agrees;
    var m := Mounted(c, r, head, len);
    MountedShape(c, r, head, len);
    MountedChained(c, r, head, len);
    forall i: nat | i < len
      ensures m.FirstAbs() <= m.live[i].firstOrd <= m.End(i) <= m.absOrd && |m.contents| == m.absOrd - m.FirstAbs()
      ensures m.Run(i) == m.recs[m.live[i].phys] && |Flat(m.Run(i))| <= PAGE_DATA && Sized(m.recs[m.live[i].phys], r.size)
    {
      ChainedRun(m, i);
      ChainClean(c, r, head, len, i);
    }
    ChainedRun(m, 0);
    ConcatSized(m.recs, m.live, r.size);
    ChainedOrdered(m.recs, m.live, m.absOrd);
    hide Chained, Ordered, Sized, Mounted;
  }

  lemma MountedShape(c: Crcs, r: Ring, head: nat, len: nat)
    requires Mountable(c, r, head, len)
    ensures Mounted(c, r, head, len).Shape() && |r.recs| == |r.pages|
  {
    hide Recovered, RecoveredCount, Flat, Flushed, Concat;
  }

  lemma MountedHeaders(c: Crcs, r: Ring, head: nat, len: nat)
    requires Mountable(c, r, head, len) && Mounted(c, r, head, len).Shape()
    ensures Mounted(c, r, head, len).HeadersOk(c) && Mounted(c, r, head, len).TimesOk(c)
  {
    hide Recovered, RecoveredCount, Flat, Flushed, WrittenDw, Concat;
    var m := Mounted(c, r, head, len);
    forall i | 0 <= i < len
      ensures m.HeaderOk(c, i) && TimeOk(c, m.live[i], m.pages[m.live[i].phys])
    {
      ChainClean(c, r, head, len, i);
    }
    assert m.live[0] == ChainPage(c, r.pages, head, len - 1);
    if len < |r.pages| {
      BackNext(head, len, |r.pages|);
    }
  }

  /** A mount on clean flash gives a valid ring. */
  lemma MountedValid(c: Crcs, r: Ring, head: nat, len: nat)
    requires Mountable(c, r, head, len)
    ensures Mounted(c, r, head, len).Valid(c)
  {
    hide Recovered, RecoveredCount, Flat, Flushed, WrittenDw, Concat, Ring.RunsOk, Ring.HeadersOk, Ring.TimesOk, IsChain, NoneNewer,
      Ring.Run, Linked;
    var m := Mounted(c, r, head, len);
    MountedRuns(c, r, head, len);
    MountedHeaders(c, r, head, len);
    RecoveredDisk(c, r, head);
    assert m.live[len - 1] == ChainPage(c, r.pages, head, 0);
    RecoveredClean(c, r.pages[head], r.recs[head]);
    assert Flushed(m.pages[head].dws, m.headDw) + [] == Flushed(m.pages[head].dws, m.headDw);
  }

  // ---- What a reboot keeps ---------------------------------------------------------------------

  /** How many of the live pages a reboot cannot find: one, if the oldest is erased already. */
  function Gone(r: Ring): nat {
    if r.wiped then 1 else 0
  }

  lemma RebootHead(c: Crcs, r: Ring, head: nat)
    requires r.Valid(c) && r.live != [] && IsHead(c, r.pages, r.layout, r.size, head)
    ensures head == r.lastPhys && NoneNewer(c, r.pages, head)
  {
    hide Flat, Flushed, WrittenDw, PageClean, Linked, Ring.RunsOk, Ring.HeadOk, Ring.TimesOk;
    NextIsOldest(r);
    assert r.HeaderOk(c, |r.live| - 1);
    assert Matches(c, r.pages[r.lastPhys], r.layout, r.size);
  }

  lemma LiveLinked(c: Crcs, r: Ring, i: nat)
    requires r.Shape() && r.HeadersOk(c) && 1 <= i < |r.live| - Gone(r)
    ensures Linked(c.header, r.pages[Back(r.lastPhys, i, |r.pages|)], r.pages[Back(r.lastPhys, i - 1, |r.pages|)])
  {
    assert r.HeaderOk(c, |r.live| - 1 - i);
    assert r.HeaderOk(c, |r.live| - i);
  }

  lemma LiveEnds(c: Crcs, r: Ring)
    requires r.Shape() && r.HeadersOk(c) && r.live != [] && |r.live| - Gone(r) < |r.pages|
    ensures var n := |r.live| - Gone(r);
      0 < n && !Linked(c.header, r.pages[Back(r.lastPhys, n, |r.pages|)], r.pages[Back(r.lastPhys, n - 1, |r.pages|)])
  {
    BackNext(r.lastPhys, |r.live| - Gone(r), |r.pages|);
  }

  /** The backward walk of a mount collects exactly the live pages. */
  lemma RebootChain(c: Crcs, r: Ring, head: nat, len: nat)
    requires r.Valid(c) && r.live != []
    requires IsHead(c, r.pages, r.layout, r.size, head) && IsChain(c, r.pages, head, len)
    ensures head == r.lastPhys && len == |r.live| - Gone(r) && Mountable(c, r, head, len)
  {
    hide Flat, Flushed, WrittenDw, PageClean, Linked, Ring.RunsOk, Ring.HeadOk, Ring.TimesOk;
    ValidShape(c, r);
    RebootHead(c, r, head);
    var n := |r.live| - Gone(r);
    if len < n {
      LiveLinked(c, r, len);
    }
    if n < |r.pages| {
      LiveEnds(c, r);
    }
  }

  /** Live page `i` of the mounted ring is the page that was live before, its time read from flash. */
  lemma RebootPage(c: Crcs, r: Ring, i: nat)
    requires r.Shape() && r.HeadersOk(c) && i + Gone(r) < |r.live| && CanMount(r, r.lastPhys, |r.live| - Gone(r))
    ensures var m := Mounted(c, r, r.lastPhys, |r.live| - Gone(r)); var was := r.live[i + Gone(r)];
      && i < |m.live| && was.phys < |r.pages|
      && m.live[i] == MountPage(c, r.pages[was.phys], was.phys) && m.live[i].firstOrd == was.firstOrd
  {
    hide Recovered, RecoveredCount, Flat, Flushed, WrittenDw, Concat;
    var len := |r.live| - Gone(r);
    assert Mounted(c, r, r.lastPhys, len).live[i] == ChainPage(c, r.pages, r.lastPhys, len - 1 - i);
    assert r.HeaderOk(c, i + Gone(r));
  }

  lemma RebootFields(c: Crcs, r: Ring)
    requires r.live != [] && CanMount(r, r.lastPhys, |r.live| - Gone(r))
    ensures var len := |r.live| - Gone(r); var m := Mounted(c, r, r.lastPhys, len);
      && |m.live| == len && m.pages == r.pages && m.size == r.size && m.layout == r.layout
      && m.lastPhys == r.lastPhys && m.stage == [] && m.headFull && !m.wiped
      && m.headDw == WrittenDw(r.pages[r.lastPhys].dws)
      && m.recs == r.recs[r.lastPhys := Recovered(r.pages[r.lastPhys], r.size)]
      && m.absOrd == r.pages[r.lastPhys].hdr.body.firstOrd + RecoveredCount(r.pages[r.lastPhys], r.size)
  {
    hide Recovered, RecoveredCount, Flat, Flushed, WrittenDw, Concat;
  }

  lemma CountIs(c: Crcs, r: Ring)
    requires r.Shape() && r.RunsOk() && r.live != []
    ensures var n := r.absOrd - r.Head().firstOrd;
      && r.Head().firstOrd <= r.absOrd
      && |Flat(r.Run(|r.live| - 1))| == n * r.size <= PAGE_DATA && (n + 1) * r.size == n * r.size + r.size
  {
    hide Flat, Back;
    RunRange(r, |r.live| - 1);
    FlatLength(r.Run(|r.live| - 1), r.size);
    var n := r.absOrd - r.Head().firstOrd;
    assert (n + 1) * r.size == n * r.size + r.size;
  }

  /** Only records of less than a double word can be made up of padding, on a page that is closed. */
  lemma PhantomNeedsPadding(c: Crcs, r: Ring)
    requires r.Valid(c) && Phantom(r)
    ensures r.headFull && r.size < DW_DATA && r.stage == []
  {
    hide Flat, Flushed, WrittenDw, Ring.HeadersOk, Ring.TimesOk, DiskClean;
    ValidShape(c, r);
    CountIs(c, r);
    RunRange(r, |r.live| - 1);
    NextIsOldest(r);
  }

  // -- Records --

  lemma RebootEnds(c: Crcs, r: Ring, i: nat)
    requires r.Shape() && r.HeadersOk(c) && i + Gone(r) + 1 < |r.live| && CanMount(r, r.lastPhys, |r.live| - Gone(r))
    ensures var m := Mounted(c, r, r.lastPhys, |r.live| - Gone(r)); var k := i + Gone(r);
      && i < |m.live| && m.live[i].firstOrd == r.live[k].firstOrd && m.End(i) == r.End(k)
      && m.live[i].phys == r.live[k].phys < |r.recs| && m.recs[m.live[i].phys] == r.recs[m.live[i].phys]
  {
    hide Recovered, RecoveredCount, Flat, Flushed, WrittenDw, Concat, Mounted;
    RebootFields(c, r);
    RebootPage(c, r, i);
    RebootPage(c, r, i + 1);
    NextIsOldest(r);
  }

  lemma RebootRun(c: Crcs, r: Ring, i: nat)
    requires r.Valid(c) && i + Gone(r) + 1 < |r.live| && Mountable(c, r, r.lastPhys, |r.live| - Gone(r))
    ensures var m := Mounted(c, r, r.lastPhys, |r.live| - Gone(r)); var k := i + Gone(r);
      && m.Shape() && m.RunsOk() && i < |m.live| && m.Run(i) == r.Run(k)
      && m.live[i].firstOrd == r.live[k].firstOrd && m.End(i) == r.End(k)
  {
    hide Recovered, RecoveredCount, Flat, Flushed, WrittenDw, Concat, Mounted, Ring.HeadersOk, Ring.TimesOk, Ring.HeadOk, DiskClean,
      Ring.Run, Ring.RunsOk, IsChain, NoneNewer, Matches, Sized, Ring.End, Ring.Rec, Ring.Shape;
    MountedRuns(c, r, r.lastPhys, |r.live| - Gone(r));
    RebootFields(c, r);
    RebootEnds(c, r, i);
    RunRange(Mounted(c, r, r.lastPhys, |r.live| - Gone(r)), i);
    RunRange(r, i + Gone(r));
  }

  lemma PageBehindHead(r: Ring, a: nat, first: nat)
    requires r.live != [] && r.live[0].firstOrd <= first <= a < r.Head().firstOrd && a < r.absOrd
    requires Gone(r) + 1 < |r.live| && first == r.live[Gone(r)].firstOrd
    ensures var p := PageOf(r.live, a, |r.live| - 1); Gone(r) <= p < |r.live| - 1 && r.live[p].firstOrd <= a < r.End(p)
  {
    PageOfRange(r, a);
  }

  lemma RebootRecAt(c: Crcs, r: Ring, p: nat, a: nat)
    requires r.Valid(c) && Mountable(c, r, r.lastPhys, |r.live| - Gone(r))
    requires Gone(r) <= p < |r.live| - 1 && r.live[p].firstOrd <= a < r.End(p)
    ensures var m := Mounted(c, r, r.lastPhys, |r.live| - Gone(r)); a < m.absOrd && m.Rec(a) == r.Rec(a)
  {
    hide Recovered, RecoveredCount, Flat, Flushed, WrittenDw, Concat, Mounted, PageOf, Ring.Valid, DiskClean, Ring.Shape,
      Ring.Run, Ring.Rec, IsChain, NoneNewer, Matches, Sized, Ring.End;
    var m := Mounted(c, r, r.lastPhys, |r.live| - Gone(r));
    RebootRun(c, r, p - Gone(r));
    RunRange(m, p - Gone(r));
    RunRangeOf(c, r, p);
  }

  /** A record of a page behind the head is found again, as it was. */
  lemma RebootOldRecord(c: Crcs, r: Ring, a: nat)
    requires r.Valid(c) && r.live != [] && Mountable(c, r, r.lastPhys, |r.live| - Gone(r))
    requires var m := Mounted(c, r, r.lastPhys, |r.live| - Gone(r)); m.FirstAbs() <= a < r.Head().firstOrd
    ensures var m := Mounted(c, r, r.lastPhys, |r.live| - Gone(r)); a < m.absOrd && m.Rec(a) == r.Rec(a)
  {
    hide Recovered, RecoveredCount, Flat, Flushed, WrittenDw, Concat, Mounted, PageOf, Ring.Valid, DiskClean, Ring.Shape, Ring.RunsOk,
      Ring.Run, Ring.Rec, IsChain, NoneNewer, Matches, Sized, Ring.End;
    ValidShape(c, r);
    RebootFields(c, r);
    OldestFirst(c, r);
    PageBehindHead(r, a, Mounted(c, r, r.lastPhys, |r.live| - Gone(r)).FirstAbs());
    RebootRecAt(c, r, PageOf(r.live, a, |r.live| - 1), a);
  }

  lemma RunRangeOf(c: Crcs, r: Ring, p: nat)
    requires r.Valid(c) && p < |r.live|
    ensures r.live[p].firstOrd <= r.End(p) && |r.Run(p)| == r.End(p) - r.live[p].firstOrd
    ensures forall a :: r.live[p].firstOrd <= a < r.End(p) ==> r.Rec(a) == r.Run(p)[a - r.live[p].firstOrd]
  {
    hide Flat, Flushed, WrittenDw, Ring.RunsOk, Ring.HeadersOk, Ring.HeadOk, Ring.TimesOk, DiskClean, Ring.Run,
      Ring.Rec;
    RunRange(r, p);
  }

  lemma OldestFirst(c: Crcs, r: Ring)
    requires r.Valid(c) && r.live != [] && Mountable(c, r, r.lastPhys, |r.live| - Gone(r))
    ensures var m := Mounted(c, r, r.lastPhys, |r.live| - Gone(r));
      && Gone(r) < |r.live| && m.FirstAbs() == r.live[Gone(r)].firstOrd && r.live[0].firstOrd <= m.FirstAbs()
      && (r.live[Gone(r)].firstOrd < r.Head().firstOrd ==> Gone(r) + 1 < |r.live|)
  {
    hide Recovered, RecoveredCount, Flat, Flushed, WrittenDw, Concat, Mounted, Ring.TimesOk, Ring.HeadOk, DiskClean,
      IsChain, NoneNewer, Matches, Sized, Ring.Run;
    RebootPage(c, r, 0);
    RebootFields(c, r);
  }

  /** How many records of the head page a mount counts, against how many were written there. */
  lemma HeadRecovered(c: Crcs, r: Ring, k: nat)
    requires r.Valid(c) && r.live != [] && CanMount(r, r.lastPhys, |r.live| - Gone(r))
    ensures var pg := r.pages[r.lastPhys]; var count := r.absOrd - r.Head().firstOrd;
      && WrittenDw(pg.dws) == r.headDw && pg.hdr.body.firstOrd == r.Head().firstOrd <= r.absOrd
      && (k < RecoveredCount(pg, r.size) <==> (k + 1) * r.size <= DW_DATA * r.headDw && (k + 1) * r.size <= PAGE_DATA)
      && (k < count ==> (k + 1) * r.size <= PAGE_DATA)
  {
    hide Flat, Flushed, WrittenDw, Ring.TimesOk, DiskClean, WholeIn, RecoveredCount;
    var pg := r.pages[r.lastPhys];
    NextIsOldest(r);
    CountIs(c, r);
    assert r.HeaderOk(c, |r.live| - 1);
    var n := RecoveredCount(pg, r.size);
    var count := r.absOrd - r.Head().firstOrd;
    if k < n {
      MulMono(k + 1, n, r.size);
    } else {
      MulMono(n + 1, k + 1, r.size);
    }
    if k < count {
      MulMono(k + 1, count, r.size);
    }
  }

  lemma MulMono(a: nat, b: nat, s: nat)
    requires a <= b
    ensures a * s <= b * s
  {
    assert b * s == a * s + (b - a) * s;
  }

  /** A record of the head page, if it is still counted, is found as it was. */
  lemma RebootHeadRecord(c: Crcs, r: Ring, a: nat)
    requires r.Valid(c) && r.live != [] && Mountable(c, r, r.lastPhys, |r.live| - Gone(r))
    requires r.Head().firstOrd <= a < r.absOrd
    requires a < Mounted(c, r, r.lastPhys, |r.live| - Gone(r)).absOrd
    ensures Mounted(c, r, r.lastPhys, |r.live| - Gone(r)).Rec(a) == r.Rec(a)
  {
    hide Recovered, RecoveredCount, Flat, Flushed, WrittenDw, Concat, Mounted, PageOf, Ring.Valid, DiskClean, Ring.Shape,
      Ring.Run, Ring.Rec, IsChain, NoneNewer, Matches, Sized, Ring.RunsOk;
    var len := |r.live| - Gone(r);
    var m := Mounted(c, r, r.lastPhys, len);
    ValidShape(c, r);
    RebootFields(c, r);
    HeadRecovered(c, r, a - r.Head().firstOrd);
    MountedRuns(c, r, r.lastPhys, len);
    HeadRunSame(c, r, a - r.Head().firstOrd);
    RebootPage2(c, r, len - 1);
    RunRange(m, len - 1);
    RunRangeOf(c, r, |r.live| - 1);
  }

  lemma RebootPage2(c: Crcs, r: Ring, i: nat)
    requires r.Valid(c) && i + Gone(r) < |r.live| && CanMount(r, r.lastPhys, |r.live| - Gone(r))
    ensures var m := Mounted(c, r, r.lastPhys, |r.live| - Gone(r)); var was := r.live[i + Gone(r)];
      i < |m.live| && m.live[i].phys == was.phys < |r.pages| && m.live[i].firstOrd == was.firstOrd
  {
    hide Recovered, RecoveredCount, Flat, Flushed, WrittenDw, Concat, Mounted, Ring.RunsOk, DiskClean, Ring.HeadOk, Ring.HeadersOk,
      Ring.TimesOk;
    RebootPage(c, r, i);
  }

  /** The `k`-th record a mount finds in the head page is the `k`-th one written there. */
  lemma HeadRunSame(c: Crcs, r: Ring, k: nat)
    requires r.Valid(c) && r.live != [] && CanMount(r, r.lastPhys, |r.live| - Gone(r))
    requires k < RecoveredCount(r.pages[r.lastPhys], r.size) && k < r.absOrd - r.Head().firstOrd
    ensures k < |r.Run(|r.live| - 1)| && Recovered(r.pages[r.lastPhys], r.size)[k] == r.Run(|r.live| - 1)[k]
  {
    hide Flat, Flushed, WrittenDw, RecoveredCount, Ring.Run, Slot, Ring.Valid, Sized, Agrees;
    var pg := r.pages[r.lastPhys];
    HeadAgrees(c, r);
    HeadRecovered(c, r, k);
    SlotIs(Flushed(pg.dws, WrittenDw(pg.dws)), r.Run(|r.live| - 1), r.size, k);
  }

  /** What is flushed to the head page agrees with its records. */
  lemma HeadAgrees(c: Crcs, r: Ring)
    requires r.Valid(c) && r.live != []
    ensures var rs := r.Run(|r.live| - 1); var pg := r.pages[r.lastPhys];
      && r.lastPhys < |r.pages| && Sized(rs, r.size) && |rs| == r.absOrd - r.Head().firstOrd
      && Agrees(Flushed(pg.dws, WrittenDw(pg.dws)), rs)
  {
    hide Flat, Flushed, WrittenDw, Ring.Run, Ring.TimesOk, Ring.HeadOk, Linked, Agrees, Sized, Tidy;
    NextIsOldest(r);
    RunRange(r, |r.live| - 1);
    assert r.HeaderOk(c, |r.live| - 1);
    assert PageClean(c.header, r.pages[r.lastPhys], r.recs[r.lastPhys]);
  }

  lemma HeadDurable(c: Crcs, r: Ring, a: nat)
    requires r.Valid(c) && r.live != [] && r.Head().firstOrd <= a < r.absOrd
    ensures r.Durable(a) <==> (a - r.Head().firstOrd + 1) * r.size <= DW_DATA * r.headDw
  {
    hide Flat, Flushed, WrittenDw, Ring.Valid, Tidy, PageOf, Ring.Shape;
    PageOfIs(r.live, a, |r.live| - 1, |r.live| - 1);
    ValidShape(c, r);
    FirstUp(c, r);
  }

  lemma FirstUp(c: Crcs, r: Ring)
    requires r.Valid(c) && r.live != []
    ensures r.FirstAbs() <= r.Head().firstOrd
  {
    hide Flat, Ring.HeadersOk, Ring.HeadOk, Ring.TimesOk, DiskClean, Ring.Run;
  }

  /** Which of the stored records are still counted after a reboot. */
  lemma RebootCounts(c: Crcs, r: Ring, a: nat)
    requires r.Valid(c) && r.live != [] && Mountable(c, r, r.lastPhys, |r.live| - Gone(r))
    requires var m := Mounted(c, r, r.lastPhys, |r.live| - Gone(r)); m.FirstAbs() <= a < r.absOrd
    ensures var m := Mounted(c, r, r.lastPhys, |r.live| - Gone(r));
      && (a < m.absOrd <==> a < r.Head().firstOrd || r.Durable(a))
      && (a < m.absOrd ==> m.Rec(a) == r.Rec(a))
  {
    hide Recovered, RecoveredCount, Flat, Flushed, WrittenDw, Concat, Mounted, PageOf, Ring.Valid, Mountable, Ring.Shape,
      Ring.Run, Ring.Rec, Ring.Durable, Sized;
    if a < r.Head().firstOrd {
      RebootOldRecord(c, r, a);
    } else {
      MountableCan(c, r, r.lastPhys, |r.live| - Gone(r));
      RebootFields(c, r);
      HeadRecovered(c, r, a - r.Head().firstOrd);
      HeadDurable(c, r, a);
      if a < Mounted(c, r, r.lastPhys, |r.live| - Gone(r)).absOrd {
        RebootHeadRecord(c, r, a);
      }
    }
  }

  lemma PageOfShift(a: seq<LivePage>, b: seq<LivePage>, w: nat, x: nat)
    requires |b| > 0 && |b| + w == |a| && b[0].firstOrd <= x
    requires forall i :: 0 <= i < |b| ==> b[i].firstOrd == a[i + w].firstOrd
    ensures var p := PageOf(a, x, |a| - 1); w <= p && PageOf(b, x, |b| - 1) == p - w && a[p].firstOrd <= x
  {
    hide PageOf;
    var p := PageOf(a, x, |a| - 1);
    assert a[w].firstOrd <= x;
    assert w <= p;
    PageOfIs(b, x, |b| - 1, p - w);
  }

  /** The live pages after a reboot are the live pages before it, but for an erased oldest one. */
  ghost predicate SamePages(r: Ring, m: Ring) {
    && |m.live| + Gone(r) == |r.live|
    && forall i :: 0 <= i < |m.live| ==>
         m.live[i].phys == r.live[i + Gone(r)].phys && m.live[i].firstOrd == r.live[i + Gone(r)].firstOrd
  }

  lemma RebootPages(c: Crcs, r: Ring)
    requires r.Valid(c) && r.live != [] && CanMount(r, r.lastPhys, |r.live| - Gone(r))
    ensures SamePages(r, Mounted(c, r, r.lastPhys, |r.live| - Gone(r)))
  {
    hide Mounted, Ring.Valid, CanMount;
    RebootFields(c, r);
    var m := Mounted(c, r, r.lastPhys, |r.live| - Gone(r));
    forall i | 0 <= i < |m.live|
      ensures m.live[i].phys == r.live[i + Gone(r)].phys && m.live[i].firstOrd == r.live[i + Gone(r)].firstOrd
    {
      RebootPage2(c, r, i);
    }
  }

  lemma IntactAgain(r: Ring, m: Ring, a: nat)
    requires r.Shape() && m.Shape() && SamePages(r, m) && m.live != [] && r.Durable(a) && m.FirstAbs() <= a < m.absOrd
    requires m.pages == r.pages && m.size == r.size && m.stage == [] && m.lastPhys == r.lastPhys
    requires m.headDw == WrittenDw(m.pages[m.lastPhys].dws)
    ensures m.Intact(a)
  {
    hide WrittenDw, PageOf;
    PageOfShift(r.live, m.live, Gone(r), a);
  }

  /** What was on flash in full still is where a read looks for it. */
  lemma RebootIntact(c: Crcs, r: Ring, a: nat)
    requires r.Valid(c) && r.live != [] && Mountable(c, r, r.lastPhys, |r.live| - Gone(r)) && r.Durable(a)
    requires Mounted(c, r, r.lastPhys, |r.live| - Gone(r)).FirstAbs() <= a
    ensures Mounted(c, r, r.lastPhys, |r.live| - Gone(r)).Intact(a)
  {
    hide WrittenDw, Mounted, PageOf, Ring.Valid, Mountable, Ring.RunsOk, SamePages, Ring.Durable, Ring.Intact, Ring.Shape,
      Recovered, RecoveredCount, Ring.Run, Ring.Rec;
    MountableCan(c, r, r.lastPhys, |r.live| - Gone(r));
    ValidShape(c, r);
    RebootFields(c, r);
    MountedRuns(c, r, r.lastPhys, |r.live| - Gone(r));
    RebootPages(c, r);
    BehindOrDurable(r, a);
    RebootCounts(c, r, a);
    IntactAgain(r, Mounted(c, r, r.lastPhys, |r.live| - Gone(r)), a);
  }

  lemma BehindOrDurable(r: Ring, a: nat)
    requires r.Durable(a)
    ensures r.FirstAbs() <= a < r.absOrd
  {
  }

  lemma MountableCan(c: Crcs, r: Ring, head: nat, len: nat)
    requires Mountable(c, r, head, len)
    ensures CanMount(r, head, len)
  {
  }

  lemma RebootPhantom(c: Crcs, r: Ring)
    requires r.Valid(c) && r.live != [] && CanMount(r, r.lastPhys, |r.live| - Gone(r))
    ensures Mounted(c, r, r.lastPhys, |r.live| - Gone(r)).absOrd <= r.absOrd <==> !Phantom(r)
  {
    hide Recovered, RecoveredCount, Flat, Flushed, WrittenDw, Concat, Mounted, Ring.Valid;
    RebootFields(c, r);
    HeadRecovered(c, r, 0);
    HeadRecovered(c, r, r.absOrd - r.Head().firstOrd);
  }

  /** If record `a` was stored, and its page not yet erased, then `m` has it, unchanged, exactly if it
      was behind the head page or flushed in full; and what was flushed in full can be read. */
  ghost predicate RecoversRecord(r: Ring, m: Ring, a: nat)
    requires r.live != []
  {
    && (m.FirstAbs() <= a < r.absOrd ==>
          && (a < m.absOrd <==> a < r.Head().firstOrd || r.Durable(a))
          && (a < m.absOrd ==> m.Rec(a) == r.Rec(a)))
    && (m.FirstAbs() <= a && r.Durable(a) ==> m.Intact(a))
  }

  lemma RebootRecord(c: Crcs, r: Ring, a: nat)
    requires r.Valid(c) && r.live != [] && Mountable(c, r, r.lastPhys, |r.live| - Gone(r))
    ensures CanMount(r, r.lastPhys, |r.live| - Gone(r))
    ensures RecoversRecord(r, Mounted(c, r, r.lastPhys, |r.live| - Gone(r)), a)
  {
    hide Mounted, Ring.Valid, Mountable, Ring.Durable, Ring.Intact, Ring.Rec, Ring.FirstAbs;
    MountableCan(c, r, r.lastPhys, |r.live| - Gone(r));
    var m := Mounted(c, r, r.lastPhys, |r.live| - Gone(r));
    if m.FirstAbs() <= a < r.absOrd {
      RebootCounts(c, r, a);
    }
    if m.FirstAbs() <= a && r.Durable(a) {
      RebootIntact(c, r, a);
    }
  }

  /** `m` is what a reboot makes of the ring `r`: the pages that were live (but for an oldest page
      already erased), and, of their records, exactly those behind the head page and those of the
      head page that are on flash in full, bytes and ordinals unchanged. A record nobody wrote is
      counted if and only if the head page ends in one record's worth of padding. */
  ghost predicate Recovers(r: Ring, m: Ring) {
    && m.lastPhys == r.lastPhys && 0 < |m.live| && r.live != [] && SamePages(r, m)
    && (forall a: nat :: RecoversRecord(r, m, a))
    && (m.absOrd <= r.absOrd <==> !Phantom(r))
  }

  /** Reboot recovery, whatever page a mount takes for the head and however far it walks back. */
  lemma RebootRecovers(c: Crcs, r: Ring, head: nat, len: nat)
    requires r.Valid(c) && r.live != []
    requires IsHead(c, r.pages, r.layout, r.size, head) && IsChain(c, r.pages, head, len)
    ensures head == r.lastPhys && len == |r.live| - Gone(r) && NoneNewer(c, r.pages, head)
    ensures CanMount(r, head, len) && Mounted(c, r, head, len).Valid(c)
    ensures Recovers(r, Mounted(c, r, head, len))
  {
    hide Recovered, RecoveredCount, Flat, Flushed, WrittenDw, Concat, Mounted, PageOf, Ring.Intact, Ring.Valid, Mountable, Ring.Shape,
      Ring.Run, Ring.Rec, Ring.Durable, Phantom, IsHead, IsChain, NoneNewer, SamePages, RecoversRecord;
    RebootHead(c, r, head);
    RebootChain(c, r, head, len);
    MountableCan(c, r, head, len);
    MountedValid(c, r, head, len);
    RebootPhantom(c, r);
    RebootFields(c, r);
    RebootPages(c, r);
    forall a: nat
      ensures RecoversRecord(r, Mounted(c, r, head, len), a)
    {
      RebootRecord(c, r, a);
    }
  }

  // ---- For the mount itself --------------------------------------------------------------------

  lemma EmptyValid(c: Crcs, r: Ring)
    requires 3 <= |r.pages| && |r.pages| * 1764 <= 0xFFFF && r.lastPhys < |r.pages| && DiskClean(c.header, r.pages, r.recs)
    requires r.live == [] && r.headDw == 0 && r.stage == [] && !r.wiped && r.contents == []
    requires forall p :: 0 <= p < |r.pages| && HeaderValid(c.header, r.pages[p].hdr) ==> r.pages[p].hdr.body.seqNo + 1 < r.nextSeq
    ensures r.Valid(c)
  {
  }

  lemma MountReady(c: Crcs, r: Ring, head: nat)
    requires DiskClean(c.header, r.pages, r.recs) && IsHead(c, r.pages, r.layout, r.size, head)
    ensures head < |r.pages| == |r.recs| && |r.pages[head].dws| == PAYLOAD_DW && r.size > 0
    ensures Matches(c, r.pages[head], r.layout, r.size)
  {
    assert PageClean(c.header, r.pages[head], r.recs[head]);
  }

  lemma ChainCan(c: Crcs, r: Ring, head: nat, len: nat)
    requires IsChain(c, r.pages, head, len) && |r.recs| == |r.pages| && r.size > 0
    requires head < |r.pages| && |r.pages[head].dws| == PAYLOAD_DW
    ensures CanMount(r, head, len)
  {
  }

  lemma BackMod(p: nat, i: nat, n: nat)
    requires p < n && i < n
    ensures (p + n - i) % n == Back(p, i, n)
  {
    if i <= p {
      assert (p + n - i) % n == (p - i + n) % n == p - i;
    }
  }

  /** The mounted ring depends on the flash and the record layout only, not on the RAM. */
  lemma SameMounted(c: Crcs, a: Ring, b: Ring, head: nat, len: nat)
    requires a.pages == b.pages && a.recs == b.recs && a.layout == b.layout && a.size == b.size
    requires CanMount(a, head, len)
    ensures CanMount(b, head, len) && Mounted(c, a, head, len) == Mounted(c, b, head, len)
  {
  }

  lemma ValidDisk(c: Crcs, r: Ring)
    requires r.Valid(c)
    ensures DiskClean(c.header, r.pages, r.recs) && |r.pages| * 1764 <= 0xFFFF
  {
    hide DiskClean;
  }

  lemma HeadMatches(c: Crcs, r: Ring)
    requires r.Valid(c) && r.live != []
    ensures r.lastPhys < |r.pages| && Matches(c, r.pages[r.lastPhys], r.layout, r.size)
  {
    hide Flat, Flushed, WrittenDw, DiskClean, Linked, Ring.RunsOk, Ring.HeadOk, Ring.TimesOk;
    NextIsOldest(r);
    assert r.HeaderOk(c, |r.live| - 1);
  }

  // ---- Where the recovery is not exact ---------------------------------------------------------

  /** Closing an open head page early, on a slot discontinuity, pads its staged tail. If no page is
      opened after it (a replay holds the rollover off, or it fails), the next mount counts a record
      of padding exactly when the padding had room for one. */
  lemma EarlyCloseMakesPhantom(c: Crcs, r: Ring, dw: DoubleWord)
    requires r.Valid(c) && r.live != [] && !r.headFull && r.stage != [] && r.headDw < |r.pages[r.lastPhys].dws|
    ensures |r.recs| == |r.pages| && r.Head().phys == r.lastPhys
    ensures Phantom(WithHead(r, r.pages[r.lastPhys].dws[r.headDw := dw], r.headDw + 1, [], true, []))
       <==> |r.stage| + r.size <= DW_DATA
  {
    hide Flat, Flushed, WrittenDw, Ring.HeadersOk, Ring.TimesOk, DiskClean, Ring.RunsOk, Ring.HeadOk;
    ValidShape(c, r);
    HeadCount(c, r);
    HeadRoom(c, r);
    var n := r.absOrd - r.Head().firstOrd;
    assert (n + 1) * r.size == n * r.size + r.size;
  }

  /** After a mount the next page's sequence number is above all others if and only if no page of
      another layout is newer than the chain. */
  lemma FreshSequenceNumber(c: Crcs, r: Ring, head: nat, len: nat)
    requires CanMount(r, head, len) && HeaderValid(c.header, r.pages[head].hdr)
    ensures (forall q :: 0 <= q < |r.pages| && HeaderValid(c.header, r.pages[q].hdr) ==>
               r.pages[q].hdr.body.seqNo < Mounted(c, r, head, len).nextSeq)
       <==> NoneNewer(c, r.pages, head)
  {
    hide Recovered, RecoveredCount, Flat, Flushed, WrittenDw, Concat;
  }

  /** A logical reset lives in RAM only: a reboot before the next append brings the records back. */
  lemma ResetUndoneByReboot(c: Crcs, r: Ring, interval: nat, head: nat, len: nat)
    requires r.Valid(c) && r.live != []
    requires var s := Reset(r, r.layout, r.size, interval);
      IsHead(c, s.pages, s.layout, s.size, head) && IsChain(c, s.pages, head, len)
    ensures var s := Reset(r, r.layout, r.size, interval);
      s.contents == [] && CanMount(s, head, len) && Recovers(r, Mounted(c, s, head, len))
  {
    hide Recovers, Ring.Valid, IsHead, IsChain, Mounted;
    RebootRecovers(c, r, head, len);
    SameMounted(c, r, Reset(r, r.layout, r.size, interval), head, len);
  }
}
