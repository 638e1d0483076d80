/** The state of the flash page ring as a value, its invariant, and the steps that keep it: writing
    to the head page, erasing the next page, opening it. `HistoryFlash` runs these steps on a real
    flash device. */
module FlashRingState {
  import opened Bytes
  import opened FlashDevice
  import opened Segments

  type Record = seq<byte>

  datatype LivePage = LivePage(
    firstOrd: nat,      // absolute ordinal of the page's first record
    baseTime: nat,      // time of that record
    phys: nat,          // physical page
    synced: bool,       // baseTime is unix time
    curBoot: bool,      // opened during this boot
    fixPending: bool)   // the fix-up double word is still to be programmed

  datatype AppendResult = Appended | NoDevice | BadLayout | Busy | FlashError

  // ---- Physical neighbours in the ring of pages ----------------------------------------------

  function Next(p: nat, n: nat): nat
    requires p < n
  {
    if p + 1 == n then 0 else p + 1
  }

  function Back(p: nat, i: nat, n: nat): (r: nat)
    requires p < n && i <= n
    ensures r < n
  {
    if i <= p then p - i else p + n - i
  }

  // ---- What a page on flash holds ------------------------------------------------------------

  predicate HeaderValid(crc: HeaderBody -> nat, h: Header) {
    h.body.magic == PAGE_MAGIC && h.crc == crc(h.body)
  }

  predicate Sized(rs: seq<Record>, size: nat) {
    forall k :: 0 <= k < |rs| ==> |rs[k]| == size
  }

  /** The records of a page as one stream of bytes. */
  function Flat(rs: seq<Record>): seq<byte> {
    if rs == [] then [] else Flat(rs[..|rs| - 1]) + rs[|rs| - 1]
  }

  /** The stream `st` and the records `rs` agree as far as both reach. */
  ghost predicate Agrees(st: seq<byte>, rs: seq<Record>) {
    st <= Flat(rs) || Flat(rs) <= st
  }

  /** `rs` are the records written to the page, `pg`: those flushed in full read back. */
  ghost predicate PageClean(crc: HeaderBody -> nat, pg: Page, rs: seq<Record>) {
    && |pg.dws| == PAYLOAD_DW
    && (HeaderValid(crc, pg.hdr) ==>
          && Tidy(pg.dws)
          && 0 < pg.hdr.body.sampleSize <= PAGE_DATA && pg.hdr.body.baseTime < TWO_32
          && |Flat(rs)| <= PAGE_DATA && Sized(rs, pg.hdr.body.sampleSize)
          && Agrees(Flushed(pg.dws, WrittenDw(pg.dws)), rs))
  }

  /** `b` continues the run of `a`: what the backward walk of a mount follows. */
  predicate Linked(crc: HeaderBody -> nat, a: Page, b: Page) {
    && HeaderValid(crc, a.hdr) && HeaderValid(crc, b.hdr)
    && a.hdr.body.layout == b.hdr.body.layout
    && a.hdr.body.sampleSize == b.hdr.body.sampleSize
    && a.hdr.body.interval == b.hdr.body.interval
    && b.hdr.body.seqNo == a.hdr.body.seqNo + 1
  }

  /** What the ring keeps true of the flash alone, whatever the RAM holds. `recs[p]` are the records
      written to physical page p. */
  ghost predicate DiskClean(crc: HeaderBody -> nat, pages: seq<Page>, recs: seq<seq<Record>>) {
    && |recs| == |pages|
    && (forall p :: 0 <= p < |pages| ==> PageClean(crc, pages[p], recs[p]))
    && (forall p :: 0 <= p < |pages| && Linked(crc, pages[p], pages[Next(p, |pages|)]) ==>
          pages[Next(p, |pages|)].hdr.body.firstOrd == pages[p].hdr.body.firstOrd + |recs[p]|)
    && (forall p, q :: 0 <= p < q < |pages| && HeaderValid(crc, pages[p].hdr) && HeaderValid(crc, pages[q].hdr) ==>
          pages[p].hdr.body.seqNo != pages[q].hdr.body.seqNo)
  }

  // ---- Locating a record ----------------------------------------------------------------------

  /** The page `backend_read` picks: the newest one, at most `p`, that starts at or before `a`. */
  function PageOf(live: seq<LivePage>, a: nat, p: nat): (r: nat)
    requires p < |live|
    ensures r <= p && (r == 0 || live[r].firstOrd <= a)
    ensures forall q :: r < q <= p ==> live[q].firstOrd > a
  {
    if p == 0 || live[p].firstOrd <= a then p else PageOf(live, a, p - 1)
  }

  /** What `len` bytes at record position `k` of a stream are; empty when the stream ends before. */
  function Slot(st: seq<byte>, k: nat, size: nat): seq<byte> {
    if k * size + size <= |st| then st[k * size..k * size + size] else []
  }

  lemma FlatAppend(rs: seq<Record>, rec: Record)
    ensures Flat(rs + [rec]) == Flat(rs) + rec
  {
    assert (rs + [rec])[..|rs|] == rs;
  }

  lemma {:induction false} FlatPrefix(rs: seq<Record>, j: nat)
    requires j <= |rs|
    ensures Flat(rs[..j]) <= Flat(rs)
  {
    if j < |rs| {
      assert rs[..|rs| - 1][..j] == rs[..j];
      FlatPrefix(rs[..|rs| - 1], j);
    } else {
      assert rs[..j] == rs;
    }
  }

  lemma {:induction false} FlatLength(rs: seq<Record>, size: nat)
    requires Sized(rs, size)
    ensures |Flat(rs)| == |rs| * size
  {
    if rs != [] {
      FlatLength(rs[..|rs| - 1], size);
      assert |rs| * size == (|rs| - 1) * size + size;
    }
  }

  /** Record `j` of a page sits at offset j * size of any stream that reaches its last byte. */
  lemma SlotIs(st: seq<byte>, rs: seq<Record>, size: nat, j: nat)
    requires Agrees(st, rs) && Sized(rs, size)
    requires j < |rs| && (j + 1) * size <= |st|
    ensures j * size + size <= |st| && Slot(st, j, size) == rs[j]
  {
    assert (j + 1) * size == j * size + size;
    FlatPrefix(rs, j + 1);
    FlatPrefix(rs, j);
    FlatLength(rs[..j], size);
    FlatLength(rs[..j + 1], size);
    assert rs[..j + 1] == rs[..j] + [rs[j]];
    FlatAppend(rs[..j], rs[j]);
    var f := Flat(rs);
    assert f[..j * size + size] == Flat(rs[..j]) + rs[j];
    assert st[..j * size + size] == f[..j * size + size];
  }

  /** Changing the payload of a page, its header kept, leaves the disk clean. */
  lemma DiskWithPayload(crc: HeaderBody -> nat, pages: seq<Page>, recs: seq<seq<Record>>, p: nat, pg: Page, rs: seq<Record>)
    requires DiskClean(crc, pages, recs) && p < |pages|
    requires pg.hdr == pages[p].hdr && PageClean(crc, pg, rs)
    requires |rs| == |recs[p]| || !Linked(crc, pages[p], pages[Next(p, |pages|)])
    ensures DiskClean(crc, pages[p := pg], recs[p := rs])
  {
    var pages', recs' := pages[p := pg], recs[p := rs];
    forall q | 0 <= q < |pages| && Linked(crc, pages'[q], pages'[Next(q, |pages|)])
      ensures pages'[Next(q, |pages|)].hdr.body.firstOrd == pages'[q].hdr.body.firstOrd + |recs'[q]|
    {
      assert Linked(crc, pages[q], pages[Next(q, |pages|)]);
    }
  }

  /** An erased page takes part in nothing. */
  lemma DiskWithErased(crc: HeaderBody -> nat, pages: seq<Page>, recs: seq<seq<Record>>, p: nat)
    requires DiskClean(crc, pages, recs) && p < |pages|
    ensures DiskClean(crc, pages[p := ErasedPage()], recs)
  {
    var pages' := pages[p := ErasedPage()];
    ErasedAlone(crc, pages[p], recs[p]);
    hide PageClean, HeaderValid;
    forall q | 0 <= q < |pages| && Linked(crc, pages'[q], pages'[Next(q, |pages|)])
      ensures pages'[Next(q, |pages|)].hdr.body.firstOrd == pages'[q].hdr.body.firstOrd + |recs[q]|
    {
      assert Linked(crc, pages[q], pages[Next(q, |pages|)]);
    }
  }

  lemma ErasedAlone(crc: HeaderBody -> nat, pg: Page, rs: seq<Record>)
    requires PageClean(crc, pg, rs)
    ensures !HeaderValid(crc, ErasedPage().hdr) && PageClean(crc, ErasedPage(), rs)
  {
  }

  /** Opening page `p`, erased before, with a sequence number above all others. */
  lemma DiskWithNewPage(crc: HeaderBody -> nat, pages: seq<Page>, recs: seq<seq<Record>>, p: nat, h: Header)
    requires DiskClean(crc, pages, recs) && p < |pages| && |pages| > 1
    requires pages[p] == ErasedPage() && 0 < h.body.sampleSize <= PAGE_DATA && h.body.baseTime < TWO_32
    requires forall q :: 0 <= q < |pages| && HeaderValid(crc, pages[q].hdr) ==> pages[q].hdr.body.seqNo < h.body.seqNo
    requires forall q :: 0 <= q < |pages| && Next(q, |pages|) == p && q != p && HeaderValid(crc, pages[q].hdr) && pages[q].hdr.body.seqNo + 1 == h.body.seqNo ==>
               h.body.firstOrd == pages[q].hdr.body.firstOrd + |recs[q]|
    ensures DiskClean(crc, pages[p := pages[p].(hdr := h)], recs[p := []])
  {
    hide PageClean, Linked, HeaderValid, Next;
    var pages', recs' := pages[p := pages[p].(hdr := h)], recs[p := []];
    ErasedClean(crc, h);
    NewPageLinks(crc, pages, recs, p, h);
    forall q, q' | 0 <= q < q' < |pages| && HeaderValid(crc, pages'[q].hdr) && HeaderValid(crc, pages'[q'].hdr)
      ensures pages'[q].hdr.body.seqNo != pages'[q'].hdr.body.seqNo
    {
    }
  }

  lemma ErasedClean(crc: HeaderBody -> nat, h: Header)
    requires 0 < h.body.sampleSize <= PAGE_DATA && h.body.baseTime < TWO_32
    ensures PageClean(crc, ErasedPage().(hdr := h), [])
  {
    ErasedIsTidy();
  }

  lemma NewPageLinks(crc: HeaderBody -> nat, pages: seq<Page>, recs: seq<seq<Record>>, p: nat, h: Header)
    requires DiskClean(crc, pages, recs) && p < |pages| && |pages| > 1
    requires forall q :: 0 <= q < |pages| && HeaderValid(crc, pages[q].hdr) ==> pages[q].hdr.body.seqNo < h.body.seqNo
    requires forall q :: 0 <= q < |pages| && Next(q, |pages|) == p && q != p && HeaderValid(crc, pages[q].hdr) && pages[q].hdr.body.seqNo + 1 == h.body.seqNo ==>
               h.body.firstOrd == pages[q].hdr.body.firstOrd + |recs[q]|
    ensures var pages', recs' := pages[p := pages[p].(hdr := h)], recs[p := []];
      forall q :: 0 <= q < |pages| && Linked(crc, pages'[q], pages'[Next(q, |pages|)]) ==>
        pages'[Next(q, |pages|)].hdr.body.firstOrd == pages'[q].hdr.body.firstOrd + |recs'[q]|
  {
    hide PageClean;
    var pages', recs' := pages[p := pages[p].(hdr := h)], recs[p := []];
    forall q | 0 <= q < |pages| && Linked(crc, pages'[q], pages'[Next(q, |pages|)])
      ensures pages'[Next(q, |pages|)].hdr.body.firstOrd == pages'[q].hdr.body.firstOrd + |recs'[q]|
    {
      if q != p && Next(q, |pages|) != p {
        assert Linked(crc, pages[q], pages[Next(q, |pages|)]);
      }
    }
  }

  /** The page that holds ordinal `a` is the only one whose range covers it. */
  lemma PageOfIs(live: seq<LivePage>, a: nat, top: nat, p: nat)
    requires top < |live| && p <= top
    requires live[p].firstOrd <= a || p == 0
    requires forall q :: p < q <= top ==> live[q].firstOrd > a
    ensures PageOf(live, a, top) == p
  {
  }

  /** Ordinals do not fall from page to page. */
  ghost predicate Ordered(live: seq<LivePage>) {
    forall i, j :: 0 <= i <= j < |live| ==> live[i].firstOrd <= live[j].firstOrd
  }

  // ---- The state of the ring, as a value -----------------------------------------------------

  /** CRC of a header body, and CRC of a fix-up seeded with the header's: left uninterpreted. */
  datatype Crcs = Crcs(header: HeaderBody -> nat, fixUp: (nat, nat) -> nat)

  /** Everything the ring is: the flash, the RAM that mirrors it, and, as ghosts of the class, the
      stored records (`contents`, oldest first), the records written to each physical page (`recs`)
      and whether the oldest page is erased but not yet given up (`wiped`). */
  datatype Ring = Ring(
    pages: seq<Page>,
    layout: nat, size: nat, interval: nat,
    live: seq<LivePage>, nextSeq: nat, absOrd: nat, lastPhys: nat,
    headDw: nat, stage: seq<byte>, headFull: bool,
    contents: seq<Record>, recs: seq<seq<Record>>, wiped: bool)
  {
    /** Ordinal of the oldest stored record. */
    function FirstAbs(): nat { if live == [] then absOrd else live[0].firstOrd }

    /** One past the last record of live page `i`. */
    function End(i: nat): nat
      requires i < |live|
    {
      if i + 1 < |live| then live[i + 1].firstOrd else absOrd
    }

    function Head(): LivePage
      requires live != []
    {
      live[|live| - 1]
    }

    ghost predicate Shape() {
      && 3 <= |pages| && |pages| * 1764 <= 0xFFFF
      && |live| <= |pages| && lastPhys < |pages|
      && |stage| < DW_DATA && headDw <= PAYLOAD_DW
      && (forall i :: 0 <= i < |live| ==> live[i].phys == Back(lastPhys, |live| - 1 - i, |pages|))
      && (live == [] ==> headDw == 0 && stage == [] && !wiped)
      && (wiped ==> |live| == |pages| && headFull)
    }

    /** The byte stream of the head page: what is flushed, then the staged tail. */
    ghost function Stream(): seq<byte>
      requires Shape() && live != [] && headDw <= |pages[Head().phys].dws|
    {
      Flushed(pages[Head().phys].dws, headDw) + stage
    }

    /** The live pages hold consecutive runs of `contents`. */
    ghost predicate RunsOk()
      requires Shape()
    {
      && |recs| == |pages|
      && FirstAbs() <= absOrd && |contents| == absOrd - FirstAbs()
      && Sized(contents, size)
      && Ordered(live)
      && (forall i {:trigger End(i)} :: 0 <= i < |live| ==> FirstAbs() <= live[i].firstOrd <= End(i) <= absOrd)
      && (forall i {:trigger Run(i)} :: 0 <= i < |live| ==> |Flat(Run(i))| <= PAGE_DATA)
      && (forall i {:trigger Run(i)} :: 0 <= i < |live| && (i == 0 ==> !wiped) ==> recs[live[i].phys] == Run(i))
    }

    /** The records of live page `i`. */
    ghost function Run(i: nat): seq<Record>
      requires i < |live|
    {
      if FirstAbs() <= live[i].firstOrd <= End(i) <= FirstAbs() + |contents|
      then contents[live[i].firstOrd - FirstAbs()..End(i) - FirstAbs()]
      else []
    }

    /** The header of live page `i` says what the RAM says. */
    ghost predicate HeaderOk(c: Crcs, i: nat)
      requires Shape() && i < |live|
    {
      var h := pages[live[i].phys].hdr;
      && HeaderValid(c.header, h) && h.body.layout == layout && h.body.sampleSize == size
      && h.body.interval == interval && h.body.firstOrd == live[i].firstOrd
      && h.body.seqNo + |live| == nextSeq + i
    }

    ghost predicate HeadersOk(c: Crcs)
      requires Shape()
    {
      && (live != [] ==> 0 < size <= PAGE_DATA)
      && (forall i :: 0 <= i < |live| && (i == 0 ==> !wiped) ==> HeaderOk(c, i))
      && (wiped ==> pages[live[0].phys] == ErasedPage())
      && (forall p :: 0 <= p < |pages| && HeaderValid(c.header, pages[p].hdr) ==>
            pages[p].hdr.body.seqNo < nextSeq && (live == [] ==> pages[p].hdr.body.seqNo + 1 < nextSeq))
      && (0 < |live| < |pages| ==>
            !Linked(c.header, pages[Back(live[0].phys, 1, |pages|)], pages[live[0].phys]))
    }

    ghost predicate HeadOk()
      requires Shape() && |recs| == |pages|
    {
      live != [] ==>
        var dws := pages[Head().phys].dws;
        && Tidy(dws) && WrittenDw(dws) == headDw
        && |Stream()| <= PAGE_DATA
        && Agrees(Stream(), recs[Head().phys])
        && (!headFull || stage != [] ==> Stream() == Flat(recs[Head().phys]))
        && (!headFull ==> |Stream()| + size <= PAGE_DATA && Head().curBoot)
        && (|Stream()| < |Flat(recs[Head().phys])| + size || |Stream()| < |Flat(recs[Head().phys])| + DW_DATA)
    }

    /** A page that may still need its fix-up can take it; the others have their time on flash. */
    ghost predicate TimesOk(c: Crcs)
      requires Shape()
    {
      forall i :: 0 <= i < |live| && (i == 0 ==> !wiped) ==> TimeOk(c, live[i], pages[live[i].phys])
    }

    ghost predicate Valid(c: Crcs) {
      && Shape() && RunsOk() && HeadersOk(c) && HeadOk() && TimesOk(c)
      && DiskClean(c.header, pages, recs)
    }

    /** Length of the byte stream behind live page `i`. */
    ghost function StreamLen(i: nat): nat
      requires Shape() && i < |live|
    {
      if i + 1 == |live| then DW_DATA * headDw + |stage| else DW_DATA * WrittenDw(pages[live[i].phys].dws)
    }

    /** The stored record with ordinal `a`. */
    ghost function Rec(a: nat): Record {
      if FirstAbs() <= a < FirstAbs() + |contents| then contents[a - FirstAbs()] else []
    }

    /** All bytes of the stored record `a` are where a read looks for them. */
    ghost predicate Intact(a: nat) {
      && Shape() && live != [] && FirstAbs() <= a < absOrd
      && live[PageOf(live, a, |live| - 1)].firstOrd <= a
      && (a - live[PageOf(live, a, |live| - 1)].firstOrd + 1) * size <= StreamLen(PageOf(live, a, |live| - 1))
    }

    /** All bytes of the stored record `a` are on flash. */
    ghost predicate Durable(a: nat) {
      && Shape() && live != [] && FirstAbs() <= a < absOrd
      && live[PageOf(live, a, |live| - 1)].firstOrd <= a
      && (a - live[PageOf(live, a, |live| - 1)].firstOrd + 1) * size
         <= DW_DATA * WrittenDw(pages[live[PageOf(live, a, |live| - 1)].phys].dws)
    }
  }

  /** Every stored record can be read. */
  ghost predicate AllIntact(r: Ring) {
    forall a: nat :: r.FirstAbs() <= a < r.absOrd ==> r.Intact(a)
  }

  // ---- What a step keeps -----------------------------------------------------------------------

  /** Every record that can be read in `r` can be read in `r'`. */
  ghost predicate KeepsAll(r: Ring, r': Ring) {
    forall a: nat :: r.Intact(a) ==> r'.Intact(a)
  }

  /** Ordinal `a` was not given up: the ring still starts at or before it, and it is not on an oldest
      page erased already to make room. */
  ghost predicate NotGivenUp(r: Ring, a: nat) {
    r.FirstAbs() <= a && (r.wiped && r.live != [] ==> r.End(0) <= a)
  }

  /** Every record that can be read in `r` and is not given up can be read in `r'`. */
  ghost predicate KeepsStored(r: Ring, r': Ring) {
    forall a: nat :: r.Intact(a) && NotGivenUp(r', a) ==> r'.Intact(a)
  }

  /** The same of the records that are on flash with all their bytes. */
  ghost predicate KeepsDurable(r: Ring, r': Ring) {
    forall a: nat :: r.Durable(a) && NotGivenUp(r', a) ==> r'.Intact(a)
  }

  lemma KeepsSelf(c: Crcs, r: Ring)
    requires r.Valid(c)
    ensures KeepsAll(r, r) && KeepsStored(r, r) && KeepsDurable(r, r)
  {
    hide Ring.Intact, Ring.Durable, NotGivenUp, Ring.Valid;
    DurableIntact(c, r);
  }

  lemma KeepsTwice(a: Ring, b: Ring, c: Ring, x: nat)
    requires KeepsAll(a, b) && KeepsAll(b, c)
    ensures KeepsAll(a, c) && (b.Intact(x) ==> c.Intact(x))
  {
    hide Ring.Intact;
  }

  lemma KeepsThen(a: Ring, b: Ring, c: Ring)
    requires KeepsAll(a, b) && KeepsStored(b, c)
    ensures KeepsStored(a, c)
  {
    hide Ring.Intact, NotGivenUp;
  }

  lemma KeepsEnough(a: Ring, b: Ring)
    requires KeepsAll(a, b)
    ensures KeepsStored(a, b)
  {
    hide Ring.Intact, NotGivenUp;
  }

  lemma StoredThen(a: Ring, b: Ring, c: Ring)
    requires KeepsStored(a, b) && KeepsAll(b, c) && !b.wiped && b.FirstAbs() == c.FirstAbs()
    ensures KeepsStored(a, c)
  {
    hide Ring.Intact, Ring.FirstAbs;
  }

  /** What the second step gives up covers what the first did. */
  lemma StoredTwice(a: Ring, b: Ring, d: Ring)
    requires KeepsStored(a, b) && KeepsStored(b, d)
    requires b.FirstAbs() <= d.FirstAbs() && (b.wiped && b.live != [] ==> b.End(0) <= d.FirstAbs())
    ensures KeepsStored(a, d)
  {
    hide Ring.Intact, Ring.FirstAbs, Ring.End;
  }

  lemma StoredDurable(c: Crcs, a: Ring, b: Ring)
    requires a.Valid(c) && KeepsStored(a, b)
    ensures KeepsDurable(a, b)
  {
    hide Ring.Intact, Ring.Durable, NotGivenUp, Ring.Valid;
    DurableIntact(c, a);
  }

  /** Nothing staged is lost between two steps when nothing was staged, or nothing was done. */
  lemma DurableThen(c: Crcs, a: Ring, b: Ring, d: Ring)
    requires a.Valid(c) && b.Valid(c) && KeepsStored(a, b) && KeepsDurable(b, d)
    requires !b.wiped && b.FirstAbs() == d.FirstAbs() && (a == b || b.stage == [])
    ensures KeepsDurable(a, d)
  {
    hide Ring.Intact, Ring.Durable, Ring.FirstAbs, Ring.Valid;
    DurableIntact(c, a);
    IntactDurable(c, b);
  }

  /** Nothing that is stored is lost when only the front is given up and what is new is intact. */
  lemma AllStay(a: Ring, b: Ring)
    requires AllIntact(a) && a.FirstAbs() <= b.FirstAbs()
    requires (KeepsAll(a, b) && b.absOrd == a.absOrd) || (KeepsStored(a, b) && !b.wiped && a.absOrd <= b.absOrd <= a.absOrd + 1)
    requires b.absOrd > a.absOrd ==> b.Intact(a.absOrd)
    ensures AllIntact(b)
  {
    hide Ring.Intact, Ring.FirstAbs, Ring.End;
  }

  /** The time a mount gives the page: its header base, corrected by a written fix-up. */
  function DurableTime(c: Crcs, pg: Page): (nat, bool)
  {
    var b := pg.hdr.body;
    if !b.baseSynced && pg.fixUp.FixUpWritten? && pg.fixUp.mark == FIXUP_MARK
       && pg.fixUp.crc == c.fixUp(pg.hdr.crc, pg.fixUp.offset)
    then ((b.baseTime + pg.fixUp.offset) % TWO_32, true)
    else (b.baseTime, b.baseSynced)
  }

  ghost predicate TimeOk(c: Crcs, lp: LivePage, pg: Page) {
    && lp.baseTime < TWO_32 && pg.hdr.body.baseTime < TWO_32
    && ((lp.curBoot && !lp.synced) || lp.fixPending ==> pg.fixUp.FixUpErased? && !pg.hdr.body.baseSynced)
    && (lp.fixPending ==> lp.synced)
    && ((lp.baseTime, lp.synced) == DurableTime(c, pg) || (lp.synced && !DurableTime(c, pg).1))
  }

  // ---- Writing to the head page ---------------------------------------------------------------

  /** The ring after the payload of the head page, the staged tail and the head's closed flag
      changed, and `add` was counted as recorded. */
  function WithHead(r: Ring, dws: seq<DoubleWord>, headDw: nat, stage: seq<byte>, headFull: bool, add: seq<Record>): Ring
    requires r.live != [] && r.Head().phys < |r.pages| && |r.recs| == |r.pages|
  {
    var hp := r.Head().phys;
    r.(pages := r.pages[hp := r.pages[hp].(dws := dws)], headDw := headDw, stage := stage, headFull := headFull,
       absOrd := r.absOrd + |add|, contents := r.contents + add, recs := r.recs[hp := r.recs[hp] + add])
  }

  /** What has to hold of the head page after such a change. */
  ghost predicate HeadFits(r: Ring, dws: seq<DoubleWord>, headDw: nat, stage: seq<byte>, headFull: bool, add: seq<Record>)
    requires r.live != [] && r.Head().phys < |r.pages| && |r.recs| == |r.pages|
  {
    && Tidy(dws) && WrittenDw(dws) == headDw && |stage| < DW_DATA
    && DW_DATA * headDw + |stage| <= PAGE_DATA
    && Sized(add, r.size)
    && |Flat(r.recs[r.Head().phys] + add)| <= PAGE_DATA
    && Agrees(Flushed(dws, headDw) + stage, r.recs[r.Head().phys] + add)
    && (!headFull || stage != [] ==> Flushed(dws, headDw) + stage == Flat(r.recs[r.Head().phys] + add))
    && (!headFull ==> DW_DATA * headDw + |stage| + r.size <= PAGE_DATA && !r.headFull)
    && (r.wiped ==> headFull && add == [])
    && (|| DW_DATA * headDw + |stage| < |Flat(r.recs[r.Head().phys] + add)| + r.size
        || DW_DATA * headDw + |stage| < |Flat(r.recs[r.Head().phys] + add)| + DW_DATA)
  }

  lemma WithHeadNothing(r: Ring, dws: seq<DoubleWord>, headDw: nat, stage: seq<byte>, headFull: bool)
    requires r.live != [] && r.Head().phys < |r.pages| && |r.recs| == |r.pages|
    ensures WithHead(r, dws, headDw, stage, headFull, [])
      == r.(pages := r.pages[r.Head().phys := r.pages[r.Head().phys].(dws := dws)], headDw := headDw, stage := stage, headFull := headFull)
  {
    assert r.contents + [] == r.contents;
    assert r.recs[r.Head().phys] + [] == r.recs[r.Head().phys];
  }

  lemma HeadPhys(r: Ring)
    requires r.Shape() && r.live != []
    ensures r.Head().phys == r.lastPhys
    ensures forall i :: 0 <= i < |r.live| - 1 ==> r.live[i].phys != r.lastPhys
  {
  }

  lemma WithHeadShape(r: Ring, dws: seq<DoubleWord>, headDw: nat, stage: seq<byte>, headFull: bool, add: seq<Record>)
    requires r.Shape() && r.live != [] && |r.recs| == |r.pages|
    requires headDw <= PAYLOAD_DW && |stage| < DW_DATA && (r.wiped ==> headFull)
    ensures WithHead(r, dws, headDw, stage, headFull, add).Shape()
  {
  }

  lemma WithHeadRun(r: Ring, dws: seq<DoubleWord>, headDw: nat, stage: seq<byte>, headFull: bool, add: seq<Record>, i: nat)
    requires i < |r.live| && r.live[|r.live| - 1].phys < |r.pages| && |r.recs| == |r.pages|
    requires r.FirstAbs() <= r.live[i].firstOrd <= r.End(i) <= r.absOrd && |r.contents| == r.absOrd - r.FirstAbs()
    ensures var r' := WithHead(r, dws, headDw, stage, headFull, add);
      && r'.FirstAbs() == r.FirstAbs() <= r'.live[i].firstOrd <= r'.End(i) <= r'.absOrd
      && r'.Run(i) == if i + 1 == |r.live| then r.Run(i) + add else r.Run(i)
  {
    SliceMore(r.contents, add, r.live[i].firstOrd - r.FirstAbs(), r.End(i) - r.FirstAbs());
  }

  lemma SliceMore(s: seq<Record>, add: seq<Record>, lo: nat, hi: nat)
    requires lo <= hi <= |s|
    ensures (s + add)[lo..hi] == s[lo..hi]
    ensures hi == |s| ==> (s + add)[lo..hi + |add|] == s[lo..hi] + add
  {
  }

  lemma WithHeadRuns(r: Ring, dws: seq<DoubleWord>, headDw: nat, stage: seq<byte>, headFull: bool, add: seq<Record>)
    requires r.Shape() && r.RunsOk() && r.live != []
    requires |Flat(r.recs[r.Head().phys] + add)| <= PAGE_DATA
    requires Sized(add, r.size)
    requires r.wiped ==> |r.live| > 1
    requires WithHead(r, dws, headDw, stage, headFull, add).Shape()
    ensures WithHead(r, dws, headDw, stage, headFull, add).RunsOk()
  {
    var r' := WithHead(r, dws, headDw, stage, headFull, add);
    HeadPhys(r);
    forall i | 0 <= i < |r.live|
      ensures r'.FirstAbs() <= r'.live[i].firstOrd <= r'.End(i) <= r'.absOrd
      ensures |Flat(r'.Run(i))| <= PAGE_DATA
      ensures (i == 0 ==> !r.wiped) ==> r'.recs[r.live[i].phys] == r'.Run(i)
    {
      assert r.FirstAbs() <= r.live[i].firstOrd <= r.End(i) <= r.absOrd && |Flat(r.Run(i))| <= PAGE_DATA;
      WithHeadRun(r, dws, headDw, stage, headFull, add, i);
    }
  }

  lemma WithHeadHeaders(c: Crcs, r: Ring, dws: seq<DoubleWord>, headDw: nat, stage: seq<byte>, headFull: bool, add: seq<Record>)
    requires r.Shape() && |r.recs| == |r.pages| && r.live != [] && r.HeadersOk(c) && r.TimesOk(c)
    requires WithHead(r, dws, headDw, stage, headFull, add).Shape()
    requires r.wiped ==> r.live[0].phys != r.Head().phys
    ensures WithHead(r, dws, headDw, stage, headFull, add).HeadersOk(c)
    ensures WithHead(r, dws, headDw, stage, headFull, add).TimesOk(c)
  {
    hide HeaderValid, Back;
    var r' := WithHead(r, dws, headDw, stage, headFull, add);
    assert forall p :: 0 <= p < |r.pages| ==> r'.pages[p].hdr == r.pages[p].hdr && r'.pages[p].fixUp == r.pages[p].fixUp;
    forall i | 0 <= i < |r.live| && (i == 0 ==> !r.wiped)
      ensures r'.HeaderOk(c, i) && TimeOk(c, r'.live[i], r'.pages[r'.live[i].phys])
    {
      assert r.HeaderOk(c, i);
    }
  }

  lemma HeadPageClean(c: Crcs, r: Ring, dws: seq<DoubleWord>, headDw: nat, stage: seq<byte>, headFull: bool, add: seq<Record>)
    requires r.live != [] && r.Head().phys < |r.pages| && |r.recs| == |r.pages|
    requires HeadFits(r, dws, headDw, stage, headFull, add)
    requires PageClean(c.header, r.pages[r.Head().phys], r.recs[r.Head().phys])
    requires HeaderValid(c.header, r.pages[r.Head().phys].hdr) ==> r.pages[r.Head().phys].hdr.body.sampleSize == r.size
    ensures PageClean(c.header, r.pages[r.Head().phys].(dws := dws), r.recs[r.Head().phys] + add)
  {
    hide Flat, Flushed, WrittenDw;
  }

  lemma WithHeadDisk(c: Crcs, r: Ring, dws: seq<DoubleWord>, headDw: nat, stage: seq<byte>, headFull: bool, add: seq<Record>)
    requires r.Shape() && r.HeadersOk(c) && r.live != [] && DiskClean(c.header, r.pages, r.recs)
    requires HeadFits(r, dws, headDw, stage, headFull, add)
    ensures var r' := WithHead(r, dws, headDw, stage, headFull, add); DiskClean(c.header, r'.pages, r'.recs)
  {
    hide Flat, Flushed, WrittenDw, PageClean, HeadFits, Tidy;
    var hp := r.Head().phys;
    HeadPhys(r);
    assert r.HeaderOk(c, |r.live| - 1);
    HeadPageClean(c, r, dws, headDw, stage, headFull, add);
    var pg' := r.pages[hp].(dws := dws);
    DiskWithPayload(c.header, r.pages, r.recs, hp, pg', r.recs[hp] + add);
  }

  lemma WithHeadValid(c: Crcs, r: Ring, dws: seq<DoubleWord>, headDw: nat, stage: seq<byte>, headFull: bool, add: seq<Record>)
    requires r.Valid(c) && r.live != []
    requires HeadFits(r, dws, headDw, stage, headFull, add)
    ensures WithHead(r, dws, headDw, stage, headFull, add).Valid(c)
  {
    hide Ring.TimesOk, Ring.HeadersOk, DiskClean, Flat, Flushed, WrittenDw;
    HeadPhys(r);
    WithHeadShape(r, dws, headDw, stage, headFull, add);
    WithHeadRuns(r, dws, headDw, stage, headFull, add);
    WithHeadHeaders(c, r, dws, headDw, stage, headFull, add);
    WithHeadDisk(c, r, dws, headDw, stage, headFull, add);
  }

  // ---- Opening a page -------------------------------------------------------------------------

  /** Erasing the page the ring moves to next: once every page is live, that is the oldest one. */
  function WithNextErased(r: Ring): Ring
    requires r.lastPhys < |r.pages|
  {
    r.(pages := r.pages[Next(r.lastPhys, |r.pages|) := ErasedPage()], wiped := |r.live| == |r.pages|)
  }

  /** Two rings with the same records, ordinals and run borders have the same runs. */
  lemma SameRun(r: Ring, q: Ring, i: nat)
    requires |q.live| == |r.live| && i < |r.live| && q.absOrd == r.absOrd && q.contents == r.contents
    requires forall k :: 0 <= k < |r.live| ==> q.live[k].firstOrd == r.live[k].firstOrd
    ensures q.FirstAbs() == r.FirstAbs() && q.End(i) == r.End(i) && q.Run(i) == r.Run(i)
  {
  }

  /** What `RunsOk` says of page `i`. */
  lemma RunOf(r: Ring, i: nat)
    requires r.Shape() && r.RunsOk() && i < |r.live|
    ensures r.FirstAbs() <= r.live[i].firstOrd <= r.End(i) <= r.absOrd && |Flat(r.Run(i))| <= PAGE_DATA
    ensures (i == 0 ==> !r.wiped) ==> r.live[i].phys < |r.recs| && r.recs[r.live[i].phys] == r.Run(i)
  {
    hide Flat, Back, Ordered, Sized, Ring.Run, Ring.End;
    assert r.FirstAbs() <= r.live[i].firstOrd <= r.End(i) <= r.absOrd;
  }

  lemma OrderedSame(a: seq<LivePage>, b: seq<LivePage>)
    requires Ordered(a) && |a| == |b| && forall i :: 0 <= i < |a| ==> a[i].firstOrd == b[i].firstOrd
    ensures Ordered(b)
  {
  }

  /** A ring with the runs of another, on pages that hold them, is as consistent. */
  lemma SameRunsOk(r: Ring, q: Ring)
    requires r.Shape() && r.RunsOk() && q.Shape() && |q.live| == |r.live| && |q.recs| == |q.pages|
    requires q.absOrd == r.absOrd && q.contents == r.contents && q.size == r.size && q.recs == r.recs
    requires (r.wiped ==> q.wiped) && forall k :: 0 <= k < |r.live| ==> q.live[k].firstOrd == r.live[k].firstOrd && q.live[k].phys == r.live[k].phys
    ensures q.RunsOk()
  {
    hide Flat, Back, Sized, Ring.Run, Ring.End, Ordered;
    forall i: nat | i < |r.live|
      ensures q.FirstAbs() <= q.live[i].firstOrd <= q.End(i) <= q.absOrd && |Flat(q.Run(i))| <= PAGE_DATA
      ensures (i == 0 ==> !q.wiped) ==> q.recs[q.live[i].phys] == q.Run(i)
    {
      RunOf(r, i);
      SameRun(r, q, i);
    }
    OrderedSame(r.live, q.live);
  }

  lemma WithNextErasedShape(r: Ring)
    requires r.Shape() && (r.live != [] ==> r.headFull)
    ensures WithNextErased(r).Shape()
  {
    hide Back;
  }

  lemma WithNextErasedRuns(r: Ring)
    requires r.Shape() && r.RunsOk() && (r.live != [] ==> r.headFull)
    ensures WithNextErased(r).Shape() && WithNextErased(r).RunsOk()
  {
    hide Ring.RunsOk, Ring.Shape, Flat;
    WithNextErasedShape(r);
    RunsLengths(r);
    SameRunsOk(r, WithNextErased(r));
  }

  lemma RunsLengths(r: Ring)
    requires r.Shape() && r.RunsOk()
    ensures |r.recs| == |r.pages| && r.lastPhys < |r.pages| && (r.wiped ==> |r.live| == |r.pages|)
  {
    hide Flat, Back, Sized, Ring.Run, Ring.End, Ordered;
  }

  lemma NextMod(p: nat, n: nat)
    requires p < n
    ensures (p + 1) % n == Next(p, n)
  {
    if p + 1 == n {
      assert n % n == 0;
    }
  }

  lemma NextIsOldest(r: Ring)
    requires r.Shape()
    ensures forall i :: 0 <= i < |r.live| && r.live[i].phys == Next(r.lastPhys, |r.pages|) ==> i == 0 && |r.live| == |r.pages|
    ensures |r.live| == |r.pages| ==> r.live[0].phys == Next(r.lastPhys, |r.pages|)
    ensures 0 < |r.live| < |r.pages| - 1 ==> Back(r.live[0].phys, 1, |r.pages|) != Next(r.lastPhys, |r.pages|)
    ensures r.live != [] ==> r.Head().phys == r.lastPhys
  {
  }

  lemma WithNextErasedHeaders(c: Crcs, r: Ring)
    requires r.Shape() && r.HeadersOk(c) && r.TimesOk(c) && WithNextErased(r).Shape()
    ensures WithNextErased(r).HeadersOk(c) && WithNextErased(r).TimesOk(c)
  {
    var r' := WithNextErased(r);
    NextIsOldest(r);
    forall i | 0 <= i < |r.live| && (i == 0 ==> !r'.wiped)
      ensures r'.HeaderOk(c, i) && TimeOk(c, r'.live[i], r'.pages[r'.live[i].phys])
    {
      assert r.HeaderOk(c, i);
    }
  }

  lemma WithNextErasedValid(c: Crcs, r: Ring)
    requires r.Valid(c) && (r.live != [] ==> r.headFull)
    ensures WithNextErased(r).Valid(c)
  {
    hide Ring.RunsOk, Ring.HeadersOk, Ring.TimesOk, DiskClean, Flat, Flushed, WrittenDw;
    WithNextErasedRuns(r);
    WithNextErasedHeaders(c, r);
    DiskWithErased(c.header, r.pages, r.recs, Next(r.lastPhys, |r.pages|));
    NextIsOldest(r);
  }

  /** The number of records given up when the page after the head is opened. */
  function Evicted(r: Ring): nat
    requires |r.live| == |r.pages| ==> r.live != [] && r.live[0].firstOrd <= r.End(0)
  {
    if |r.live| == |r.pages| then r.End(0) - r.live[0].firstOrd else 0
  }

  function OpenedLive(r: Ring, base: nat, synced: bool): seq<LivePage>
    requires r.lastPhys < |r.pages|
  {
    (if |r.live| == |r.pages| then r.live[1..] else r.live)
    + [LivePage(r.absOrd, base, Next(r.lastPhys, |r.pages|), synced, true, false)]
  }

  lemma OpenedLiveSame(a: Ring, b: Ring, base: nat, synced: bool)
    requires a.lastPhys == b.lastPhys < |a.pages| == |b.pages| && a.live == b.live && a.absOrd == b.absOrd
    ensures OpenedLive(a, base, synced) == OpenedLive(b, base, synced)
  {
  }

  /** The ring after the header `h` of the next page, erased before, was written. */
  function Opened(r: Ring, h: Header, base: nat, synced: bool): Ring
    requires r.lastPhys < |r.pages| == |r.recs|
    requires |r.live| == |r.pages| ==> r.live[0].firstOrd <= r.End(0) <= r.live[0].firstOrd + |r.contents|
  {
    var nx := Next(r.lastPhys, |r.pages|);
    r.(pages := r.pages[nx := r.pages[nx].(hdr := h)], live := OpenedLive(r, base, synced), nextSeq := r.nextSeq + 1,
       lastPhys := nx, headDw := 0, stage := [], headFull := false,
       contents := r.contents[Evicted(r)..], recs := r.recs[nx := []], wiped := false)
  }

  predicate OpensWith(c: Crcs, r: Ring, h: Header, base: nat, synced: bool) {
    && HeaderValid(c.header, h) && h.body.seqNo == r.nextSeq && h.body.layout == r.layout
    && h.body.interval == r.interval && h.body.baseTime == base && h.body.firstOrd == r.absOrd
    && h.body.sampleSize == r.size && h.body.baseSynced == synced && base < TWO_32
  }

  lemma OpenedShape(r: Ring, base: nat, synced: bool, h: Header)
    requires r.Shape() && |r.recs| == |r.pages|
    requires |r.live| == |r.pages| ==> r.live[0].firstOrd <= r.End(0) <= r.live[0].firstOrd + |r.contents|
    ensures Opened(r, h, base, synced).Shape()
  {
  }

  /** How the pages of a ring shift when a page is opened. */
  lemma OpenedEnds(r: Ring, base: nat, synced: bool, h: Header, i: nat)
    requires r.lastPhys < |r.pages| == |r.recs| && 1 < |r.pages| && |r.live| <= |r.pages|
    requires |r.live| == |r.pages| ==> r.live[0].firstOrd <= r.End(0) <= r.live[0].firstOrd + |r.contents|
    requires i < |Opened(r, h, base, synced).live|
    ensures var r' := Opened(r, h, base, synced); var k := |r.live| + 1 - |r'.live|;
      && r'.FirstAbs() == r.FirstAbs() + Evicted(r) && r'.End(|r'.live| - 1) == r'.absOrd == r.absOrd
      && r'.live[|r'.live| - 1].firstOrd == r.absOrd
      && (i + 1 < |r'.live| ==> i + k < |r.live| && r'.live[i] == r.live[i + k] && r'.End(i) == r.End(i + k))
  {
    hide Back, Next;
  }

  lemma SuffixSlice(rs: seq<Record>, e: nat, lo: nat, hi: nat)
    requires e <= |rs| && lo <= hi && e + hi <= |rs|
    ensures rs[e..][lo..hi] == rs[e + lo..e + hi]
  {
  }

  lemma OpenedRun(r: Ring, base: nat, synced: bool, h: Header, i: nat)
    requires r.Shape() && r.RunsOk() && (|r.live| == |r.pages| ==> r.wiped)
    requires |r.live| == |r.pages| ==> r.live[0].firstOrd <= r.End(0) <= r.live[0].firstOrd + |r.contents|
    requires i < |Opened(r, h, base, synced).live|
    ensures var r' := Opened(r, h, base, synced); var k := |r.live| + 1 - |r'.live|;
      && r'.FirstAbs() == r.FirstAbs() + Evicted(r)
      && r'.FirstAbs() <= r'.live[i].firstOrd <= r'.End(i) <= r'.absOrd
      && (if i + 1 < |r'.live| then r'.Run(i) == r.Run(i + k) && r'.live[i] == r.live[i + k] else r'.Run(i) == [])
  {
    hide Flat, Back, Next, Ordered, Sized, Ring.Run;
    RunsLengths(r);
    OpenedEnds(r, base, synced, h, i);
    var r' := Opened(r, h, base, synced);
    var k := |r.live| + 1 - |r'.live|;
    if i + 1 < |r'.live| {
      RunOf(r, i + k);
      if k > 0 {
        OrderedAt(r.live, 1, i + k);
      }
      RunShift(r, r', i, k, Evicted(r));
    } else {
      RunEmpty(r', i);
    }
  }

  lemma RunEmpty(r: Ring, i: nat)
    requires i < |r.live| && r.End(i) == r.live[i].firstOrd
    ensures r.Run(i) == []
  {
  }

  /** A run that stays when `gone` records are dropped at the front. */
  lemma RunShift(r: Ring, r': Ring, i: nat, k: nat, gone: nat)
    requires i < |r'.live| && i + k < |r.live| && r'.live[i] == r.live[i + k] && r'.End(i) == r.End(i + k)
    requires r'.FirstAbs() == r.FirstAbs() + gone && gone <= |r.contents| && r'.contents == r.contents[gone..]
    requires r'.FirstAbs() <= r'.live[i].firstOrd <= r'.End(i) <= r.FirstAbs() + |r.contents|
    ensures r'.Run(i) == r.Run(i + k)
  {
    hide Ring.End, Ring.FirstAbs;
    SuffixSlice(r.contents, gone, r'.live[i].firstOrd - r'.FirstAbs(), r'.End(i) - r'.FirstAbs());
  }

  lemma OrderedAt(live: seq<LivePage>, i: nat, j: nat)
    requires Ordered(live) && i <= j < |live|
    ensures live[i].firstOrd <= live[j].firstOrd
  {
  }

  lemma OpenedOrder(r: Ring, base: nat, synced: bool, h: Header)
    requires r.Shape() && r.RunsOk()
    requires |r.live| == |r.pages| ==> r.live[0].firstOrd <= r.End(0) <= r.live[0].firstOrd + |r.contents|
    ensures var r' := Opened(r, h, base, synced);
      && |r'.recs| == |r'.pages| && Sized(r'.contents, r'.size)
      && forall i, j :: 0 <= i <= j < |r'.live| ==> r'.live[i].firstOrd <= r'.live[j].firstOrd
  {
    hide Flat, Back;
    var live' := OpenedLive(r, base, synced);
    var k := |r.live| + 1 - |live'|;
    assert forall i :: 0 <= i < |live'| - 1 ==> live'[i] == r.live[i + k];
    forall i | 0 <= i < |r.live|
      ensures r.live[i].firstOrd <= r.absOrd
    {
      assert r.live[i].firstOrd <= r.End(i);
    }
  }

  lemma OpenedRuns(r: Ring, base: nat, synced: bool, h: Header)
    requires r.Shape() && r.RunsOk() && (|r.live| == |r.pages| ==> r.wiped)
    requires |r.live| == |r.pages| ==> r.live[0].firstOrd <= r.End(0) <= r.live[0].firstOrd + |r.contents|
    requires Opened(r, h, base, synced).Shape()
    ensures Opened(r, h, base, synced).RunsOk()
  {
    hide Ring.Run, Sized, Ring.End;
    var r' := Opened(r, h, base, synced);
    var k := |r.live| + 1 - |r'.live|;
    NextIsOldest(r);
    OpenedOrder(r, base, synced, h);
    forall i | 0 <= i < |r'.live|
      ensures r'.FirstAbs() <= r'.live[i].firstOrd <= r'.End(i) <= r'.absOrd
      ensures |Flat(r'.Run(i))| <= PAGE_DATA && r'.recs[r'.live[i].phys] == r'.Run(i)
    {
      OpenedRun(r, base, synced, h, i);
      if i + 1 < |r'.live| {
        assert |Flat(r.Run(i + k))| <= PAGE_DATA;
        assert r.recs[r.live[i + k].phys] == r.Run(i + k);
      }
    }
    OpenedRun(r, base, synced, h, 0);
  }

  lemma OpenedHeaders(c: Crcs, r: Ring, base: nat, synced: bool, h: Header)
    requires r.Shape() && |r.recs| == |r.pages| && r.HeadersOk(c) && r.TimesOk(c)
    requires |r.live| == |r.pages| ==> r.wiped && r.live[0].firstOrd <= r.End(0) <= r.live[0].firstOrd + |r.contents|
    requires 0 < r.size <= PAGE_DATA && OpensWith(c, r, h, base, synced)
    requires r.pages[Next(r.lastPhys, |r.pages|)] == ErasedPage()
    requires Opened(r, h, base, synced).Shape()
    ensures Opened(r, h, base, synced).HeadersOk(c)
    ensures Opened(r, h, base, synced).TimesOk(c)
  {
    var r' := Opened(r, h, base, synced);
    var k := |r.live| + 1 - |r'.live|;
    NextIsOldest(r);
    forall i | 0 <= i < |r'.live|
      ensures r'.HeaderOk(c, i) && TimeOk(c, r'.live[i], r'.pages[r'.live[i].phys])
    {
      if i + 1 < |r'.live| {
        assert r'.live[i] == r.live[i + k];
        assert r.HeaderOk(c, i + k);
      }
    }
  }

  /** The header of the page before a new one is the head's, and its run ends where the new one starts. */
  lemma OpenedLink(c: Crcs, r: Ring, h: Header, q: nat)
    requires r.Shape() && r.RunsOk() && r.HeadersOk(c) && (|r.live| == |r.pages| ==> r.wiped)
    requires q < |r.pages| && Next(q, |r.pages|) == Next(r.lastPhys, |r.pages|)
    requires HeaderValid(c.header, r.pages[q].hdr) && r.pages[q].hdr.body.seqNo + 1 == h.body.seqNo == r.nextSeq
    requires h.body.firstOrd == r.absOrd
    ensures h.body.firstOrd == r.pages[q].hdr.body.firstOrd + |r.recs[q]|
  {
    hide Flat, Back, Ordered, Sized, HeaderValid;
    assert q == r.lastPhys;
    if r.live != [] {
      NextIsOldest(r);
      RunOf(r, |r.live| - 1);
      assert r.HeaderOk(c, |r.live| - 1);
    }
  }

  lemma OpenedDisk(c: Crcs, r: Ring, base: nat, synced: bool, h: Header)
    requires r.Shape() && r.RunsOk() && r.HeadersOk(c) && DiskClean(c.header, r.pages, r.recs)
    requires |r.live| == |r.pages| ==> r.wiped && r.live[0].firstOrd <= r.End(0) <= r.live[0].firstOrd + |r.contents|
    requires 0 < r.size <= PAGE_DATA && OpensWith(c, r, h, base, synced)
    requires r.pages[Next(r.lastPhys, |r.pages|)] == ErasedPage()
    ensures var r' := Opened(r, h, base, synced); DiskClean(c.header, r'.pages, r'.recs)
  {
    hide Flat, Back, Ordered, Sized, Ring.Run, Ring.HeaderOk, HeaderValid, PageClean, Linked, DiskClean;
    var nx := Next(r.lastPhys, |r.pages|);
    forall q | 0 <= q < |r.pages| && Next(q, |r.pages|) == nx && q != nx
               && HeaderValid(c.header, r.pages[q].hdr) && r.pages[q].hdr.body.seqNo + 1 == h.body.seqNo
      ensures h.body.firstOrd == r.pages[q].hdr.body.firstOrd + |r.recs[q]|
    {
      OpenedLink(c, r, h, q);
    }
    DiskWithNewPage(c.header, r.pages, r.recs, nx, h);
  }

  lemma OpenedValid(c: Crcs, r: Ring, base: nat, synced: bool, h: Header)
    requires r.Valid(c) && (|r.live| == |r.pages| ==> r.wiped)
    requires 0 < r.size <= PAGE_DATA && OpensWith(c, r, h, base, synced)
    requires r.pages[Next(r.lastPhys, |r.pages|)] == ErasedPage()
    ensures |r.live| == |r.pages| ==> r.live[0].firstOrd <= r.End(0) <= r.live[0].firstOrd + |r.contents|
    ensures Opened(r, h, base, synced).Valid(c)
    ensures Opened(r, h, base, synced).FirstAbs() == r.FirstAbs() + Evicted(r)
  {
    hide Ring.TimesOk, Ring.HeadersOk, DiskClean, Ring.Run;
    if |r.live| == |r.pages| {
      assert r.FirstAbs() <= r.live[0].firstOrd <= r.End(0) <= r.absOrd;
    }
    OpenedShape(r, base, synced, h);
    OpenedRuns(r, base, synced, h);
    OpenedHeaders(c, r, base, synced, h);
    OpenedDisk(c, r, base, synced, h);
    NextIsOldest(r);
    ErasedIsTidy();
    OpenedRun(r, base, synced, h, 0);
  }

  // ---- What an append does ----------------------------------------------------------------------

  /** The next record opens a page: there is none, the head is closed, or the record asks for one. */
  predicate Opens(r: Ring, split: bool) { r.live == [] || r.headFull || split }

  /** The record `rec` was written to the open head page, or, if not `ok`, at most staged bytes were lost. */
  ghost predicate RecordWritten(r: Ring, r': Ring, rec: Record, ok: bool) {
    && |r'.pages| == |r.pages| && r'.live == r.live && r'.wiped == r.wiped && r'.FirstAbs() == r.FirstAbs()
    && r'.absOrd == r.absOrd + (if ok then 1 else 0) && r'.contents == r.contents + (if ok then [rec] else [])
    && (ok ==> !Phantom(r') && r'.Intact(r.absOrd) && KeepsAll(r, r'))
    && (!ok ==> KeepsDurable(r, r'))
  }

  /** The head page is closed, if there is one, and nothing that can be read is lost. */
  ghost predicate HeadClosed(r: Ring, r': Ring) {
    && |r'.pages| == |r.pages| && r' == r.(pages := r'.pages, headDw := r'.headDw, stage := r'.stage, headFull := r'.headFull)
    && (r.live != [] ==> r'.headFull) && (r.live == [] || r.headFull ==> r' == r)
    && KeepsAll(r, r')
  }

  /** A rollover: the new head page is open, and the oldest page given up if all were in use. */
  ghost predicate PageAdvanced(r: Ring, r': Ring, base: nat, synced: bool, ok: bool, evicted: nat)
    requires r.lastPhys < |r.pages|
  {
    && |r'.pages| == |r.pages| && r'.absOrd == r.absOrd && r'.FirstAbs() == r.FirstAbs() + evicted
    && evicted <= |r.contents| && r'.contents == r.contents[evicted..] && (evicted > 0 ==> |r.live| == |r.pages|)
    && (ok ==> r'.live == OpenedLive(r, base, synced) && r'.live != [] && !r'.headFull && !r'.wiped && r'.stage == [])
    && (!ok ==> r'.live == r.live && evicted == 0 && r'.headFull == r.headFull)
    && KeepsStored(r, r')
  }

  /** The head page is open and can take a record, or `blocked` says why not. */
  ghost predicate HeadOpened(r: Ring, r': Ring, base: nat, synced: bool, split: bool, replay: bool,
      blocked: Option<AppendResult>, evicted: nat)
    requires r.lastPhys < |r.pages|
  {
    && |r'.pages| == |r.pages| && r'.absOrd == r.absOrd && r'.FirstAbs() == r.FirstAbs() + evicted
    && (evicted > 0 ==> |r.live| == |r.pages|)
    && evicted <= |r.contents| && r'.contents == r.contents[evicted..]
    && (blocked.None? ==> r'.live != [] && !r'.headFull && !r'.wiped)
    && (blocked.None? ==> r' == r || (r'.stage == [] && r'.live == OpenedLive(r, base, synced)))
    && (blocked.None? ==> r'.live == if Opens(r, split) then OpenedLive(r, base, synced) else r.live)
    && (blocked.Some? ==> r'.live == r.live && evicted == 0 && blocked.value == if replay then Busy else FlashError)
    && (blocked == Some(Busy) ==> r'.wiped == r.wiped && KeepsAll(r, r'))
    && (replay ==> (blocked.Some? <==> Opens(r, split)))
    && KeepsStored(r, r')
  }

  /** What an append promises: a bounded first-in first-out store. Only a ring of all pages gives
      records up, the oldest ones; a record appended can be read; and a failure costs nothing but
      records with a byte only in RAM, or on a page erased to make room. */
  ghost predicate RecordAppended(r: Ring, r': Ring, rec: Record, base: nat, synced: bool, split: bool,
      res: AppendResult, evicted: nat)
    requires r.lastPhys < |r.pages|
  {
    && |r'.pages| == |r.pages| && r'.FirstAbs() == r.FirstAbs() + evicted
    && (evicted > 0 ==> |r.live| == |r.pages|)
    && evicted <= |r.contents| && r'.contents == r.contents[evicted..] + (if res == Appended then [rec] else [])
    && r'.absOrd == r.absOrd + (if res == Appended then 1 else 0)
    && (res == Appended ==> r'.Intact(r.absOrd) && !r'.wiped && !Phantom(r'))
    && (res == Appended || res == Busy ==> KeepsStored(r, r'))
    && KeepsDurable(r, r')
    && (res == Busy ==> r'.wiped == r.wiped && evicted == 0)
    && (res == NoDevice || res == BadLayout ==> r' == r)
    && (r'.live == r.live || r'.live == OpenedLive(r, base, synced))
    && (res == Appended ==> r'.live == if Opens(r, split) then OpenedLive(r, base, synced) else r.live)
  }

  lemma NotAppended(c: Crcs, r: Ring, rec: Record, base: nat, synced: bool, split: bool, res: AppendResult)
    requires r.Valid(c) && r.lastPhys < |r.pages| && res in {NoDevice, BadLayout}
    ensures RecordAppended(r, r, rec, base, synced, split, res, 0)
  {
    hide Ring.Valid, KeepsDurable, KeepsStored, KeepsAll, OpenedLive;
    KeepsSelf(c, r);
    assert r.contents[0..] + [] == r.contents;
  }

  lemma HeadSame(c: Crcs, r: Ring)
    requires r.Valid(c)
    ensures HeadClosed(r, r) || (r.live != [] && !r.headFull)
    ensures KeepsAll(r, r) && KeepsStored(r, r)
  {
    hide Ring.Valid, KeepsAll, KeepsStored;
    KeepsSelf(c, r);
  }

  lemma HeadClosedIs(r: Ring, r': Ring, split: bool)
    requires if split then HeadClosed(r, r') else r' == r
    requires KeepsAll(r, r)
    ensures KeepsAll(r, r') && |r'.pages| == |r.pages|
    ensures r' == r.(pages := r'.pages, headDw := r'.headDw, stage := r'.stage, headFull := r'.headFull)
    ensures r'.live == [] || r'.headFull <==> r.live == [] || r.headFull || split
  {
    hide KeepsAll;
  }

  lemma HeadBusy(r: Ring, r': Ring, base: nat, synced: bool, split: bool)
    requires r.lastPhys < |r.pages| && KeepsAll(r, r') && |r'.pages| == |r.pages| && (r.live == [] || r.headFull || split)
    requires r' == r.(pages := r'.pages, headDw := r'.headDw, stage := r'.stage, headFull := r'.headFull)
    ensures HeadOpened(r, r', base, synced, split, true, Some(Busy), 0)
  {
    hide KeepsAll, KeepsStored;
    KeepsEnough(r, r');
  }

  lemma HeadStays(r: Ring, base: nat, synced: bool, split: bool, replay: bool)
    requires r.lastPhys < |r.pages| && KeepsStored(r, r) && !(r.live == [] || r.headFull || split) && !r.wiped
    ensures HeadOpened(r, r, base, synced, split, replay, None, 0)
  {
    hide KeepsAll, KeepsStored;
  }

  lemma HeadAdvanced(r: Ring, q: Ring, r': Ring, base: nat, synced: bool, split: bool, ok: bool, evicted: nat)
    requires r.lastPhys < |r.pages| == |q.pages| && KeepsAll(r, q) && (r.live == [] || r.headFull || split)
    requires q == r.(pages := q.pages, headDw := q.headDw, stage := q.stage, headFull := q.headFull)
    requires PageAdvanced(q, r', base, synced, ok, evicted)
    ensures HeadOpened(r, r', base, synced, split, false, if ok then None else Some(FlashError), evicted)
  {
    hide KeepsAll, KeepsStored, OpenedLive;
    KeepsThen(r, q, r');
    OpenedLiveSame(q, r, base, synced);
  }

  /** What opening the erased next page comes to; or, when its header could not be written, nothing. */
  lemma OpenedAdvances(c: Crcs, r: Ring, h: Header, base: nat, synced: bool)
    requires r.Valid(c) && CanOpen(r)
    requires var r' := Opened(r, h, base, synced);
      && r'.FirstAbs() == r.FirstAbs() + Evicted(r) && Evicted(r) <= |r.contents| && KeepsStored(r, r')
      && r'.live == OpenedLive(r, base, synced)
    ensures PageAdvanced(r, Opened(r, h, base, synced), base, synced, true, Evicted(r))
    ensures PageAdvanced(r, r, base, synced, false, 0) && !Opened(r, h, base, synced).wiped
  {
    hide Ring.Valid, KeepsStored, KeepsAll, KeepsDurable;
    KeepsSelf(c, r);
    ValidShape(c, r);
    assert r.contents[0..] == r.contents;
  }

  /** The page after the head was erased, and then opened, or not. */
  lemma AdvanceTwice(a: Ring, b: Ring, d: Ring, base: nat, synced: bool, ok: bool, evicted: nat)
    requires a.lastPhys < |a.pages| == |b.pages| && KeepsStored(a, b)
    requires b == a.(pages := b.pages, headDw := b.headDw, stage := b.stage, wiped := b.wiped)
    requires PageAdvanced(b, d, base, synced, ok, evicted)
    requires if ok then b.wiped == (|b.live| == |b.pages|) && |b.live| <= |b.pages| && b.absOrd >= b.FirstAbs() else d == b
    ensures PageAdvanced(a, d, base, synced, ok, evicted)
  {
    hide KeepsStored, OpenedLive;
    OpenedLiveSame(b, a, base, synced);
    if ok {
      OpenedFirst(b, d, base, synced);
      StoredTwice(a, b, d);
    }
  }

  lemma OpenedFirst(b: Ring, d: Ring, base: nat, synced: bool)
    requires b.lastPhys < |b.pages| && d.live == OpenedLive(b, base, synced) && |b.live| <= |b.pages| && b.FirstAbs() <= b.absOrd
    ensures |b.live| == |b.pages| && b.live != [] ==> d.FirstAbs() == b.End(0)
  {
  }

  lemma HeadIs(r: Ring, r': Ring, base: nat, synced: bool, split: bool, replay: bool, blocked: Option<AppendResult>, evicted: nat)
    requires r.lastPhys < |r.pages| && HeadOpened(r, r', base, synced, split, replay, blocked, evicted)
    ensures blocked.None? ==> r'.live != [] && !r'.headFull
    ensures blocked.Some? ==> blocked.value == if replay then Busy else FlashError
    ensures replay ==> (blocked.Some? <==> r.live == [] || r.headFull || split)
  {
  }

  lemma BlockedAppend(c: Crcs, r: Ring, r': Ring, rec: Record, base: nat, synced: bool, split: bool, replay: bool,
      blocked: Option<AppendResult>, evicted: nat)
    requires r.Valid(c) && r.lastPhys < |r.pages| && blocked.Some? && HeadOpened(r, r', base, synced, split, replay, blocked, evicted)
    ensures RecordAppended(r, r', rec, base, synced, split, blocked.value, evicted)
    ensures blocked == Some(Busy) && AllIntact(r) ==> AllIntact(r')
  {
    hide Ring.Valid, KeepsDurable, KeepsStored, KeepsAll, OpenedLive, AllIntact;
    StoredDurable(c, r, r');
    assert r'.contents + [] == r'.contents;
    if blocked == Some(Busy) && AllIntact(r) {
      AllStay(r, r');
    }
  }

  /** A head page was opened, and then `rec` written to it, or not. */
  lemma RecordDone(c: Crcs, r: Ring, open: Ring, r': Ring, rec: Record, base: nat, synced: bool, split: bool, replay: bool,
      evicted: nat, ok: bool)
    requires r.Valid(c) && open.Valid(c) && r.lastPhys < |r.pages| && HeadOpened(r, open, base, synced, split, replay, None, evicted)
    requires RecordWritten(open, r', rec, ok)
    ensures RecordAppended(r, r', rec, base, synced, split, if ok then Appended else FlashError, evicted)
    ensures ok && AllIntact(r) ==> AllIntact(r')
  {
    hide Ring.Valid, KeepsDurable, KeepsStored, KeepsAll, OpenedLive, AllIntact, Ring.Intact, Phantom, Opens, Ring.FirstAbs;
    if ok {
      StoredThen(r, open, r');
      StoredDurable(c, r, r');
      if AllIntact(r) {
        AllStay(r, r');
      }
    } else {
      DurableThen(c, r, open, r');
    }
  }

  // ---- Records stay where they are ------------------------------------------------------------

  /** The byte stream of live page `p`. */
  ghost function PageStream(r: Ring, p: nat): seq<byte>
    requires r.Shape() && p < |r.live|
  {
    var dws := r.pages[r.live[p].phys].dws;
    if p + 1 < |r.live| then Flushed(dws, WrittenDw(dws))
    else if r.headDw <= |dws| then Flushed(dws, r.headDw) + r.stage
    else []
  }

  lemma RunRange(r: Ring, p: nat)
    requires r.Shape() && r.RunsOk() && p < |r.live|
    ensures r.FirstAbs() <= r.live[p].firstOrd <= r.End(p) <= r.FirstAbs() + |r.contents|
    ensures Sized(r.Run(p), r.size) && |r.Run(p)| == r.End(p) - r.live[p].firstOrd && |Flat(r.Run(p))| <= PAGE_DATA
    ensures (p == 0 ==> !r.wiped) ==> r.recs[r.live[p].phys] == r.Run(p)
    ensures forall a :: r.live[p].firstOrd <= a < r.End(p) ==> r.Rec(a) == r.Run(p)[a - r.live[p].firstOrd]
  {
    hide Flat, Back, Ordered, Sized, Ring.Run, Ring.End, Ring.FirstAbs;
    RunOf(r, p);
    RunSized(r, p);
    RunRecs(r, p);
  }

  lemma RunSized(r: Ring, p: nat)
    requires p < |r.live| && r.FirstAbs() <= r.live[p].firstOrd <= r.End(p) <= r.FirstAbs() + |r.contents| && Sized(r.contents, r.size)
    ensures Sized(r.Run(p), r.size) && |r.Run(p)| == r.End(p) - r.live[p].firstOrd
  {
    hide Sized;
    SizedSlice(r.contents, r.size, r.live[p].firstOrd - r.FirstAbs(), r.End(p) - r.FirstAbs());
  }

  lemma SizedSlice(rs: seq<Record>, size: nat, lo: nat, hi: nat)
    requires Sized(rs, size) && lo <= hi <= |rs|
    ensures Sized(rs[lo..hi], size)
  {
  }

  lemma RunRecs(r: Ring, p: nat)
    requires p < |r.live| && r.FirstAbs() <= r.live[p].firstOrd <= r.End(p) <= r.FirstAbs() + |r.contents|
    ensures forall a :: r.live[p].firstOrd <= a < r.End(p) ==> r.Rec(a) == r.Run(p)[a - r.live[p].firstOrd]
  {
  }

  lemma PageAgrees(c: Crcs, r: Ring, p: nat)
    requires r.Shape() && r.RunsOk() && r.HeadersOk(c) && r.HeadOk() && DiskClean(c.header, r.pages, r.recs)
    requires p < |r.live| && (p == 0 ==> !r.wiped)
    ensures Agrees(PageStream(r, p), r.Run(p)) && |PageStream(r, p)| == r.StreamLen(p) <= PAGE_DATA
  {
    hide Flat, Flushed, Ring.RunsOk, Ring.Run, Agrees, Linked;
    RunRange(r, p);
    if p + 1 < |r.live| {
      assert r.HeaderOk(c, p);
      assert PageClean(c.header, r.pages[r.live[p].phys], r.recs[r.live[p].phys]);
    }
  }

  lemma PageOfRange(r: Ring, a: nat)
    requires r.live != [] && r.FirstAbs() <= a < r.absOrd
    ensures var p := PageOf(r.live, a, |r.live| - 1); r.live[p].firstOrd <= a < r.End(p)
  {
  }

  lemma IntactPage(c: Crcs, r: Ring, a: nat)
    requires r.Shape() && r.HeadersOk(c) && r.Intact(a)
    ensures var p := PageOf(r.live, a, |r.live| - 1); var k := a - r.live[p].firstOrd;
      && (p == 0 ==> !r.wiped) && r.live[p].firstOrd <= a < r.End(p)
      && (k + 1) * r.size == k * r.size + r.size <= r.StreamLen(p)
  {
    hide PageOf, Flushed, Linked, HeaderValid, Tidy;
    PageOfRange(r, a);
    var p := PageOf(r.live, a, |r.live| - 1);
    var k := a - r.live[p].firstOrd;
    NextRecord(k, r.size);
    if p == 0 && r.wiped {
      ErasedIsTidy();
    }
  }

  lemma NextRecord(k: nat, size: nat)
    ensures (k + 1) * size == k * size + size
    ensures size > 0 ==> (k + 1) * size > 0
  {
  }

  /** An intact record is in the stream of its page, at its place. */
  lemma IntactRead(c: Crcs, r: Ring, a: nat)
    requires r.Valid(c) && r.Intact(a)
    ensures var p := PageOf(r.live, a, |r.live| - 1); var k := a - r.live[p].firstOrd;
      Slot(PageStream(r, p), k, r.size) == r.Rec(a) && |r.Rec(a)| == r.size
      && k * r.size + r.size <= |PageStream(r, p)| <= PAGE_DATA
  {
    hide PageOf, Flat, Flushed, Agrees, PageClean, Ring.TimesOk, Ring.HeadersOk, Ring.HeadOk, Ring.RunsOk, DiskClean,
      Ring.StreamLen, Ring.Run, Ring.Rec, PageStream, Slot, Ring.Shape;
    var p := PageOf(r.live, a, |r.live| - 1);
    var k := a - r.live[p].firstOrd;
    IntactPage(c, r, a);
    PageAgrees(c, r, p);
    RunRange(r, p);
    SlotIs(PageStream(r, p), r.Run(p), r.size, k);
  }

  lemma WithHeadIntact(r: Ring, dws: seq<DoubleWord>, headDw: nat, stage: seq<byte>, headFull: bool, add: seq<Record>, a: nat)
    requires r.Intact(a) && |r.recs| == |r.pages| && WithHead(r, dws, headDw, stage, headFull, add).Shape()
    requires PageOf(r.live, a, |r.live| - 1) + 1 == |r.live| ==>
               (a - r.Head().firstOrd + 1) * r.size <= DW_DATA * headDw + |stage|
    ensures WithHead(r, dws, headDw, stage, headFull, add).Intact(a)
  {
    HeadPhys(r);
  }

  lemma WithNextErasedIntact(r: Ring, a: nat)
    requires r.Intact(a) && WithNextErased(r).Shape()
    requires |r.live| == |r.pages| ==> PageOf(r.live, a, |r.live| - 1) > 0
    ensures WithNextErased(r).Intact(a)
  {
    NextIsOldest(r);
  }

  lemma OpenedPageOf(r: Ring, base: nat, synced: bool, a: nat)
    requires r.lastPhys < |r.pages| && 1 < |r.pages| && r.live != [] && a < r.absOrd
    requires var live' := OpenedLive(r, base, synced); live'[0].firstOrd <= a
    requires r.live[0].firstOrd <= a
    ensures var live' := OpenedLive(r, base, synced); var k := |r.live| + 1 - |live'|;
      var p := PageOf(r.live, a, |r.live| - 1);
      k <= p && PageOf(live', a, |live'| - 1) == p - k && p + 1 - k < |live'| && live'[p - k] == r.live[p]
  {
    hide PageOf;
    var live' := OpenedLive(r, base, synced);
    var p := PageOf(r.live, a, |r.live| - 1);
    var k := |r.live| + 1 - |live'|;
    assert forall i :: 0 <= i < |live'| - 1 ==> live'[i] == r.live[i + k];
    if |r.live| == |r.pages| {
      assert live'[0] == r.live[1];
    }
    assert k <= p;
    PageOfIs(live', a, |live'| - 1, p - k);
  }

  lemma OpenedIntact(r: Ring, h: Header, base: nat, synced: bool, a: nat)
    requires r.Intact(a) && r.stage == [] && |r.recs| == |r.pages|
    requires WrittenDw(r.pages[r.Head().phys].dws) == r.headDw
    requires |r.live| == |r.pages| ==> r.live[0].firstOrd <= r.End(0) <= r.live[0].firstOrd + |r.contents|
    requires Opened(r, h, base, synced).Shape() && Opened(r, h, base, synced).FirstAbs() <= a
    ensures Opened(r, h, base, synced).Intact(a)
  {
    hide PageOf, Flushed;
    NextIsOldest(r);
    OpenedPageOf(r, base, synced, a);
  }

  // ---- The three things that happen to the head page ------------------------------------------

  /** Intact records stay intact when the head page's stream keeps its length `len`. */
  lemma WithHeadKeeps(r: Ring, dws: seq<DoubleWord>, headDw: nat, stage: seq<byte>, headFull: bool, add: seq<Record>, len: nat)
    requires r.Shape() && r.live != [] && |r.recs| == |r.pages| && WithHead(r, dws, headDw, stage, headFull, add).Shape()
    requires len <= DW_DATA * headDw + |stage|
    ensures forall a: nat :: r.Intact(a) && (PageOf(r.live, a, |r.live| - 1) + 1 == |r.live| ==> (a - r.Head().firstOrd + 1) * r.size <= len)
              ==> WithHead(r, dws, headDw, stage, headFull, add).Intact(a)
  {
    hide PageOf;
    forall a: nat | r.Intact(a) && (PageOf(r.live, a, |r.live| - 1) + 1 == |r.live| ==> (a - r.Head().firstOrd + 1) * r.size <= len)
      ensures WithHead(r, dws, headDw, stage, headFull, add).Intact(a)
    {
      WithHeadIntact(r, dws, headDw, stage, headFull, add, a);
    }
  }

  /** All intact records stay intact when the head page's stream does not shrink. */
  lemma WithHeadKeepsAll(r: Ring, dws: seq<DoubleWord>, headDw: nat, stage: seq<byte>, headFull: bool, add: seq<Record>)
    requires r.Shape() && r.live != [] && |r.recs| == |r.pages| && WithHead(r, dws, headDw, stage, headFull, add).Shape()
    requires r.StreamLen(|r.live| - 1) <= DW_DATA * headDw + |stage|
    ensures KeepsAll(r, WithHead(r, dws, headDw, stage, headFull, add))
  {
    hide PageOf;
    WithHeadKeeps(r, dws, headDw, stage, headFull, add, r.StreamLen(|r.live| - 1));
  }

  lemma PadFits(r: Ring, dw: DoubleWord)
    requires r.Shape() && |r.recs| == |r.pages| && r.HeadOk() && r.live != [] && r.headFull && r.stage != []
    requires |Flat(r.recs[r.Head().phys])| <= PAGE_DATA
    requires r.stage <= dw[..DW_DATA] && dw[7] == FRAME_BYTE
    ensures r.headDw < |r.pages[r.Head().phys].dws|
    ensures HeadFits(r, r.pages[r.Head().phys].dws[r.headDw := dw], r.headDw + 1, [], true, [])
    ensures Flushed(r.pages[r.Head().phys].dws[r.headDw := dw], r.headDw + 1) == Flushed(r.pages[r.Head().phys].dws, r.headDw) + dw[..DW_DATA]
  {
    hide Flat, WrittenDw;
    var dws := r.pages[r.Head().phys].dws;
    var dws' := dws[r.headDw := dw];
    ProgramAppends(dws, dw);
    assert r.recs[r.Head().phys] + [] == r.recs[r.Head().phys];
    assert Flushed(dws', r.headDw + 1) + [] == Flushed(dws', r.headDw + 1);
    assert r.Stream() <= Flushed(dws', r.headDw + 1);
  }

  /** Padding the staged tail of a closed page. */
  lemma PadStep(c: Crcs, r: Ring, dw: DoubleWord)
    requires r.Valid(c) && r.live != [] && r.headFull && r.stage != []
    requires r.stage <= dw[..DW_DATA] && dw[7] == FRAME_BYTE
    ensures r.headDw < |r.pages[r.Head().phys].dws|
    ensures var r' := WithHead(r, r.pages[r.Head().phys].dws[r.headDw := dw], r.headDw + 1, [], true, []);
      r'.Valid(c) && KeepsAll(r, r')
  {
    hide Flat, PageOf, Flushed, WrittenDw, Ring.HeadersOk, Ring.TimesOk, DiskClean, Ring.HeadOk, Ring.Intact, Ring.RunsOk,
      Ring.Run, KeepsAll, HeadFits, Back, Ordered, Sized, Tidy, Agrees;
    RunsLengths(r);
    RunRange(r, |r.live| - 1);
    PadFits(r, dw);
    var dws' := r.pages[r.Head().phys].dws[r.headDw := dw];
    WithHeadValid(c, r, dws', r.headDw + 1, [], true, []);
    WithHeadKeepsAll(r, dws', r.headDw + 1, [], true, []);
  }

  lemma CommitFits(r: Ring, dws: seq<DoubleWord>, headDw: nat, stage: seq<byte>, rec: Record, full: bool)
    requires r.Shape() && |r.recs| == |r.pages| && r.HeadOk() && r.live != [] && !r.headFull && !r.wiped && |rec| == r.size
    requires Tidy(dws) && WrittenDw(dws) == headDw && |stage| < DW_DATA
    requires Flushed(dws, headDw) + stage == r.Stream() + rec
    requires |Flat(r.recs[r.Head().phys])| + r.size + r.size <= PAGE_DATA || full
    ensures HeadFits(r, dws, headDw, stage, full, [rec])
  {
    FlatAppend(r.recs[r.Head().phys], rec);
  }

  lemma HeadCount(c: Crcs, r: Ring)
    requires r.Shape() && r.RunsOk() && r.HeadOk() && r.live != [] && !r.headFull
    ensures r.Head().firstOrd <= r.absOrd
    ensures |r.Stream()| == (r.absOrd - r.Head().firstOrd) * r.size == |Flat(r.recs[r.Head().phys])|
  {
    hide PageOf, Flat, Flushed, WrittenDw;
    RunRange(r, |r.live| - 1);
    FlatLength(r.Run(|r.live| - 1), r.size);
  }

  lemma NewestIntact(r: Ring, dws: seq<DoubleWord>, headDw: nat, stage: seq<byte>, rec: Record, full: bool)
    requires r.Shape() && r.live != [] && |r.recs| == |r.pages| && r.Head().firstOrd <= r.absOrd && r.live[0].firstOrd <= r.absOrd
    requires WithHead(r, dws, headDw, stage, full, [rec]).Shape()
    requires (r.absOrd - r.Head().firstOrd + 1) * r.size <= DW_DATA * headDw + |stage|
    ensures WithHead(r, dws, headDw, stage, full, [rec]).Intact(r.absOrd)
  {
    hide Flat, Flushed, WrittenDw;
    PageOfIs(r.live, r.absOrd, |r.live| - 1, |r.live| - 1);
  }

  /** The record `rec` went into the open head page. */
  lemma CommitStep(c: Crcs, r: Ring, dws: seq<DoubleWord>, headDw: nat, stage: seq<byte>, rec: Record, full: bool)
    requires r.Valid(c) && r.live != [] && !r.headFull && |rec| == r.size
    requires Tidy(dws) && WrittenDw(dws) == headDw && |stage| < DW_DATA
    requires Flushed(dws, headDw) + stage == r.Stream() + rec
    requires full <==> (r.absOrd - r.Head().firstOrd + 2) * r.size > PAGE_DATA
    ensures var r' := WithHead(r, dws, headDw, stage, full, [rec]);
      r'.Valid(c) && KeepsAll(r, r') && r'.Intact(r.absOrd)
  {
    hide PageOf, Ring.HeadersOk, Ring.TimesOk, DiskClean, Flat, Ring.Intact, Agrees, Tidy, Flushed;
    HeadCount(c, r);
    var n := r.absOrd - r.Head().firstOrd;
    assert (n + 2) * r.size == n * r.size + r.size + r.size && (n + 1) * r.size == n * r.size + r.size;
    assert |Flushed(dws, headDw) + stage| == |r.Stream() + rec|;
    CommitFits(r, dws, headDw, stage, rec, full);
    WithHeadValid(c, r, dws, headDw, stage, full, [rec]);
    WithHeadKeepsAll(r, dws, headDw, stage, full, [rec]);
    NewestIntact(r, dws, headDw, stage, rec, full);
  }

  lemma DropFits(r: Ring, dws: seq<DoubleWord>, headDw: nat, rec: Record, full: bool)
    requires r.Shape() && |r.recs| == |r.pages| && r.HeadOk() && r.live != [] && !r.headFull && !r.wiped && |rec| <= r.size
    requires |Flat(r.recs[r.Head().phys])| <= PAGE_DATA
    requires Tidy(dws) && WrittenDw(dws) == headDw
    requires Flushed(dws, headDw) <= r.Stream() + rec && DW_DATA * headDw + DW_DATA <= |r.Stream()| + |rec|
    requires full <==> headDw != r.headDw || r.stage != []
    ensures HeadFits(r, dws, headDw, [], full, [])
  {
    var rs := r.recs[r.Head().phys];
    assert rs + [] == rs;
    assert Flushed(dws, headDw) + [] == Flushed(dws, headDw);
    if |Flushed(dws, headDw)| >= |Flat(rs)| {
      assert Flushed(dws, headDw)[..|Flat(rs)|] == Flat(rs);
    } else {
      assert Flushed(dws, headDw) <= Flat(rs);
    }
  }

  /** A double word could not be programmed while `rec` was being written: the staged bytes are
      dropped, and the page is closed unless nothing but them is missing from the stream. */
  lemma DropStep(c: Crcs, r: Ring, dws: seq<DoubleWord>, headDw: nat, rec: Record, full: bool)
    requires r.Valid(c) && r.live != [] && !r.headFull && |rec| <= r.size
    requires Tidy(dws) && WrittenDw(dws) == headDw >= r.headDw
    requires Flushed(dws, headDw) <= r.Stream() + rec && DW_DATA * headDw + DW_DATA <= |r.Stream()| + |rec|
    requires full <==> headDw != r.headDw || r.stage != []
    ensures var r' := WithHead(r, dws, headDw, [], full, []);
      r'.Valid(c) && KeepsDurable(r, r')
  {
    hide PageOf, Ring.HeadersOk, Ring.TimesOk, DiskClean, Flat, Ordered, Sized;
    var last := |r.live| - 1;
    RunRange(r, last);
    DropFits(r, dws, headDw, rec, full);
    WithHeadValid(c, r, dws, headDw, [], full, []);
    forall a: nat | r.Durable(a)
      ensures r.Intact(a) && (PageOf(r.live, a, last) == last ==> (a - r.Head().firstOrd + 1) * r.size <= DW_DATA * r.headDw)
    {
      DurableIs(r, a);
    }
    hide Ring.Durable, Ring.Intact;
    WithHeadKeeps(r, dws, headDw, [], full, [], DW_DATA * r.headDw);
  }

  lemma DurableIs(r: Ring, a: nat)
    requires r.Shape() && |r.recs| == |r.pages| && r.HeadOk() && r.Durable(a)
    ensures r.Intact(a)
    ensures PageOf(r.live, a, |r.live| - 1) == |r.live| - 1 ==> (a - r.Head().firstOrd + 1) * r.size <= DW_DATA * r.headDw
  {
    hide PageOf, Back;
  }

  /** Erasing the next page: only the records of the page erased can lose anything. */
  lemma EraseStep(c: Crcs, r: Ring)
    requires r.Valid(c) && (r.live != [] ==> r.headFull)
    ensures var r' := WithNextErased(r);
      r'.Valid(c) && r'.pages[Next(r.lastPhys, |r.pages|)] == ErasedPage()
      && KeepsStored(r, r')
  {
    hide PageOf, Ring.RunsOk, Ring.HeadersOk, Ring.TimesOk, DiskClean, Flat, Flushed;
    WithNextErasedValid(c, r);
    forall a: nat | r.Intact(a) && (|r.live| == |r.pages| ==> r.End(0) <= a)
      ensures WithNextErased(r).Intact(a)
    {
      WithNextErasedIntact(r, a);
    }
  }

  lemma OpenedKeeps(r: Ring, base: nat, synced: bool, h: Header)
    requires r.stage == [] && r.Shape() && |r.recs| == |r.pages|
    requires r.live != [] ==> WrittenDw(r.pages[r.Head().phys].dws) == r.headDw
    requires |r.live| == |r.pages| ==> r.live[0].firstOrd <= r.End(0) <= r.live[0].firstOrd + |r.contents|
    requires Opened(r, h, base, synced).Shape()
    ensures var r' := Opened(r, h, base, synced); forall a: nat :: r.Intact(a) && r'.FirstAbs() <= a ==> r'.Intact(a)
  {
    hide PageOf, Flushed, WrittenDw;
    forall a: nat | r.Intact(a) && Opened(r, h, base, synced).FirstAbs() <= a
      ensures Opened(r, h, base, synced).Intact(a)
    {
      OpenedIntact(r, h, base, synced, a);
    }
  }

  /** Opening the erased next page: every record that stays stored stays intact. */
  lemma OpenStep(c: Crcs, r: Ring, base: nat, synced: bool, h: Header)
    requires r.Valid(c) && (|r.live| == |r.pages| ==> r.wiped) && r.stage == []
    requires 0 < r.size <= PAGE_DATA && OpensWith(c, r, h, base, synced)
    requires r.pages[Next(r.lastPhys, |r.pages|)] == ErasedPage()
    ensures |r.live| == |r.pages| ==> r.live[0].firstOrd <= r.End(0) <= r.live[0].firstOrd + |r.contents|
    ensures var r' := Opened(r, h, base, synced);
      && r'.Valid(c) && r'.FirstAbs() == r.FirstAbs() + Evicted(r) && Evicted(r) <= |r.contents|
      && r'.live == OpenedLive(r, base, synced) && r'.contents == r.contents[Evicted(r)..] && !r'.headFull && !r'.wiped
      && KeepsStored(r, r')
  {
    hide PageOf, Ring.RunsOk, Ring.HeadersOk, Ring.TimesOk, PageClean, Linked, Flat, Flushed, WrittenDw, Agrees,
      Ring.Intact, Ring.Shape;
    OpenedValid(c, r, base, synced, h);
    OpenedKeeps(r, base, synced, h);
  }

  // ---- Facts a caller needs of a valid ring ----------------------------------------------------

  lemma ValidShape(c: Crcs, r: Ring)
    requires r.Valid(c)
    ensures r.Shape() && (r.live == [] ==> r.stage == []) && (r.wiped ==> r.live != [] && r.headFull) && 3 <= |r.pages| && r.lastPhys < |r.pages| && |r.live| <= |r.pages|
    ensures |r.recs| == |r.pages| && r.FirstAbs() <= r.absOrd && |r.contents| == r.absOrd - r.FirstAbs()
    ensures r.live != [] ==> r.Head().firstOrd <= r.absOrd && r.Head().phys == r.lastPhys
    ensures r.live != [] ==> 0 < r.size <= PAGE_DATA
    ensures r.live != [] ==> |r.pages[r.lastPhys].dws| == PAYLOAD_DW
    ensures r.live != [] ==> Tidy(r.pages[r.lastPhys].dws) && WrittenDw(r.pages[r.lastPhys].dws) == r.headDw
    ensures |r.live| == |r.pages| ==> r.live[0].firstOrd <= r.End(0) <= r.live[0].firstOrd + |r.contents|
  {
    hide Flat, Flushed, WrittenDw;
    if r.live != [] {
      RunRange(r, |r.live| - 1);
      RunRange(r, 0);
    }
  }

  /** RAM as a boot leaves it before the first mount. */
  function BootState(pages: seq<Page>, recs: seq<seq<Record>>): Ring
    requires |pages| >= 1
  {
    Ring(pages, 0, 0, 0, [], 0, 0, |pages| - 1, 0, [], false, [], recs, false)
  }

  lemma BlankValid(c: Crcs, n: nat)
    requires 3 <= n && n * 1764 <= 0xFFFF
    ensures BootState(BlankPages(n), seq(n, _ => [])).Valid(c)
  {
  }

  /** An open head page has room for one more record. */
  lemma HeadRoom(c: Crcs, r: Ring)
    requires r.Valid(c) && r.live != [] && !r.headFull
    ensures r.Shape() && r.Stream() == Flat(r.recs[r.Head().phys]) && |r.Stream()| + r.size <= PAGE_DATA
  {
    hide Flat, Flushed, WrittenDw, Ring.RunsOk, Ring.HeadersOk, Ring.TimesOk;
  }

  lemma TidyRoom(dws: seq<DoubleWord>, k: nat)
    requires Tidy(dws) && WrittenDw(dws) == k && DW_DATA * k + DW_DATA <= PAGE_DATA
    ensures k < |dws| && dws[k] == ERASED_DW
  {
  }

  lemma StageByte(f: seq<byte>, before: seq<byte>, st: seq<byte>, rec: seq<byte>, i: nat)
    requires i < |rec| && f + before == st + rec[..i]
    ensures f + (before + [rec[i]]) == st + rec[..i + 1]
    ensures st + rec[..i + 1] <= st + rec
  {
    assert f + (before + [rec[i]]) == (f + before) + [rec[i]];
    assert rec[..i + 1] == rec[..i] + [rec[i]];
    assert st + rec == st + rec[..i + 1] + rec[i + 1..];
  }

  lemma RoomIs(count: nat, rpp: nat, size: nat)
    requires rpp * size <= PAGE_DATA < (rpp + 1) * size
    ensures count >= rpp <==> (count + 1) * size > PAGE_DATA
  {
    if count >= rpp {
      assert (count + 1) * size == (rpp + 1) * size + (count - rpp) * size;
    } else {
      assert rpp * size == (count + 1) * size + (rpp - count - 1) * size;
    }
  }

  lemma DurableIntact(c: Crcs, r: Ring)
    requires r.Valid(c)
    ensures forall a: nat :: r.Durable(a) ==> r.Intact(a)
  {
    hide Ring.Intact, Ring.Durable, Ring.HeadOk, Ring.HeadersOk, Ring.TimesOk, DiskClean;
    forall a: nat | r.Durable(a)
      ensures r.Intact(a)
    {
      DurableIs(r, a);
    }
  }

  lemma IntactDurable(c: Crcs, r: Ring)
    requires r.Valid(c)
    ensures r.stage == [] ==> forall a: nat :: r.Intact(a) ==> r.Durable(a)
  {
    hide Ring.Intact, Ring.Durable, Ring.HeadOk, Ring.HeadersOk, Ring.TimesOk, DiskClean;
    forall a: nat | r.Intact(a) && r.stage == []
      ensures r.Durable(a)
    {
      IntactIs(r, a);
    }
  }

  lemma IntactIs(r: Ring, a: nat)
    requires r.Shape() && |r.recs| == |r.pages| && r.HeadOk() && r.stage == [] && r.Intact(a)
    ensures r.Durable(a)
  {
    hide PageOf, Back;
  }

  /** An open head page takes one more record without reaching its record limit. */
  lemma OpenHasRoom(c: Crcs, r: Ring, rpp: nat)
    requires r.Valid(c) && r.live != [] && !r.headFull && r.Head().firstOrd <= r.absOrd
    requires rpp * r.size <= PAGE_DATA < (rpp + 1) * r.size
    ensures r.absOrd - r.Head().firstOrd + 1 <= rpp
  {
    hide Flat, Flushed, WrittenDw, Ring.HeadersOk, Ring.TimesOk, DiskClean, Ring.HeadOk, Ring.RunsOk;
    HeadRoom(c, r);
    HeadCount(c, r);
    var n := r.absOrd - r.Head().firstOrd;
    assert (n + 1) * r.size == n * r.size + r.size;
    RoomIs(n, rpp, r.size);
  }

  /** Closing the head page changes nothing else. */
  lemma CloseStep(c: Crcs, r: Ring)
    requires r.Valid(c) && r.live != []
    ensures r.(headFull := true).Valid(c)
    ensures KeepsAll(r, r.(headFull := true))
  {
    hide Flat, Flushed, WrittenDw, PageOf, Ring.HeadersOk, Ring.TimesOk, Ring.Intact;
    ValidShape(c, r);
    RunRange(r, |r.live| - 1);
    var dws := r.pages[r.lastPhys].dws;
    assert r.recs[r.lastPhys] + [] == r.recs[r.lastPhys];
    WithHeadValid(c, r, dws, r.headDw, r.stage, true, []);
    WithHeadKeepsAll(r, dws, r.headDw, r.stage, true, []);
    WithHeadNothing(r, dws, r.headDw, r.stage, true);
    assert r.pages[r.lastPhys := r.pages[r.lastPhys].(dws := dws)] == r.pages;
  }

  lemma PagePhys(c: Crcs, r: Ring, p: nat)
    requires r.Valid(c) && p < |r.live|
    ensures r.live[p].phys < |r.pages| && |r.pages[r.live[p].phys].dws| == PAYLOAD_DW
    ensures r.live[p].phys == r.Head().phys <==> p + 1 == |r.live|
  {
    hide Flat, Flushed, WrittenDw, Tidy, Ring.RunsOk, Ring.HeadersOk, Ring.TimesOk, Linked, Agrees;
  }

  lemma SliceGrows(st: seq<byte>, off: nat, j: nat, dst: seq<byte>, b: byte)
    requires off + j < |st| && dst == st[off..off + j] && b == st[off + j]
    ensures dst + [b] == st[off..off + j + 1]
  {
  }

  /** What a read of live page `p` can reach: all data bytes of a page behind the head, erased or not;
      of the head page what was written to it, the staged tail included. */
  ghost function ReadStream(r: Ring, p: nat): seq<byte>
    requires r.Shape() && p < |r.live|
  {
    var dws := r.pages[r.live[p].phys].dws;
    if p + 1 < |r.live| then Flushed(dws, |dws|) else PageStream(r, p)
  }

  /** What a read of ordinal `a` gives. */
  ghost function ReadRec(r: Ring, a: nat): Option<Record>
    requires r.Shape()
  {
    if r.live == [] || a < r.FirstAbs() || a >= r.absOrd then None
    else
      var p := PageOf(r.live, a, |r.live| - 1);
      var k := a - r.live[p].firstOrd;
      if k * r.size + r.size <= |ReadStream(r, p)| then Some(Slot(ReadStream(r, p), k, r.size)) else None
  }

  /** The bytes a read of ordinal `a` leaves behind. */
  ghost function ReadBytes(r: Ring, a: nat): Record
    requires r.Shape()
  {
    if ReadRec(r, a).Some? then ReadRec(r, a).value else r.Rec(a)
  }

  /** The page of ordinal `a` is not the head. */
  ghost predicate BehindHead(r: Ring, a: nat) {
    r.live != [] && PageOf(r.live, a, |r.live| - 1) + 1 < |r.live|
  }

  lemma ReadStreamIs(c: Crcs, r: Ring, p: nat)
    requires r.Valid(c) && p < |r.live|
    ensures |PageStream(r, p)| == r.StreamLen(p) <= PAGE_DATA && PageStream(r, p) <= ReadStream(r, p)
    ensures |ReadStream(r, p)| == if p + 1 < |r.live| then PAGE_DATA else r.StreamLen(p)
    ensures p + 1 < |r.live| ==> forall d :: |PageStream(r, p)| <= d < PAGE_DATA ==> ReadStream(r, p)[d] == ERASED_BYTE
  {
    hide Flat, Flushed, WrittenDw, Tidy, Linked, Agrees, Ring.RunsOk, Ring.TimesOk;
    PagePhys(c, r, p);
    var dws := r.pages[r.live[p].phys].dws;
    if p + 1 < |r.live| {
      LiveTidy(c, r, p);
      FlushedPrefix(dws, WrittenDw(dws), |dws|);
      forall d | |PageStream(r, p)| <= d < PAGE_DATA
        ensures ReadStream(r, p)[d] == ERASED_BYTE
      {
        FlushedErased(dws, d);
      }
    }
  }

  lemma LiveTidy(c: Crcs, r: Ring, p: nat)
    requires r.Shape() && r.HeadersOk(c) && DiskClean(c.header, r.pages, r.recs) && p < |r.live|
    ensures r.live[p].phys < |r.pages| && Tidy(r.pages[r.live[p].phys].dws)
  {
    hide Flat, Flushed, WrittenDw, Tidy, Linked, Agrees;
    if p == 0 && r.wiped {
      ErasedIsTidy();
    } else {
      assert r.HeaderOk(c, p);
      assert PageClean(c.header, r.pages[r.live[p].phys], r.recs[r.live[p].phys]);
    }
  }

  /** Past the flushed bytes of the head page come the staged ones. */
  lemma StagedByte(r: Ring, p: nat, d: nat)
    requires r.Shape() && p + 1 == |r.live| && r.headDw <= |r.pages[r.live[p].phys].dws|
    requires d >= DW_DATA * r.headDw
    ensures |ReadStream(r, p)| == DW_DATA * r.headDw + |r.stage|
    ensures d < |ReadStream(r, p)| ==> ReadStream(r, p)[d] == r.stage[d - DW_DATA * r.headDw]
  {
  }

  /** Byte `d` of a page, where a read finds it on flash. */
  lemma PageByte(c: Crcs, r: Ring, p: nat, d: nat)
    requires r.Valid(c) && p < |r.live| && d < |ReadStream(r, p)| && (p + 1 == |r.live| ==> d < DW_DATA * r.headDw)
    ensures var phys := r.live[p].phys;
      && phys < |r.pages| && d / DW_DATA < |r.pages[phys].dws|
      && ReadStream(r, p)[d] == r.pages[phys].dws[d / DW_DATA][d % DW_DATA]
  {
    hide Flat, Ring.RunsOk, Ring.HeadersOk, Ring.TimesOk, DiskClean, Ring.HeadOk, Flushed, WrittenDw;
    PagePhys(c, r, p);
    var dws := r.pages[r.live[p].phys].dws;
    FlushedAt(dws, if p + 1 < |r.live| then |dws| else r.headDw, d);
  }

  /** A stored record lies within the data bytes of its page. */
  lemma RecordFits(c: Crcs, r: Ring, a: nat)
    requires r.Valid(c) && r.live != [] && r.FirstAbs() <= a < r.absOrd
    ensures var p := PageOf(r.live, a, |r.live| - 1);
      r.live[p].firstOrd <= a && (a - r.live[p].firstOrd) * r.size + r.size <= PAGE_DATA
  {
    hide PageOf, Flat, Flushed, WrittenDw, Ring.HeadersOk, Ring.TimesOk, DiskClean, Ring.HeadOk, Ring.RunsOk,
      Ring.Run, Ring.Shape;
    PageOfRange(r, a);
    var p := PageOf(r.live, a, |r.live| - 1);
    RunRange(r, p);
    FlatLength(r.Run(p), r.size);
    MulBelow(a - r.live[p].firstOrd, |r.Run(p)|, r.size);
  }

  lemma MulBelow(k: nat, n: nat, size: nat)
    requires k < n
    ensures k * size + size <= n * size
  {
    assert n * size == (k + 1) * size + (n - k - 1) * size;
    assert (k + 1) * size == k * size + size;
  }

  /** A read of a stored record: it fails exactly on the head page, of a record with a byte missing;
      behind the head it always succeeds. An intact record is read as it was appended. */
  lemma ReadRecIs(c: Crcs, r: Ring, a: nat)
    requires r.Valid(c) && r.live != [] && r.FirstAbs() <= a < r.absOrd
    ensures r.Shape() && (ReadRec(r, a).None? <==> !r.Intact(a) && !BehindHead(r, a))
    ensures ReadRec(r, a).Some? ==> |ReadRec(r, a).value| == r.size
    ensures r.Intact(a) ==> ReadRec(r, a) == Some(r.Rec(a))
  {
    hide Ring.Valid, Ring.Rec, Ring.Run, PageStream, ReadStream, PageOf, Flat, Ring.StreamLen, Ring.Shape, Slot;
    ValidShape(c, r);
    RecordFits(c, r, a);
    var p := PageOf(r.live, a, |r.live| - 1);
    var k := a - r.live[p].firstOrd;
    ReadStreamIs(c, r, p);
    NextRecord(k, r.size);
    if k * r.size + r.size <= |ReadStream(r, p)| {
      SlotLength(ReadStream(r, p), k, r.size);
    }
    if r.Intact(a) {
      IntactRead(c, r, a);
      SlotPrefix(PageStream(r, p), ReadStream(r, p), k, r.size);
    }
  }

  lemma SlotLength(st: seq<byte>, k: nat, size: nat)
    requires k * size + size <= |st|
    ensures |Slot(st, k, size)| == size && forall i :: 0 <= i < size ==> Slot(st, k, size)[i] == st[k * size + i]
  {
  }

  lemma SlotPrefix(st: seq<byte>, more: seq<byte>, k: nat, size: nat)
    requires st <= more && k * size + size <= |st|
    ensures Slot(more, k, size) == Slot(st, k, size)
  {
  }

  /** A stored record among those of its page. */
  lemma RecordRun(c: Crcs, r: Ring, a: nat)
    requires r.Valid(c) && r.live != [] && r.FirstAbs() <= a < r.absOrd
    ensures var p := PageOf(r.live, a, |r.live| - 1); var k := a - r.live[p].firstOrd;
      r.live[p].firstOrd <= a && Sized(r.Run(p), r.size) && k < |r.Run(p)| && r.Rec(a) == r.Run(p)[k] && |r.Rec(a)| == r.size
  {
    hide Flat, Flushed, WrittenDw, Ring.HeadersOk, Ring.TimesOk, DiskClean, Ring.HeadOk, Ring.RunsOk, Ring.Run, Ring.Shape,
      PageOf;
    PageOfRange(r, a);
    RunRange(r, PageOf(r.live, a, |r.live| - 1));
  }

  /** Behind the head page, a read gives the bytes of the record that are in its page's stream, and
      erased bytes for those that were lost with the staged tail or with the page. */
  lemma BehindHeadRead(c: Crcs, r: Ring, a: nat, i: nat)
    requires r.Valid(c) && r.live != [] && r.FirstAbs() <= a < r.absOrd && BehindHead(r, a) && i < r.size
    ensures var p := PageOf(r.live, a, |r.live| - 1); var at := (a - r.live[p].firstOrd) * r.size + i;
      && r.Shape() && ReadRec(r, a).Some? && |ReadRec(r, a).value| == r.size == |r.Rec(a)|
      && ReadRec(r, a).value[i] == if at < r.StreamLen(p) then r.Rec(a)[i] else ERASED_BYTE
  {
    hide Ring.Valid, ReadStream, ReadRec, PageOf, Ring.StreamLen, Ring.Shape, Ring.Rec, BehindHead, Ring.Run, Sized, Times;
    RecordRun(c, r, a);
    var at := Times(a - r.live[PageOf(r.live, a, |r.live| - 1)].firstOrd, r.size) + i;
    ReadByteAt(c, r, a, i, at);
    StreamByteAt(c, r, a, i, at);
  }

  function Times(k: nat, n: nat): (m: nat)
    ensures m == k * n
  {
    k * n
  }

  lemma ReadByteAt(c: Crcs, r: Ring, a: nat, i: nat, at: nat)
    requires r.Valid(c) && r.live != [] && r.FirstAbs() <= a < r.absOrd && BehindHead(r, a) && i < r.size
    requires at == (a - r.live[PageOf(r.live, a, |r.live| - 1)].firstOrd) * r.size + i
    ensures r.Shape() && ReadRec(r, a).Some? && |ReadRec(r, a).value| == r.size
    ensures var st := ReadStream(r, PageOf(r.live, a, |r.live| - 1));
      at < |st| == PAGE_DATA && ReadRec(r, a).value[i] == st[at]
  {
    hide Ring.Valid, PageStream, ReadStream, PageOf, Ring.StreamLen, Ring.Shape, Slot;
    ValidShape(c, r);
    RecordFits(c, r, a);
    var p := PageOf(r.live, a, |r.live| - 1);
    ReadStreamIs(c, r, p);
    SlotLength(ReadStream(r, p), a - r.live[p].firstOrd, r.size);
  }

  lemma StreamByteAt(c: Crcs, r: Ring, a: nat, i: nat, at: nat)
    requires r.Valid(c) && r.live != [] && r.FirstAbs() <= a < r.absOrd && BehindHead(r, a) && i < r.size && at < PAGE_DATA
    requires at == (a - r.live[PageOf(r.live, a, |r.live| - 1)].firstOrd) * r.size + i
    ensures r.Shape() && |r.Rec(a)| == r.size
    ensures var p := PageOf(r.live, a, |r.live| - 1);
      at < |ReadStream(r, p)| && ReadStream(r, p)[at] == if at < r.StreamLen(p) then r.Rec(a)[i] else ERASED_BYTE
  {
    hide Ring.Valid, PageStream, ReadStream, PageOf, Flat, Ring.StreamLen, Ring.Shape, Agrees, Ring.Rec, Ring.Run, Sized;
    ValidShape(c, r);
    RecordRun(c, r, a);
    var p := PageOf(r.live, a, |r.live| - 1);
    ReadStreamIs(c, r, p);
    if at < r.StreamLen(p) {
      StreamedPage(c, r, p);
      SlotByte(PageStream(r, p), r.Run(p), r.size, a - r.live[p].firstOrd, i);
    }
  }

  /** A page with a byte in its stream is not the erased one. */
  lemma StreamedPage(c: Crcs, r: Ring, p: nat)
    requires r.Valid(c) && p < |r.live| && r.StreamLen(p) > 0
    ensures Agrees(PageStream(r, p), r.Run(p))
  {
    hide Flat, Flushed, Ring.RunsOk, Ring.Run, Agrees, Linked, Ring.TimesOk, Ring.HeadOk, PageStream, DiskClean;
    ErasedIsTidy();
    PageAgrees(c, r, p);
  }

  /** Byte `i` of record `k`, as far as a stream that agrees with the records reaches. */
  lemma SlotByte(st: seq<byte>, rs: seq<Record>, size: nat, k: nat, i: nat)
    requires Agrees(st, rs) && Sized(rs, size) && k < |rs| && i < size && k * size + i < |st|
    ensures k * size + i < |Flat(rs)| && st[k * size + i] == rs[k][i]
  {
    hide Flat;
    FlatLength(rs, size);
    MulBelow(k, |rs|, size);
    assert (k + 1) * size == k * size + size;
    SlotIs(Flat(rs), rs, size, k);
    assert Flat(rs)[k * size + i] == Slot(Flat(rs), k, size)[i];
  }

  /** When what a read gives is what was appended: every byte that is not in the page's stream would
      have to be an erased one. */
  ghost predicate ReadsBack(r: Ring, a: nat)
    requires r.Shape() && r.live != [] && r.FirstAbs() <= a
  {
    var p := PageOf(r.live, a, |r.live| - 1);
    forall i :: 0 <= i < |r.Rec(a)| && i >= r.StreamLen(p) - (a - r.live[p].firstOrd) * r.size ==> r.Rec(a)[i] == ERASED_BYTE
  }

  /** A read gives the record as it was appended exactly if it is intact, or behind the head page and
      nothing but erased bytes of its own is missing. */
  lemma ReadExact(c: Crcs, r: Ring, a: nat)
    requires r.Valid(c) && r.Shape() && r.live != [] && r.FirstAbs() <= a < r.absOrd
    ensures ReadRec(r, a) == Some(r.Rec(a)) <==> r.Intact(a) || (BehindHead(r, a) && ReadsBack(r, a))
  {
    hide Ring.Valid, ReadRec, PageOf, Ring.Intact, Ring.Rec, Ring.StreamLen, BehindHead, Ring.Shape;
    ReadRecIs(c, r, a);
    ValidShape(c, r);
    RecordRun(c, r, a);
    if BehindHead(r, a) {
      var p := PageOf(r.live, a, |r.live| - 1);
      forall i | 0 <= i < r.size
        ensures ReadRec(r, a).value[i] == if i < r.StreamLen(p) - (a - r.live[p].firstOrd) * r.size then r.Rec(a)[i] else ERASED_BYTE
      {
        BehindHeadRead(c, r, a, i);
      }
      SameFrom(ReadRec(r, a).value, r.Rec(a), r.StreamLen(p) - (a - r.live[p].firstOrd) * r.size);
    }
  }

  lemma SameFrom(x: seq<byte>, y: seq<byte>, from: int)
    requires |x| == |y| && forall i :: 0 <= i < |x| ==> x[i] == if i < from then y[i] else ERASED_BYTE
    ensures x == y <==> forall i :: 0 <= i < |y| && i >= from ==> y[i] == ERASED_BYTE
  {
  }

  /** A run that reads back other bytes than were appended: while `rec` is written, the program of the
      double word with the staged bytes fails; the page is closed, and the next append opens another.
      Every record with a byte only in the stage, counted long before, is still in the ring, and reads
      without an error, its last byte erased. */
  lemma DroppedReadsErased(c: Crcs, r: Ring, rec: Record, base: nat, synced: bool, h: Header, a: nat)
    requires r.Valid(c) && r.live != [] && !r.headFull && r.Intact(a) && !r.Durable(a)
    requires |rec| == r.size && |r.stage| + r.size >= DW_DATA && r.Head().phys < |r.pages| == |r.recs|
    requires OpensWith(c, Dropped(r), h, base, synced)
    ensures r.lastPhys < |r.pages| && CanOpen(WithNextErased(Dropped(r)))
    ensures var o := Opened(WithNextErased(Dropped(r)), h, base, synced);
      && o.Valid(c) && o.Shape() && o.live != [] && o.FirstAbs() <= a < o.absOrd && o.Rec(a) == r.Rec(a)
      && ReadRec(o, a).Some? && |ReadRec(o, a).value| == o.size > 0 && ReadRec(o, a).value[o.size - 1] == ERASED_BYTE
  {
    hide Ring.Valid, Ring.Intact, Ring.Durable, Ring.Rec, ReadRec, PageOf, KeepsStored, KeepsDurable, Opened,
      BehindHead, Ring.Shape, Back;
    var d := Dropped(r);
    ValidShape(c, r);
    OnlyStaged(c, r, a);
    DroppedIs(c, r, rec);
    EraseStep(c, d);
    var q := WithNextErased(d);
    ValidShape(c, q);
    OpenStep(c, q, base, synced, h);
    var o := Opened(q, h, base, synced);
    ValidShape(c, o);
    DroppedStays(c, r, d, h, base, synced, a);
    BehindHeadRead(c, o, a, o.size - 1);
  }

  /** The ring after the staged bytes were dropped and the head page closed. */
  function Dropped(r: Ring): Ring { r.(stage := [], headFull := true) }

  predicate CanOpen(r: Ring) {
    && r.lastPhys < |r.pages| == |r.recs|
    && (|r.live| == |r.pages| ==> r.live != [] && r.live[0].firstOrd <= r.End(0) <= r.live[0].firstOrd + |r.contents|)
  }

  /** A record with all its bytes in place but not all on flash is on the head page, in the stage. */
  lemma OnlyStaged(c: Crcs, r: Ring, a: nat)
    requires r.Valid(c) && r.Intact(a) && !r.Durable(a)
    ensures r.live != [] && r.stage != [] && PageOf(r.live, a, |r.live| - 1) == |r.live| - 1
    ensures r.Head().firstOrd <= a < r.absOrd && r.FirstAbs() <= a
    ensures (a - r.Head().firstOrd + 1) * r.size > DW_DATA * r.headDw
  {
    hide PageOf, Flat, Flushed, Ring.RunsOk, Ring.HeadersOk, Ring.TimesOk, DiskClean, Agrees;
    ValidShape(c, r);
  }

  lemma DroppedIs(c: Crcs, r: Ring, rec: Record)
    requires r.Valid(c) && r.live != [] && !r.headFull && r.stage != [] && |rec| == r.size && |r.stage| + r.size >= DW_DATA
    ensures Dropped(r).Valid(c)
  {
    hide Flat, WrittenDw, Ring.RunsOk, Ring.HeadersOk, Ring.TimesOk, DiskClean, KeepsDurable, Tidy;
    ValidShape(c, r);
    HeadRoom(c, r);
    var dws := r.pages[r.lastPhys].dws;
    DropStep(c, r, dws, r.headDw, rec, true);
    WithHeadNothing(r, dws, r.headDw, [], true);
    assert r.pages[r.lastPhys := r.pages[r.lastPhys].(dws := dws)] == r.pages;
  }

  lemma DroppedStays(c: Crcs, r: Ring, d: Ring, h: Header, base: nat, synced: bool, a: nat)
    requires r.Valid(c) && d == Dropped(r) && r.live != [] && PageOf(r.live, a, |r.live| - 1) == |r.live| - 1
    requires r.Head().firstOrd <= a < r.absOrd && r.FirstAbs() <= a
    requires (a - r.Head().firstOrd + 1) * r.size > DW_DATA * r.headDw
    requires d.lastPhys < |d.pages| && CanOpen(WithNextErased(d))
    requires Opened(WithNextErased(d), h, base, synced).Shape()
    ensures var o := Opened(WithNextErased(d), h, base, synced); var p := PageOf(o.live, a, |o.live| - 1);
      && BehindHead(o, a) && o.FirstAbs() <= a < o.absOrd && o.Rec(a) == r.Rec(a) && o.live[p].firstOrd <= a && o.size > 0
      && (a - o.live[p].firstOrd) * o.size + o.size - 1 >= o.StreamLen(p)
  {
    hide PageOf, Flat, Flushed, WrittenDw, Ring.Valid, Tidy, Back, Ring.Shape, Ring.StreamLen, Opened, Ring.Rec, Next, Ordered,
      WithNextErased;
    ValidShape(c, r);
    RingOrdered(c, r);
    var q := WithNextErased(d);
    var o := Opened(q, h, base, synced);
    ErasedHolds(d);
    OpenedPage(q, h, base, synced);
    SameRec(r, q, a);
    OpenedHolds(q, h, base, synced, a);
    NextRecord(a - r.Head().firstOrd, r.size);
    ClosedLen(o, r.pages[r.lastPhys].dws, PageOf(o.live, a, |o.live| - 1));
  }

  /** A record of the head page, after another page was opened. */
  lemma OpenedHolds(r: Ring, h: Header, base: nat, synced: bool, a: nat)
    requires CanOpen(r) && 2 < |r.pages| && |r.live| <= |r.pages| && Ordered(r.live) && r.live != []
    requires PageOf(r.live, a, |r.live| - 1) == |r.live| - 1 && r.Head().firstOrd <= a < r.absOrd == r.FirstAbs() + |r.contents|
    ensures var o := Opened(r, h, base, synced); var p := PageOf(o.live, a, |o.live| - 1);
      && p + 2 == |o.live| && o.live[p] == r.Head() && o.FirstAbs() <= a < o.absOrd && o.Rec(a) == r.Rec(a)
  {
    hide PageOf, Ordered, Next;
    OrderedAt(r.live, 0, |r.live| - 1);
    if |r.live| == |r.pages| {
      OrderedAt(r.live, 1, |r.live| - 1);
    }
    OpenedPageOf(r, base, synced, a);
  }

  lemma SameRec(r: Ring, q: Ring, a: nat)
    requires q.live == r.live && q.contents == r.contents && q.absOrd == r.absOrd
    ensures q.Rec(a) == r.Rec(a) && q.FirstAbs() == r.FirstAbs() && (r.live != [] ==> q.Head() == r.Head())
  {
  }

  lemma ErasedHolds(r: Ring)
    requires r.lastPhys < |r.pages| && 2 < |r.pages|
    ensures var q := WithNextErased(r);
      q == r.(pages := q.pages, wiped := q.wiped) && |q.pages| == |r.pages| && q.pages[r.lastPhys] == r.pages[r.lastPhys]
  {
  }

  lemma OpenedPage(r: Ring, h: Header, base: nat, synced: bool)
    requires CanOpen(r) && 2 < |r.pages|
    ensures var o := Opened(r, h, base, synced);
      o.pages[r.lastPhys] == r.pages[r.lastPhys] && o.size == r.size && |o.pages| == |r.pages|
  {
  }

  lemma ClosedLen(r: Ring, dws: seq<DoubleWord>, p: nat)
    requires r.Shape() && p + 1 < |r.live| && r.pages[r.live[p].phys].dws == dws
    ensures r.StreamLen(p) == DW_DATA * WrittenDw(dws)
  {
  }

  lemma RingOrdered(c: Crcs, r: Ring)
    requires r.Valid(c)
    ensures Ordered(r.live)
  {
    hide Flat, Ring.HeadersOk, Ring.TimesOk, DiskClean, Ring.HeadOk;
  }

  // ---- Runs of appends -------------------------------------------------------------------------

  /** An append that wrote its record, and the number of records it gave up. */
  datatype Done = Done(rec: Record, base: nat, synced: bool, split: bool, evicted: nat)

  /** `run[k]` takes the ring from `rings[k]` to `rings[k + 1]`. */
  ghost predicate Appends(c: Crcs, rings: seq<Ring>, run: seq<Done>, k: nat)
    requires k < |run| < |rings|
  {
    && rings[k].Valid(c) && rings[k].lastPhys < |rings[k].pages|
    && RecordAppended(rings[k], rings[k + 1], run[k].rec, run[k].base, run[k].synced, run[k].split, Appended, run[k].evicted)
  }

  ghost predicate AppendRun(c: Crcs, rings: seq<Ring>, run: seq<Done>) {
    |rings| == |run| + 1 && forall k :: 0 <= k < |run| ==> Appends(c, rings, run, k)
  }

  function RecsOf(run: seq<Done>): seq<Record> {
    if run == [] then [] else RecsOf(run[..|run| - 1]) + [run[|run| - 1].rec]
  }

  /** First in, first out, over any run of appends that met no flash error: the ring holds the newest
      of all the records it was ever given, oldest first, under consecutive ordinals, and every one of
      them can be read as it was appended. */
  lemma FifoRun(c: Crcs, rings: seq<Ring>, run: seq<Done>)
    requires AppendRun(c, rings, run) && rings[0].Valid(c) && rings[|run|].Valid(c) && AllIntact(rings[0])
    ensures AllIntact(rings[|run|]) && Fifo(rings[0], rings[|run|], run)
    ensures forall a: nat :: rings[|run|].FirstAbs() <= a < rings[|run|].absOrd ==> ReadsAs(c, rings[|run|], a)
  {
    hide Ring.Valid, AllIntact, ReadsAs, Fifo, Appends, Ring.FirstAbs;
    FifoKeeps(c, rings, run);
    forall a: nat | rings[|run|].FirstAbs() <= a < rings[|run|].absOrd
      ensures ReadsAs(c, rings[|run|], a)
    {
      AllRead(c, rings[|run|], a);
    }
  }

  /** The ring `r'` holds the newest of the records of `r` and of `run`. */
  ghost predicate Fifo(r: Ring, r': Ring, run: seq<Done>) {
    && r'.absOrd == r.absOrd + |run| && r.FirstAbs() <= r'.FirstAbs() <= r'.absOrd
    && r'.FirstAbs() - r.FirstAbs() <= |r.contents + RecsOf(run)|
    && r'.contents == (r.contents + RecsOf(run))[r'.FirstAbs() - r.FirstAbs()..]
  }

  lemma {:induction false} FifoKeeps(c: Crcs, rings: seq<Ring>, run: seq<Done>)
    requires AppendRun(c, rings, run) && rings[0].Valid(c) && rings[|run|].Valid(c) && AllIntact(rings[0])
    ensures AllIntact(rings[|run|]) && Fifo(rings[0], rings[|run|], run)
    decreases |run|
  {
    hide Ring.Valid, Ring.FirstAbs, AllIntact, RecordAppended, Fifo;
    if run == [] {
      FifoNone(c, rings[0], run);
    } else {
      var n := |run| - 1;
      assert Appends(c, rings, run, n);
      FifoLess(c, rings, run);
      FifoKeeps(c, rings[..|run|], run[..n]);
      FifoMore(c, rings[0], rings[n], rings[|run|], run);
    }
  }

  lemma FifoNone(c: Crcs, r: Ring, run: seq<Done>)
    requires r.Valid(c) && run == []
    ensures Fifo(r, r, run)
  {
    hide Ring.Valid;
    ValidShape(c, r);
    assert r.contents + [] == r.contents;
  }

  lemma FifoMore(c: Crcs, r: Ring, q: Ring, r': Ring, run: seq<Done>)
    requires run != [] && q.lastPhys < |q.pages| && r'.Valid(c) && Fifo(r, q, run[..|run| - 1]) && AllIntact(q)
    requires var d := run[|run| - 1]; RecordAppended(q, r', d.rec, d.base, d.synced, d.split, Appended, d.evicted)
    ensures Fifo(r, r', run) && AllIntact(r')
  {
    hide Ring.Valid, Ring.FirstAbs, AllIntact, RecordAppended;
    var d, less := run[|run| - 1], run[..|run| - 1];
    FifoStep(q, r', d);
    ValidShape(c, r');
    FifoContents(r.contents, RecsOf(less), q.contents, r'.contents, d.rec, q.FirstAbs() - r.FirstAbs(), d.evicted);
  }

  /** A read of ordinal `a` gives the record as appended. */
  ghost predicate ReadsAs(c: Crcs, r: Ring, a: nat) {
    r.Shape() && ReadRec(r, a) == Some(r.Rec(a))
  }

  lemma AllRead(c: Crcs, r: Ring, a: nat)
    requires r.Valid(c) && AllIntact(r) && r.FirstAbs() <= a < r.absOrd
    ensures ReadsAs(c, r, a)
  {
    hide Ring.Valid, Ring.Intact, ReadRec, Ring.Rec;
    assert r.Intact(a);
    IntactStored(r, a);
    ReadRecIs(c, r, a);
  }

  lemma IntactStored(r: Ring, a: nat)
    requires r.Intact(a)
    ensures r.live != []
  {
  }

  lemma FifoLess(c: Crcs, rings: seq<Ring>, run: seq<Done>)
    requires AppendRun(c, rings, run) && run != []
    ensures AppendRun(c, rings[..|run|], run[..|run| - 1])
  {
    hide RecordAppended, Ring.Valid;
    var before, less := rings[..|run|], run[..|run| - 1];
    forall k | 0 <= k < |less|
      ensures Appends(c, before, less, k)
    {
      assert Appends(c, rings, run, k);
    }
  }

  lemma FifoStep(r: Ring, r': Ring, d: Done)
    requires r.lastPhys < |r.pages| && RecordAppended(r, r', d.rec, d.base, d.synced, d.split, Appended, d.evicted)
    ensures AllIntact(r) ==> AllIntact(r')
    ensures r'.absOrd == r.absOrd + 1 && r'.FirstAbs() == r.FirstAbs() + d.evicted && d.evicted <= |r.contents|
    ensures r'.contents == r.contents[d.evicted..] + [d.rec]
  {
    hide Ring.Intact, KeepsStored, KeepsDurable, Phantom, OpenedLive, AllIntact;
    if AllIntact(r) {
      AllStay(r, r');
    }
  }

  lemma FifoContents(first: seq<Record>, recs: seq<Record>, was: seq<Record>, now: seq<Record>, rec: Record, gone: nat, more: nat)
    requires gone <= |first + recs| && was == (first + recs)[gone..] && more <= |was| && now == was[more..] + [rec]
    ensures gone + more <= |first + (recs + [rec])| && now == (first + (recs + [rec]))[gone + more..]
  {
  }

  // ---- Phantom records ----------------------------------------------------------------------

  /** The bytes flushed to the head page hold one more record than was written to it: a record of
      padding. This needs a page closed early and padded, with no page opened after it. */
  predicate Phantom(r: Ring) {
    && r.live != [] && r.Head().firstOrd <= r.absOrd
    && (r.absOrd - r.Head().firstOrd + 1) * r.size <= DW_DATA * r.headDw
    && (r.absOrd - r.Head().firstOrd + 1) * r.size <= PAGE_DATA
  }

  /** A record just written leaves no phantom behind it, even if its page is then padded. */
  lemma CommitNoPhantom(c: Crcs, r: Ring, dws: seq<DoubleWord>, headDw: nat, stage: seq<byte>, rec: Record, full: bool)
    requires r.Valid(c) && r.live != [] && !r.headFull && |rec| == r.size && WrittenDw(dws) == headDw <= |dws|
    requires Flushed(dws, headDw) + stage == r.Stream() + rec
    requires full <==> (r.absOrd - r.Head().firstOrd + 2) * r.size > PAGE_DATA
    ensures !Phantom(WithHead(r, dws, headDw, stage, full, [rec]))
    ensures full ==> (r.absOrd + 1 - r.Head().firstOrd + 1) * r.size > PAGE_DATA
  {
    hide Flat, Flushed, WrittenDw, Ring.HeadersOk, Ring.TimesOk, DiskClean, Ring.RunsOk, Ring.HeadOk;
    ValidShape(c, r);
    HeadCount(c, r);
    var n := r.absOrd - r.Head().firstOrd;
    assert |Flushed(dws, headDw) + stage| == |r.Stream() + rec|;
    assert (n + 2) * r.size == n * r.size + r.size + r.size;
  }

  lemma DropWritten(r: Ring, dws: seq<DoubleWord>, headDw: nat, full: bool, rec: Record)
    requires r.live != [] && r.Head().phys < |r.pages| && |r.recs| == |r.pages|
    requires KeepsDurable(r, WithHead(r, dws, headDw, [], full, []))
    ensures WithHead(r, dws, headDw, [], full, [])
      == r.(pages := r.pages[r.Head().phys := r.pages[r.Head().phys].(dws := dws)], headDw := headDw, stage := [], headFull := full)
    ensures RecordWritten(r, WithHead(r, dws, headDw, [], full, []), rec, false)
  {
    hide KeepsDurable;
    WithHeadNothing(r, dws, headDw, [], full);
    assert r.contents + [] == r.contents;
  }

  lemma CommitWritten(c: Crcs, r: Ring, dws: seq<DoubleWord>, headDw: nat, stage: seq<byte>, rec: Record, full: bool)
    requires r.Valid(c) && r.live != [] && !r.headFull && |rec| == r.size && WrittenDw(dws) == headDw <= |dws|
    requires Flushed(dws, headDw) + stage == r.Stream() + rec
    requires full <==> (r.absOrd - r.Head().firstOrd + 2) * r.size > PAGE_DATA
    requires var r' := WithHead(r, dws, headDw, stage, full, [rec]); KeepsAll(r, r') && r'.Intact(r.absOrd)
    ensures RecordWritten(r, WithHead(r, dws, headDw, stage, full, [rec]), rec, true)
  {
    hide Ring.Valid, Ring.Intact, KeepsAll, Phantom, Ring.Stream;
    ValidShape(c, r);
    CommitNoPhantom(c, r, dws, headDw, stage, rec, full);
  }

  /** Padding a full page takes nothing from the record just written. */
  lemma PaddedWritten(r: Ring, w: Ring, v: Ring, rec: Record)
    requires RecordWritten(r, w, rec, true) && KeepsAll(w, v) && |v.pages| == |w.pages| && w.live != []
    requires v == w.(pages := v.pages, headDw := v.headDw, stage := v.stage)
    requires (w.absOrd - w.Head().firstOrd + 1) * w.size > PAGE_DATA
    ensures RecordWritten(r, v, rec, true)
  {
    hide Ring.Intact, KeepsAll;
    KeepsTwice(r, w, v, r.absOrd);
  }

  // ---- Resets and times -----------------------------------------------------------------------

  /** All records dropped without an erase, one sequence number burnt; the next page may use another
      record layout or interval. */
  function Reset(r: Ring, layout: nat, size: nat, interval: nat): Ring {
    r.(layout := layout, size := size, interval := interval, live := [], nextSeq := r.nextSeq + 1,
       headDw := 0, stage := [], headFull := false, contents := [], wiped := false)
  }

  lemma ResetValid(c: Crcs, r: Ring, layout: nat, size: nat, interval: nat)
    requires r.Valid(c)
    ensures Reset(r, layout, size, interval).Valid(c)
  {
    hide Flat, DiskClean, Ring.HeadOk, Ring.TimesOk;
    ResetParts(c, r, layout, size, interval);
  }

  lemma ResetParts(c: Crcs, r: Ring, layout: nat, size: nat, interval: nat)
    requires r.Shape() && |r.recs| == |r.pages| && r.HeadersOk(c)
    ensures var r' := Reset(r, layout, size, interval);
      r'.Shape() && r'.RunsOk() && r'.HeadersOk(c) && r'.HeadOk() && r'.TimesOk(c)
  {
    hide Flat, Flushed, Back;
  }

  lemma BlankPagesValid(c: Crcs, r: Ring, pages: seq<Page>)
    requires r.Valid(c) && r.live == [] && pages == BlankPages(|r.pages|)
    ensures r.(pages := pages).Valid(c)
  {
  }

  lemma ClearStep(c: Crcs, r: Ring, pages: seq<Page>)
    requires r.Valid(c) && (pages == r.pages || pages == BlankPages(|r.pages|))
    ensures Reset(r, r.layout, r.size, r.interval).(pages := pages).Valid(c)
  {
    hide Ring.Valid;
    ResetValid(c, r, r.layout, r.size, r.interval);
    if pages == r.pages {
      assert Reset(r, r.layout, r.size, r.interval).(pages := pages) == Reset(r, r.layout, r.size, r.interval);
    } else {
      BlankPagesValid(c, Reset(r, r.layout, r.size, r.interval), pages);
    }
  }

  /** `live` and `pages` differ from those of the ring at most in times and fix-ups. */
  ghost predicate OnlyTimes(r: Ring, pages: seq<Page>, live: seq<LivePage>) {
    && |pages| == |r.pages| && |live| == |r.live|
    && (forall p :: 0 <= p < |pages| ==> pages[p].hdr == r.pages[p].hdr && pages[p].dws == r.pages[p].dws)
    && (forall i :: 0 <= i < |live| ==> live[i].phys == r.live[i].phys && live[i].firstOrd == r.live[i].firstOrd && live[i].curBoot == r.live[i].curBoot)
    && (r.wiped && live != [] && live[0].phys < |pages| ==> pages[live[0].phys] == r.pages[live[0].phys])
  }

  lemma {:induction false} PageOfSame(a: seq<LivePage>, b: seq<LivePage>, x: nat, top: nat)
    requires |a| == |b| && top < |a| && forall i :: 0 <= i < |a| ==> a[i].firstOrd == b[i].firstOrd
    ensures PageOf(a, x, top) == PageOf(b, x, top)
  {
    if top > 0 {
      PageOfSame(a, b, x, top - 1);
    }
  }

  lemma RetimedRuns(r: Ring, pages: seq<Page>, live: seq<LivePage>)
    requires r.Shape() && r.RunsOk() && OnlyTimes(r, pages, live)
    ensures r.(pages := pages, live := live).Shape() && r.(pages := pages, live := live).RunsOk()
  {
    hide Ring.RunsOk, Flat;
    RunsLengths(r);
    RetimedShape(r, pages, live);
    SameRunsOk(r, r.(pages := pages, live := live));
  }

  lemma RetimedShape(r: Ring, pages: seq<Page>, live: seq<LivePage>)
    requires r.Shape() && OnlyTimes(r, pages, live)
    ensures r.(pages := pages, live := live).Shape()
  {
    hide Back;
  }

  lemma RetimedHeaders(c: Crcs, r: Ring, pages: seq<Page>, live: seq<LivePage>)
    requires r.Shape() && r.HeadersOk(c) && OnlyTimes(r, pages, live)
    requires r.(pages := pages, live := live).Shape()
    ensures r.(pages := pages, live := live).HeadersOk(c)
  {
    var r' := r.(pages := pages, live := live);
    forall i | 0 <= i < |live| && (i == 0 ==> !r.wiped)
      ensures r'.HeaderOk(c, i)
    {
      assert r.HeaderOk(c, i);
    }
  }

  /** Only the header and the payload of a page matter to what is on it. */
  lemma RetimedPage(crc: HeaderBody -> nat, a: Page, b: Page, rs: seq<Record>)
    requires a.hdr == b.hdr && a.dws == b.dws && PageClean(crc, a, rs)
    ensures PageClean(crc, b, rs)
  {
    hide Flat, Flushed, WrittenDw, Agrees, Tidy, HeaderValid;
  }

  lemma RetimedLink(crc: HeaderBody -> nat, a: Page, b: Page, a': Page, b': Page)
    requires a.hdr == a'.hdr && b.hdr == b'.hdr
    ensures Linked(crc, a', b') ==> Linked(crc, a, b)
  {
    hide HeaderValid;
  }

  lemma RetimedDisk(c: Crcs, r: Ring, pages: seq<Page>, live: seq<LivePage>)
    requires DiskClean(c.header, r.pages, r.recs) && OnlyTimes(r, pages, live)
    ensures DiskClean(c.header, pages, r.recs)
  {
    hide PageClean, Linked, HeaderValid, Next;
    forall p | 0 <= p < |pages|
      ensures PageClean(c.header, pages[p], r.recs[p])
    {
      RetimedPage(c.header, r.pages[p], pages[p], r.recs[p]);
    }
    RetimedLinks(c, r, pages);
  }

  lemma RetimedLinks(c: Crcs, r: Ring, pages: seq<Page>)
    requires DiskClean(c.header, r.pages, r.recs) && |pages| == |r.pages|
    requires forall p :: 0 <= p < |pages| ==> pages[p].hdr == r.pages[p].hdr
    ensures forall p :: 0 <= p < |pages| && Linked(c.header, pages[p], pages[Next(p, |pages|)]) ==>
              pages[Next(p, |pages|)].hdr.body.firstOrd == pages[p].hdr.body.firstOrd + |r.recs[p]|
  {
    hide PageClean, Linked, HeaderValid;
    forall p | 0 <= p < |pages| && Linked(c.header, pages[p], pages[Next(p, |pages|)])
      ensures pages[Next(p, |pages|)].hdr.body.firstOrd == pages[p].hdr.body.firstOrd + |r.recs[p]|
    {
      RetimedLink(c.header, r.pages[p], r.pages[Next(p, |pages|)], pages[p], pages[Next(p, |pages|)]);
    }
  }

  lemma RetimedKeeps(r: Ring, pages: seq<Page>, live: seq<LivePage>)
    requires OnlyTimes(r, pages, live) && r.(pages := pages, live := live).Shape()
    ensures KeepsAll(r, r.(pages := pages, live := live))
  {
    hide Ring.Intact;
    forall a: nat | r.Intact(a)
      ensures r.(pages := pages, live := live).Intact(a)
    {
      RetimedIntact(r, pages, live, a);
    }
  }

  lemma RetimedIntact(r: Ring, pages: seq<Page>, live: seq<LivePage>, a: nat)
    requires OnlyTimes(r, pages, live) && r.(pages := pages, live := live).Shape() && r.Intact(a)
    ensures r.(pages := pages, live := live).Intact(a)
  {
    hide Flushed, WrittenDw, PageOf, Back;
    PageOfSame(r.live, live, a, |live| - 1);
    var r' := r.(pages := pages, live := live);
    var p := PageOf(r.live, a, |live| - 1);
    assert r'.StreamLen(p) == r.StreamLen(p);
  }

  lemma RetimedValid(c: Crcs, r: Ring, pages: seq<Page>, live: seq<LivePage>)
    requires r.Valid(c) && OnlyTimes(r, pages, live)
    requires forall i :: 0 <= i < |live| && (i == 0 ==> !r.wiped) && live[i].phys < |pages| ==> TimeOk(c, live[i], pages[live[i].phys])
    ensures r.(pages := pages, live := live).Valid(c)
    ensures KeepsAll(r, r.(pages := pages, live := live))
  {
    hide Flat, Flushed, WrittenDw, DiskClean, Ring.RunsOk, Ring.HeadersOk, TimeOk, Tidy, Agrees, Ring.Intact;
    RetimedRuns(r, pages, live);
    RetimedHeaders(c, r, pages, live);
    RetimedDisk(c, r, pages, live);
    RetimedKeeps(r, pages, live);
  }

  /** A page stamped on this boot's uptime takes the offset of a clock sync. */
  function SyncPage(lp: LivePage, offset: nat): LivePage {
    if !lp.synced && lp.curBoot
    then lp.(baseTime := (lp.baseTime + offset) % TWO_32, synced := true, fixPending := true)
    else lp
  }

  lemma SyncStep(c: Crcs, r: Ring, live: seq<LivePage>, offset: nat)
    requires r.Valid(c) && offset < TWO_32
    requires |live| == |r.live| && forall i :: 0 <= i < |live| ==> live[i] == SyncPage(r.live[i], offset)
    ensures r.(live := live).Valid(c)
    ensures KeepsAll(r, r.(live := live))
  {
    hide Flat, Flushed, WrittenDw, DiskClean, Ring.RunsOk, Ring.HeadersOk, Ring.HeadOk, Ring.Intact;
    RetimedValid(c, r, r.pages, live);
  }

  lemma PhysDistinct(c: Crcs, r: Ring, i: nat)
    requires r.Valid(c) && i < |r.live|
    ensures r.live[i].phys < |r.pages|
    ensures forall k :: 0 <= k < |r.live| && k != i ==> r.live[k].phys != r.live[i].phys
    ensures i == 0 && r.wiped ==> !HeaderValid(c.header, r.pages[r.live[i].phys].hdr) && r.pages[r.live[i].phys].fixUp.FixUpErased?
    ensures !(i == 0 && r.wiped) ==> TimeOk(c, r.live[i], r.pages[r.live[i].phys])
  {
    hide Flat, Flushed, WrittenDw, DiskClean, Ring.RunsOk, Ring.HeadOk, Ring.Intact, TimeOk;
  }

  /** The fix-up of page `i` is on flash, and gives the page the time it has in RAM. */
  ghost predicate FixedUp(c: Crcs, r: Ring, i: nat) {
    && i < |r.live| && r.live[i].phys < |r.pages| && r.pages[r.live[i].phys].fixUp.FixUpWritten?
    && DurableTime(c, r.pages[r.live[i].phys]) == (r.live[i].baseTime, true)
  }

  /** A fix-up that is pending is one the header of its page still needs. */
  lemma FixUpDue(c: Crcs, r: Ring, i: nat)
    requires r.Valid(c) && i < |r.live| && r.live[i].fixPending
    ensures (i == 0 ==> !r.wiped) ==> r.live[i].phys < |r.pages| && HeaderValid(c.header, r.pages[r.live[i].phys].hdr)
                                      && !r.pages[r.live[i].phys].hdr.body.baseSynced
  {
    hide Flat, Flushed, WrittenDw, DiskClean, Ring.RunsOk, Ring.HeadOk, Ring.Intact, HeaderValid, DurableTime;
    if i == 0 ==> !r.wiped {
      assert r.HeaderOk(c, i);
    }
  }

  /** Page `i` is not to be fixed up any more, and no other page changed. */
  ghost predicate OnlyPage(r: Ring, r': Ring, i: nat) {
    && |r'.pages| == |r.pages| && i < |r.live| && r'.live == r.live[i := r.live[i].(fixPending := false)]
    && (forall p :: 0 <= p < |r.pages| && p != r.live[i].phys ==> r'.pages[p] == r.pages[p])
    && (forall k :: 0 <= k < |r.live| && k != i ==> r.live[k].phys != r.live[i].phys)
  }

  /** Fixing up page `i` leaves the others alone. */
  lemma FixedOthers(c: Crcs, r: Ring, r': Ring, i: nat)
    requires OnlyPage(r, r', i)
    ensures forall k: nat :: k != i && FixedUp(c, r, k) ==> FixedUp(c, r', k)
  {
    hide DurableTime;
  }

  /** Clearing the pending mark of page `i`, its fix-up written (`pages`) or not. */
  lemma FixUpStep(c: Crcs, r: Ring, i: nat, pages: seq<Page>)
    requires r.Valid(c) && i < |r.live| && r.live[i].fixPending && r.live[i].phys < |r.pages|
    requires var phys := r.live[i].phys; var h := r.pages[phys].hdr;
      pages == r.pages
      || (HeaderValid(c.header, h) && !h.body.baseSynced
          && var offset := (r.live[i].baseTime + TWO_32 - h.body.baseTime) % TWO_32;
             pages == r.pages[phys := r.pages[phys].(fixUp := FixUpWritten(offset, FIXUP_MARK, c.fixUp(h.crc, offset)))])
    requires !(i == 0 && r.wiped) ==> TimeOk(c, r.live[i], r.pages[r.live[i].phys])
    requires i == 0 && r.wiped ==> !HeaderValid(c.header, r.pages[r.live[i].phys].hdr)
    ensures r.(pages := pages, live := r.live[i := r.live[i].(fixPending := false)]).Valid(c)
    ensures KeepsAll(r, r.(pages := pages, live := r.live[i := r.live[i].(fixPending := false)]))
    ensures pages == r.pages || DurableTime(c, pages[r.live[i].phys]) == (r.live[i].baseTime, true)
  {
    hide Flat, Flushed, WrittenDw, DiskClean, Ring.RunsOk, Ring.HeadersOk, Ring.HeadOk, Ring.Intact, HeaderValid;
    var live := r.live[i := r.live[i].(fixPending := false)];
    var phys := r.live[i].phys;
    if pages != r.pages {
      var b := r.pages[phys].hdr.body.baseTime;
      RebaseInverse(b, r.live[i].baseTime);
    }
    forall k | 0 <= k < |live| && (k == 0 ==> !r.wiped) && live[k].phys < |pages|
      ensures TimeOk(c, live[k], pages[live[k].phys])
    {
      assert TimeOk(c, r.live[k], r.pages[r.live[k].phys]);
    }
    RetimedValid(c, r, pages, live);
  }

  lemma RebaseInverse(b: nat, t: nat)
    requires b < TWO_32 && t < TWO_32
    ensures (b + (t + TWO_32 - b) % TWO_32) % TWO_32 == t
  {
  }

  // ---- Segments --------------------------------------------------------------------------------

  /** Every live page is a segment. */
  ghost function SegmentAt(r: Ring, i: nat): Segment
    requires i < |r.live|
  {
    var e := r.live[i];
    Segment(e.firstOrd, e.firstOrd, r.End(i), e.baseTime, e.synced, e.curBoot)
  }

  ghost function SegmentsOf(r: Ring): (segs: seq<Segment>)
    ensures |segs| == |r.live|
  {
    seq(|r.live|, i requires 0 <= i < |r.live| => SegmentAt(r, i))
  }

  lemma SegmentsPartition(c: Crcs, r: Ring)
    requires r.Valid(c)
    ensures Partition(SegmentsOf(r), r.FirstAbs(), r.absOrd)
  {
    hide Flat, Flushed, WrittenDw, Ring.HeadersOk, Ring.HeadOk, Ring.TimesOk, DiskClean, Ring.Run;
    var segs := SegmentsOf(r);
    forall i | 0 <= i < |segs|
      ensures segs[i].origin <= segs[i].first <= segs[i].end
    {
      RunRange(r, i);
    }
    forall i | 0 <= i < |segs| - 1
      ensures Joined(segs, i)
    {
    }
  }
}
