/** The flash backend of the history store: the page ring on a flash device, with its RAM mirror. */
module HistoryFlash {
  import opened Bytes
  import opened FlashDevice
  import opened FlashRingState
  import opened FlashMount
  import opened FlashTimes
  import opened Segments

  class FlashRing {
    const flash: Flash
    const crcs: Crcs

    var ready: bool
    var replayActive: bool
    var layout: nat
    var sampleSize: nat
    var interval: nat
    var live: seq<LivePage>             // [0] is the oldest page, the last one the head
    var nextSeq: nat
    var absOrd: nat
    var lastPhys: nat
    var headDw: nat
    const stage: array<byte>
    var stageLen: nat
    var headFull: bool

    ghost var contents: seq<Record>
    ghost var recs: seq<seq<Record>>
    ghost var tailWiped: bool

    ghost function View(): Ring
      reads this, flash`pages, stage
    {
      Ring(flash.pages, layout, sampleSize, interval, live, nextSeq, absOrd, lastPhys, headDw,
           if stageLen <= stage.Length then stage[..stageLen] else [], headFull, contents, recs, tailWiped)
    }

    ghost predicate Valid()
      reads this, flash`pages, stage
    {
      stage.Length == DW_DATA && stageLen <= DW_DATA && View().Valid(crcs)
    }

    /** RAM as a boot leaves it; on a blank partition that is a valid, empty ring. */
    constructor Boot(flash: Flash, crcs: Crcs, probed: bool)
      requires 3 <= |flash.pages| && |flash.pages| * 1764 <= 0xFFFF
      ensures this.flash == flash && this.crcs == crcs && ready == probed && fresh(stage)
      ensures View() == BootState(flash.pages, recs)
      ensures flash.pages == BlankPages(|flash.pages|) ==> Valid()
    {
      this.flash, this.crcs := flash, crcs;
      ready, replayActive := probed, false;
      layout, sampleSize, interval := 0, 0, 0;
      live, nextSeq, absOrd, lastPhys := [], 0, 0, |flash.pages| - 1;
      headDw, stageLen, headFull := 0, 0, false;
      stage := new byte[DW_DATA];
      contents, recs, tailWiped := [], seq(|flash.pages|, _ => []), false;
      new;
      BlankValid(crcs, |flash.pages|);
    }

    /** Flush the staged bytes as one padded double word. */
    method FlushStagePad() returns (ok: bool)
      requires Valid() && (live != [] ==> headFull)
      modifies flash, `headDw, `stageLen
      ensures Valid()
      ensures ok ==> stageLen == 0
      ensures !ok ==> View() == old(View())
      ensures |flash.pages| == |old(flash.pages)|
      ensures forall p :: 0 <= p < |flash.pages| ==> flash.pages[p].hdr == old(flash.pages)[p].hdr
      ensures KeepsAll(old(View()), View())
      ensures flash.faults == old(flash.faults) + if ok then 0 else 1
    {
      hide Ring.Valid, Ring.Intact, Flat, Flushed, PageOf;
      if stageLen == 0 {
        return true;
      }
      ghost var r := View();
      ValidShape(crcs, r);
      var head := live[|live| - 1];
      var dw: DoubleWord := stage[..stageLen] + seq(DW_DATA - stageLen, _ => 0) + [FRAME_BYTE];
      PadStep(crcs, r, dw);
      ok := flash.ProgramDw(head.phys, headDw, dw);
      if !ok {
        return;
      }
      headDw := headDw + 1;
      stageLen := 0;
      WithHeadNothing(r, r.pages[head.phys].dws[r.headDw := dw], r.headDw + 1, [], true);
      assert View() == WithHead(r, r.pages[head.phys].dws[r.headDw := dw], r.headDw + 1, [], true, []);
    }

    /** First half of a rollover: close the head page durably, then erase the page after it. */
    method EraseNext(next: nat) returns (ok: bool)
      requires Valid() && (live != [] ==> headFull) && next == Next(lastPhys, |flash.pages|)
      modifies flash, `headDw, `stageLen, `tailWiped
      ensures Valid() && |flash.pages| == |old(flash.pages)|
      ensures ok ==> stageLen == 0 && flash.pages[next] == ErasedPage() && tailWiped == (|live| == |flash.pages|)
      ensures KeepsStored(old(View()), View())
      ensures flash.faults == old(flash.faults) + if ok then 0 else 1
    {
      hide Ring.Valid, Ring.Intact, Ring.Shape, Flat, Flushed, WrittenDw, Tidy, PageOf, Back;
      ok := false;
      ValidShape(crcs, View());
      if live != [] {
        var flushed := FlushStagePad();
        if !flushed {
          return;
        }
      }
      ghost var r := View();
      ValidShape(crcs, r);
      EraseStep(crcs, r);
      ok := flash.Erase(next);
      if ok {
        tailWiped := |live| == |flash.pages|;
        assert View() == WithNextErased(r);
      }
    }

    /** Roll over to a fresh head page stamped `base`/`synced`, giving up the oldest page when the
        ring wraps onto it. A failure leaves the ring as it was, except that the bytes of the oldest
        page may be erased already (`tailWiped`), to be given up by the next successful rollover. */
    method AdvancePage(base: nat, synced: bool) returns (ok: bool, evicted: nat)
      requires Valid() && (live != [] ==> headFull) && 0 < sampleSize <= PAGE_DATA && base < TWO_32
      modifies flash, `live, `nextSeq, `lastPhys, `headDw, `stageLen, `headFull, `contents, `recs, `tailWiped
      ensures Valid() && PageAdvanced(old(View()), View(), base, synced, ok, evicted)
      ensures flash.faults == old(flash.faults) + if ok then 0 else 1
    {
      hide Ring.Valid, Ring.Intact, Ring.Shape, Flat, Flushed, WrittenDw, Tidy, PageOf, Back, KeepsStored;
      ok, evicted := false, 0;
      ValidShape(crcs, View());
      NextIsOldest(View());
      NextMod(lastPhys, |flash.pages|);
      var next := (lastPhys + 1) % |flash.pages|;
      var willEvict := live != [] && next == live[0].phys;
      var tailRecs := 0;
      if willEvict {
        var end := if |live| > 1 then live[1].firstOrd else absOrd;
        tailRecs := end - live[0].firstOrd;
      }
      var erased := EraseNext(next);
      if !erased {
        return;
      }
      ghost var r := View();
      ok, evicted := OpenErased(next, base, synced, willEvict, tailRecs);
      AdvanceTwice(old(View()), r, View(), base, synced, ok, evicted);
    }

    /** Second half of a rollover: write the header of the erased page, and claim it. */
    method OpenErased(next: nat, base: nat, synced: bool, willEvict: bool, tailRecs: nat) returns (ok: bool, evicted: nat)
      requires Valid() && 0 < sampleSize <= PAGE_DATA && base < TWO_32 && stageLen == 0 && lastPhys < |flash.pages|
      requires next == Next(lastPhys, |flash.pages|) && flash.pages[next] == ErasedPage() && tailWiped == (|live| == |flash.pages|)
      requires CanOpen(View()) && willEvict == (|live| == |flash.pages|) && tailRecs == Evicted(View())
      modifies flash, `live, `nextSeq, `lastPhys, `headDw, `stageLen, `headFull, `contents, `recs, `tailWiped
      ensures Valid() && PageAdvanced(old(View()), View(), base, synced, ok, evicted) && (ok ==> !tailWiped)
      ensures !ok ==> View() == old(View())
      ensures flash.faults == old(flash.faults) + if ok then 0 else 1
    {
      hide Ring.Valid, Ring.Shape, Opened, PageAdvanced, Evicted;
      ghost var r := View();
      var body := HeaderBody(PAGE_MAGIC, nextSeq, layout, interval, base, absOrd, sampleSize, synced);
      var h := Header(body, crcs.header(body));
      OpenStep(crcs, r, base, synced, h);
      OpenedAdvances(crcs, r, h, base, synced);
      ok := flash.WriteHeader(next, h);
      evicted := 0;
      if ok {
        evicted := tailRecs;
        ClaimPage(next, base, synced, willEvict, evicted, r, h);
      }
    }

    /** The new page becomes the head, once it is erased and its header `h` written. */
    method ClaimPage(next: nat, base: nat, synced: bool, willEvict: bool, evicted: nat, ghost r: Ring, ghost h: Header)
      requires r.lastPhys < |r.pages| == |r.recs| && next == Next(r.lastPhys, |r.pages|)
      requires |r.live| == |r.pages| ==> r.live[0].firstOrd <= r.End(0) <= r.live[0].firstOrd + |r.contents|
      requires willEvict == (|r.live| == |r.pages|) && evicted == Evicted(r) && stageLen <= stage.Length
      requires View() == r.(pages := r.pages[next := r.pages[next].(hdr := h)])
      modifies `live, `nextSeq, `lastPhys, `headDw, `stageLen, `headFull, `contents, `recs, `tailWiped
      ensures stageLen == 0 && View() == Opened(r, h, base, synced)
    {
      hide OpenedLive;
      ClaimRam(next, base, synced, willEvict);
      contents, recs, tailWiped := contents[evicted..], recs[next := []], false;
      OpenedLiveSame(old(View()), r, base, synced);
    }

    /** The RAM side of a rollover, once the page is erased and its header written. */
    method ClaimRam(next: nat, base: nat, synced: bool, willEvict: bool)
      requires lastPhys < |flash.pages| && next == Next(lastPhys, |flash.pages|)
      requires willEvict == (|live| == |flash.pages|) && stageLen <= stage.Length
      modifies `live, `nextSeq, `lastPhys, `headDw, `stageLen, `headFull
      ensures live == OpenedLive(old(View()), base, synced) && nextSeq == old(nextSeq) + 1 && lastPhys == next
      ensures headDw == 0 && stageLen == 0 && !headFull
    {
      if willEvict {
        live := live[1..];
      }
      nextSeq := nextSeq + 1;
      lastPhys := next;
      live := live + [LivePage(absOrd, base, next, synced, true, false)];
      headDw, stageLen, headFull := 0, 0, false;
    }

    /** Stream the bytes of `rec` into the head page, flushing full double words. On a failure the
        staged bytes are gone and the stream ends somewhere inside what was to be written. */
    method StreamBytes(rec: Record) returns (ok: bool)
      requires Valid() && live != [] && !headFull && |rec| == sampleSize
      modifies flash, stage, `headDw, `stageLen
      ensures ok ==> stageLen < DW_DATA
      ensures !ok ==> stageLen == 0
      ensures flash.faults == old(flash.faults) + if ok then 0 else 1
      ensures old(headDw) <= headDw
      ensures lastPhys < |flash.pages| == |old(flash.pages)|
      ensures var dws := flash.pages[lastPhys].dws;
        && flash.pages == old(flash.pages)[lastPhys := old(flash.pages)[lastPhys].(dws := dws)]
        && Tidy(dws) && WrittenDw(dws) == headDw && old(View().Shape())
        && (ok ==> Flushed(dws, headDw) + stage[..stageLen] == old(View().Stream()) + rec)
        && (!ok ==> Flushed(dws, headDw) <= old(View().Stream()) + rec)
        && (!ok ==> DW_DATA * headDw + DW_DATA <= |old(View().Stream())| + |rec|)
    {
      hide Ring.Valid, Flat, Flushed, WrittenDw, Tidy;
      ghost var r := View();
      ValidShape(crcs, r);
      HeadRoom(crcs, r);
      ghost var st := r.Stream();
      var i := 0;
      while i < |rec|
        invariant 0 <= i <= |rec| && stageLen < DW_DATA && old(headDw) <= headDw
        invariant |flash.pages| == |r.pages| && flash.faults == old(flash.faults)
        invariant flash.pages == r.pages[lastPhys := r.pages[lastPhys].(dws := flash.pages[lastPhys].dws)]
        invariant Tidy(flash.pages[lastPhys].dws) && |flash.pages[lastPhys].dws| == PAYLOAD_DW
        invariant WrittenDw(flash.pages[lastPhys].dws) == headDw <= PAYLOAD_DW
        invariant Flushed(flash.pages[lastPhys].dws, headDw) + stage[..stageLen] == st + rec[..i]
      {
        ghost var dws := flash.pages[lastPhys].dws;
        ghost var before := stage[..stageLen];
        stage[stageLen] := rec[i];
        stageLen := stageLen + 1;
        assert stage[..stageLen] == before + [rec[i]];
        StageByte(Flushed(dws, headDw), before, st, rec, i);
        if stageLen == DW_DATA {
          var dw: DoubleWord := stage[..DW_DATA] + [FRAME_BYTE];
          assert dw[..DW_DATA] == stage[..stageLen];
          TidyRoom(dws, headDw);
          ProgramAppends(dws, dw);
          ok := flash.ProgramDw(lastPhys, headDw, dw);
          stageLen := 0;
          if !ok {
            assert st + rec[..i + 1] <= st + rec;
            return;
          }
          headDw := headDw + 1;
        }
        i := i + 1;
      }
      assert rec[..i] == rec;
      ok := true;
    }

    /** Records per page of the current record size: 0 when none fits. */
    function RecordsPerPage(): (n: nat)
      reads this
      ensures sampleSize > 0 ==> n * sampleSize <= PAGE_DATA < (n + 1) * sampleSize
      ensures sampleSize == 0 ==> n == 0
    {
      if sampleSize == 0 then 0 else PAGE_DATA / sampleSize
    }

    /** Write `rec` into the open head page. A failed program operation drops the staged bytes and,
        unless they are all that is missing from the stream, closes the page. */
    method WriteRecord(rec: Record) returns (ok: bool)
      requires Valid() && live != [] && !headFull && |rec| == sampleSize
      modifies flash, stage, `headDw, `stageLen, `headFull, `absOrd, `contents, `recs
      ensures Valid() && RecordWritten(old(View()), View(), rec, ok)
      ensures flash.faults >= old(flash.faults) && (!ok ==> flash.faults > old(flash.faults))
    {
      hide Ring.Valid, Ring.Intact, Ring.Durable, Ring.Shape, Flat, Flushed, WrittenDw, Tidy, PageOf, Ring.Stream,
        Back, KeepsAll, KeepsDurable, RecordWritten, Phantom;
      ghost var r := View();
      ValidShape(crcs, r);
      var startHeadDw, startStageLen := headDw, stageLen;
      ok := StreamBytes(rec);
      ghost var dws := flash.pages[lastPhys].dws;
      if !ok {
        if headDw != startHeadDw || startStageLen != 0 {
          headFull := true;
        }
        DropStep(crcs, r, dws, headDw, rec, headFull);
        DropWritten(r, dws, headDw, headFull, rec);
        return;
      }
      CountRecord(rec);
      CommitStep(crcs, r, dws, headDw, stage[..stageLen], rec, headFull);
      CommitWritten(crcs, r, dws, headDw, stage[..stageLen], rec, headFull);
      assert View() == WithHead(r, dws, headDw, stage[..stageLen], headFull, [rec]);
      if headFull {
        ghost var w := View();
        assert (w.absOrd - w.Head().firstOrd + 1) * w.size > PAGE_DATA;
        var flushed := FlushStagePad();
        assert w.live != [] && |View().pages| == |w.pages|;
        assert View() == w.(pages := View().pages, headDw := View().headDw, stage := View().stage);
        PaddedWritten(r, w, View(), rec);
      }
    }

    /** One record more; a page with no room for another is closed. */
    method CountRecord(rec: Record)
      requires live != [] && live[|live| - 1].firstOrd <= absOrd && !headFull && lastPhys < |recs| && sampleSize > 0
      modifies `absOrd, `headFull, `contents, `recs
      ensures absOrd == old(absOrd) + 1 && contents == old(contents) + [rec]
      ensures recs == old(recs)[lastPhys := old(recs)[lastPhys] + [rec]]
      ensures headFull <==> (absOrd - live[|live| - 1].firstOrd + 1) * sampleSize > PAGE_DATA
    {
      var rpp := RecordsPerPage();
      absOrd := absOrd + 1;
      contents, recs := contents + [rec], recs[lastPhys := recs[lastPhys] + [rec]];
      RoomIs(absOrd - live[|live| - 1].firstOrd, rpp, sampleSize);
      if absOrd - live[|live| - 1].firstOrd >= rpp {
        headFull := true;
      }
    }

    /** A slot discontinuity closes the head page; the rest of it stays unused. */
    method CloseHead()
      requires Valid()
      modifies flash, `headDw, `stageLen, `headFull
      ensures Valid() && HeadClosed(old(View()), View()) && flash.faults >= old(flash.faults)
    {
      hide Ring.Valid, Ring.Intact, Ring.Shape, Flat, Flushed, WrittenDw, Tidy, PageOf, Back;
      if live != [] && !headFull {
        CloseStep(crcs, View());
        headFull := true;
        assert View() == old(View()).(headFull := true);
        var flushed := FlushStagePad();
      }
    }

    /** Make sure the head page is open and can take a record: close it on a `split`, and roll over
        when it is closed. `blocked` says why there is no such page. */
    method OpenHead(base: nat, synced: bool, split: bool) returns (blocked: Option<AppendResult>, evicted: nat)
      requires Valid() && 0 < sampleSize <= PAGE_DATA && base < TWO_32
      modifies flash, `live, `nextSeq, `lastPhys, `headDw, `stageLen, `headFull, `contents, `recs, `tailWiped
      ensures Valid() && HeadOpened(old(View()), View(), base, synced, split, replayActive, blocked, evicted)
      ensures flash.faults >= old(flash.faults) && (blocked == Some(FlashError) ==> flash.faults > old(flash.faults))
    {
      hide Ring.Valid, Ring.Shape, HeadClosed, PageAdvanced, HeadOpened;
      evicted := 0;
      ghost var was := View();
      ValidShape(crcs, was);
      HeadSame(crcs, was);
      if split {
        CloseHead();
      }
      ghost var r := View();
      ValidShape(crcs, r);
      HeadClosedIs(was, r, split);
      var rpp := RecordsPerPage();
      if live != [] && !headFull {
        OpenHasRoom(crcs, r, rpp);
      }
      blocked := None;
      if live == [] || headFull || absOrd - live[|live| - 1].firstOrd + 1 > rpp {
        if replayActive {
          blocked := Some(Busy);
          HeadBusy(was, r, base, synced, split);
          return;
        }
        var advanced;
        advanced, evicted := AdvancePage(base, synced);
        HeadAdvanced(was, r, View(), base, synced, split, advanced, evicted);
        if !advanced {
          blocked := Some(FlashError);
        }
      } else {
        HeadStays(was, base, synced, split, replayActive);
      }
    }

    /** Append one record. `split` closes the head page first, so that the record opens a new one.
        Every record that stays stored keeps its bytes; a failure costs nothing but records that
        had a byte only in RAM, or that sit on a page erased to make room. */
    method Append(rec: Record, base: nat, synced: bool, split: bool) returns (res: AppendResult, evicted: nat)
      requires Valid() && |rec| == sampleSize && base < TWO_32
      modifies flash, stage, `live, `nextSeq, `lastPhys, `headDw, `stageLen, `headFull, `absOrd, `contents, `recs, `tailWiped
      ensures Valid() && RecordAppended(old(View()), View(), rec, base, synced, split, res, evicted)
      // why an append fails
      ensures res == NoDevice <==> !ready
      ensures res == BadLayout <==> ready && !(0 < sampleSize <= PAGE_DATA)
      ensures res == Busy <==> ready && 0 < sampleSize <= PAGE_DATA && replayActive && (old(live) == [] || old(headFull) || split)
      ensures flash.faults >= old(flash.faults) && (res == FlashError ==> flash.faults > old(flash.faults))
      // without a flash error nothing that is stored is lost
      ensures flash.faults == old(flash.faults) && AllIntact(old(View())) ==> AllIntact(View())
      // what time the new record has, and that no other gets another
      ensures KeepsStamps(old(SegmentsOf(View())), SegmentsOf(View()), interval, View().FirstAbs(), old(absOrd))
      ensures res == Appended ==>
                HasStamp(SegmentsOf(View()), interval, old(absOrd),
                         if old(Opens(View(), split)) then Stamp(base, synced, true) else NextStamp(old(SegmentsOf(View())), interval))
    {
      hide Ring.Valid, Ring.Shape, AllIntact, HeadOpened, RecordWritten, RecordAppended, SegmentsOf, HasStamp, KeepsStamps,
        NextStamp, Opens;
      ghost var was := View();
      ValidShape(crcs, was);
      evicted := 0;
      if !ready {
        NotAppended(crcs, was, rec, base, synced, split, NoDevice);
        AppendStamps(crcs, was, was, rec, base, synced, split, NoDevice, 0);
        return NoDevice, 0;
      }
      var rpp := RecordsPerPage();
      if sampleSize > 0 {
        RoomIs(0, rpp, sampleSize);
      }
      if rpp == 0 {
        NotAppended(crcs, was, rec, base, synced, split, BadLayout);
        AppendStamps(crcs, was, was, rec, base, synced, split, BadLayout, 0);
        return BadLayout, 0;
      }
      var blocked;
      blocked, evicted := OpenHead(base, synced, split);
      ghost var open := View();
      HeadIs(was, open, base, synced, split, replayActive, blocked, evicted);
      if blocked.Some? {
        BlockedAppend(crcs, was, open, rec, base, synced, split, replayActive, blocked, evicted);
        AppendStamps(crcs, was, open, rec, base, synced, split, blocked.value, evicted);
        return blocked.value, evicted;
      }
      var written := WriteRecord(rec);
      res := if written then Appended else FlashError;
      RecordDone(crcs, was, open, View(), rec, base, synced, split, replayActive, evicted, written);
      AppendStamps(crcs, was, View(), rec, base, synced, split, res, evicted);
    }

    /** `head_next_time`: when the next record is due on the grid of a head page of this boot. */
    method NextTime() returns (next: Option<Clock>)
      requires Valid()
      ensures next == HeadNext(SegmentsOf(View()), interval)
    {
      hide Ring.Valid;
      HeadStarts(crcs, View());
      next := None;
      if live != [] {
        var lp := live[|live| - 1];
        assert SegmentsOf(View())[|live| - 1] == SegmentAt(View(), |live| - 1);
        if lp.curBoot {
          next := Some(Clock((lp.baseTime + (absOrd - lp.firstOrd) * interval) % TWO_32, lp.synced));
        }
      }
    }

    /** The end of `capture`: append `rec`, taken at `slot` or, without one, off the report cadence. A
        slot off the grid opens a page. The record's time is then that of its slot, to half an interval. */
    method Capture(rec: Record, slot: Option<Clock>, now: Clock) returns (res: AppendResult, evicted: nat)
      requires Valid() && |rec| == sampleSize && now.time < TWO_32 && (slot.Some? ==> slot.value.time < TWO_32)
      modifies flash, stage, `live, `nextSeq, `lastPhys, `headDw, `stageLen, `headFull, `absOrd, `contents, `recs, `tailWiped
      ensures Valid() && Queued(old(View()), View(), rec, res, evicted)
      ensures KeepsStamps(old(SegmentsOf(View())), SegmentsOf(View()), interval, View().FirstAbs(), old(absOrd))
      ensures res == Appended ==> Captured(old(SegmentsOf(View())), SegmentsOf(View()), interval, old(absOrd), slot, now)
    {
      hide Ring.Valid, Ring.Shape, SegmentsOf, HasStamp, KeepsStamps, NextStamp, HeadNext, Captured, KeepsStored, KeepsDurable, AllIntact,
        Phantom, Ring.Intact, CapturePlan, OpenedLive;
      ghost var was := View();
      ValidShape(crcs, was);
      HeadOpens(crcs, was);
      var next := NextTime();
      var plan := CapturePlan(next, interval, slot, now);
      res, evicted := Append(rec, plan.0.time, plan.0.synced, plan.1);
      if res == Appended {
        PlannedStamp(SegmentsOf(was), SegmentsOf(View()), interval, was.absOrd, slot, now, Opens(was, plan.1));
      }
    }

    /** Read `len` bytes at offset `off` of live page `p`, the staged tail of the head included. Only
        the head page refuses a read past what was written to it. */
    method PageReadStream(p: nat, off: nat, len: nat) returns (r: Option<seq<byte>>)
      requires Valid() && p < |live| && off + len <= PAGE_DATA
      ensures View().Shape()
      ensures var st := ReadStream(View(), p);
        r == if off + len <= |st| then Some(st[off..off + len]) else if len == 0 then Some([]) else None
      ensures p + 1 < |live| ==> r.Some?
    {
      hide Ring.Valid, Flat, Flushed, WrittenDw, Tidy, PageStream, ReadStream, Ring.StreamLen;
      ghost var w := View();
      ValidShape(crcs, w);
      PagePhys(crcs, w, p);
      ReadStreamIs(crcs, w, p);
      var phys := live[p].phys;
      var isHead := phys == live[|live| - 1].phys;
      var flushed := headDw * DW_DATA;
      ghost var st := ReadStream(w, p);
      if isHead {
        StagedByte(w, p, flushed);
      }
      var dst: seq<byte> := [];
      var j := 0;
      while j < len
        invariant 0 <= j <= len && (off + j <= |st| || j == 0)
        invariant off + j <= |st| ==> dst == st[off..off + j]
        invariant j == 0 ==> dst == []
      {
        var d := off + j;
        if isHead && d >= flushed {
          var s := d - flushed;
          if s >= stageLen {
            return None;
          }
          StagedByte(w, p, d);
          SliceGrows(st, off, j, dst, stage[s]);
          dst := dst + [stage[s]];
        } else {
          var dw := d / DW_DATA;
          var b := d % DW_DATA;
          PageByte(crcs, w, p, d);
          SliceGrows(st, off, j, dst, flash.pages[phys].dws[dw][b]);
          dst := dst + [flash.pages[phys].dws[dw][b]];
        }
        j := j + 1;
      }
      r := Some(dst);
    }

    /** The record at absolute ordinal `abs`: refused outside the ring and, on the head page, when a
        byte of it is missing; otherwise whatever its page holds at its place. */
    method Read(abs: nat) returns (r: Option<Record>)
      requires Valid()
      ensures View().Shape() && r == if ready then ReadRec(View(), abs) else None
    {
      hide Ring.Valid, Ring.Shape, Ring.Intact, Ring.Rec, PageStream, ReadStream, Flat, Flushed, WrittenDw, Tidy, PageOf,
        Ring.StreamLen, BehindHead;
      ghost var w := View();
      ValidShape(crcs, w);
      if !ready || live == [] {
        return None;
      }
      if abs < live[0].firstOrd || abs >= absOrd {
        return None;
      }
      var p := FindPage(abs);
      RecordFits(crcs, w, abs);
      r := PageReadStream(p, (abs - live[p].firstOrd) * sampleSize, sampleSize);
    }

    /** The newest page that starts at or before `abs`. */
    method FindPage(abs: nat) returns (p: nat)
      requires live != []
      ensures p < |live| && p == PageOf(live, abs, |live| - 1)
    {
      p := |live| - 1;
      while p > 0 && live[p].firstOrd > abs
        invariant 0 <= p < |live|
        invariant PageOf(live, abs, |live| - 1) == PageOf(live, abs, p)
      {
        p := p - 1;
      }
    }

    /** Drop all records without an erase, as a change of the record layout or of the report
        interval does. Ordinals are not rewound, and one sequence number is burnt. */
    method ResetLogical(layout': nat, size': nat, interval': nat)
      requires Valid()
      modifies this
      ensures Valid() && View() == Reset(old(View()), layout', size', interval')
      ensures contents == [] && View().FirstAbs() == absOrd == old(absOrd)
    {
      hide Ring.Valid;
      ResetValid(crcs, View(), layout', size', interval');
      layout, sampleSize, interval := layout', size', interval';
      DropAll();
      assert View() == Reset(old(View()), layout', size', interval');
    }

    /** Erase the partition, then reset; ordinals and sequence numbers go on. An erase that fails
        changes no page. */
    method Clear()
      requires Valid()
      modifies flash, `live, `nextSeq, `headDw, `stageLen, `headFull, `contents, `tailWiped
      ensures Valid() && absOrd == old(absOrd)
      ensures !ready ==> View() == old(View())
      ensures ready ==>
                && View() == Reset(old(View()), layout, sampleSize, interval).(pages := flash.pages)
                && (flash.pages == old(flash.pages) || flash.pages == BlankPages(|old(flash.pages)|))
    {
      hide Ring.Valid;
      if !ready {
        return;
      }
      ghost var r := View();
      var erased := flash.EraseAll();
      DropAll();
      ClearStep(crcs, r, flash.pages);
      assert View() == Reset(r, layout, sampleSize, interval).(pages := flash.pages);
    }

    /** The RAM of a ring that holds nothing; one sequence number is burnt. */
    method DropAll()
      modifies `live, `nextSeq, `headDw, `stageLen, `headFull, `contents, `tailWiped
      ensures live == [] && headDw == 0 && stageLen == 0 && !headFull && nextSeq == old(nextSeq) + 1
      ensures contents == [] && !tailWiped
    {
      live, headDw, stageLen, headFull := [], 0, 0, false;
      nextSeq := nextSeq + 1;
      contents, tailWiped := [], false;
    }

    /** The RTC was set: the pages opened on this boot's uptime get unix times, and a fix-up write
        becomes due for each. */
    method OnClockSync(offset: nat)
      requires Valid() && offset < TWO_32
      modifies `live
      ensures Valid()
      ensures |live| == |old(live)| && forall i :: 0 <= i < |live| ==> live[i] == SyncPage(old(live)[i], offset)
      ensures KeepsAll(old(View()), View())
      ensures MovesStamps(old(SegmentsOf(View())), SegmentsOf(View()), interval, offset)
    {
      hide Ring.Valid, Ring.Intact, Flat, Flushed, WrittenDw, PageOf, SegmentsOf, MovesStamps;
      ghost var r := View();
      var i := 0;
      while i < |live|
        invariant 0 <= i <= |live| == |r.live|
        invariant forall k :: 0 <= k < i ==> live[k] == SyncPage(r.live[k], offset)
        invariant forall k :: i <= k < |live| ==> live[k] == r.live[k]
      {
        if !live[i].synced && live[i].curBoot {
          live := live[i := live[i].(baseTime := (live[i].baseTime + offset) % TWO_32, synced := true, fixPending := true)];
        }
        i := i + 1;
      }
      SyncStep(crcs, r, live, offset);
      SyncStamps(r, live, offset);
      assert View() == r.(live := live);
    }

    /** Every page still to be fixed up gets one attempt, whatever becomes of it: the time of a page
        whose fix-up could not be programmed is lost at the next reboot. */
    method FlushFixUps()
      requires Valid()
      modifies flash, `live
      ensures Valid() && |flash.pages| == |old(flash.pages)|
      ensures |live| == |old(live)| && forall i :: 0 <= i < |live| ==> live[i] == old(live)[i].(fixPending := false)
      ensures flash.faults >= old(flash.faults)
      ensures forall i :: 0 <= i < |live| && old(live)[i].fixPending && (i == 0 ==> !tailWiped) ==>
                FixedUp(crcs, View(), i) || flash.faults > old(flash.faults)
      ensures KeepsAll(old(View()), View()) && SegmentsOf(View()) == old(SegmentsOf(View()))
    {
      hide Ring.Valid, Ring.Intact, Flat, Flushed, WrittenDw, PageOf, Back, FixedUp, KeepsAll, DurableTime, SegmentsOf;
      ghost var r := View();
      KeepsSelf(crcs, r);
      var i := 0;
      while i < |live|
        invariant 0 <= i <= |live| == |r.live| && |flash.pages| == |r.pages| && flash.faults >= old(flash.faults)
        invariant Valid() && KeepsAll(r, View())
        invariant forall k :: 0 <= k < i ==> live[k] == r.live[k].(fixPending := false)
        invariant forall k :: i <= k < |live| ==> live[k] == r.live[k]
        invariant forall k :: 0 <= k < i && r.live[k].fixPending && (k == 0 ==> !tailWiped) ==>
                    FixedUp(crcs, View(), k) || flash.faults > old(flash.faults)
      {
        if live[i].fixPending {
          ghost var w := View();
          FlushFixUp(i);
          KeepsTwice(r, w, View(), 0);
          FixedOthers(crcs, w, View(), i);
        }
        i := i + 1;
      }
      FixedStamps(r, flash.pages, live);
      assert View() == r.(pages := flash.pages, live := live);
    }

    /** One attempt for page `i`. On a page erased to make room there is nothing to fix up. */
    method FlushFixUp(i: nat)
      requires Valid() && i < |live| && live[i].fixPending
      modifies flash, `live
      ensures Valid() && OnlyPage(old(View()), View(), i)
      ensures flash.faults >= old(flash.faults)
      ensures (i == 0 ==> !tailWiped) ==> FixedUp(crcs, View(), i) || flash.faults > old(flash.faults)
      ensures KeepsAll(old(View()), View())
    {
      hide Ring.Valid, Ring.Intact, Ring.Shape, Flat, Flushed, WrittenDw, PageOf, Back;
      ghost var r := View();
      PhysDistinct(crcs, r, i);
      FixUpDue(crcs, r, i);
      var lp := live[i];
      var h := flash.pages[lp.phys].hdr;
      live := live[i := lp.(fixPending := false)];
      FixUpStep(crcs, r, i, r.pages);
      if !HeaderValid(crcs.header, h) || h.body.baseSynced {
        return;
      }
      var offset := (lp.baseTime + TWO_32 - h.body.baseTime) % TWO_32;
      var f := FixUpWritten(offset, FIXUP_MARK, crcs.fixUp(h.crc, offset));
      FixUpStep(crcs, r, i, r.pages[lp.phys := r.pages[lp.phys].(fixUp := f)]);
      var written := flash.WriteFixUp(lp.phys, f);
    }

    // -- Recovery after a reboot --

    ghost predicate Mounting()
      reads this, flash, stage
    {
      && stage.Length == DW_DATA && 3 <= |flash.pages| && |flash.pages| * 1764 <= 0xFFFF && lastPhys < |flash.pages|
      && DiskClean(crcs.header, flash.pages, recs)
    }

    /** The newest page of the current layout, and the newest page of any layout. */
    method FindHead() returns (head: Option<nat>, any: Option<nat>)
      ensures head.Some? ==> IsHead(crcs, flash.pages, layout, sampleSize, head.value)
      ensures head.None? ==> forall p :: 0 <= p < |flash.pages| ==> !Matches(crcs, flash.pages[p], layout, sampleSize)
      ensures any.Some? ==> NoneNewer(crcs, flash.pages, any.value) && HeaderValid(crcs.header, flash.pages[any.value].hdr)
      ensures any.None? ==> forall p :: 0 <= p < |flash.pages| ==> !HeaderValid(crcs.header, flash.pages[p].hdr)
    {
      head, any := None, None;
      var p := 0;
      while p < |flash.pages|
        invariant 0 <= p <= |flash.pages|
        invariant head.Some? ==> head.value < p && Matches(crcs, flash.pages[head.value], layout, sampleSize)
        invariant forall q :: 0 <= q < p && Matches(crcs, flash.pages[q], layout, sampleSize) ==>
                    head.Some? && flash.pages[q].hdr.body.seqNo <= flash.pages[head.value].hdr.body.seqNo
        invariant any.Some? ==> any.value < p && HeaderValid(crcs.header, flash.pages[any.value].hdr)
        invariant forall q :: 0 <= q < p && HeaderValid(crcs.header, flash.pages[q].hdr) ==>
                    any.Some? && flash.pages[q].hdr.body.seqNo <= flash.pages[any.value].hdr.body.seqNo
      {
        var h := flash.pages[p].hdr;
        if HeaderValid(crcs.header, h) {
          if any.None? || h.body.seqNo > flash.pages[any.value].hdr.body.seqNo {
            any := Some(p);
          }
          if !(sampleSize == 0 || h.body.layout != layout || h.body.sampleSize != sampleSize) {
            if head.None? || h.body.seqNo > flash.pages[head.value].hdr.body.seqNo {
              head := Some(p);
            }
          }
        }
        p := p + 1;
      }
    }

    /** Walk physically backward from the head while the pages continue its run. */
    method WalkChain(head: nat) returns (len: nat)
      requires 3 <= |flash.pages| && IsHead(crcs, flash.pages, layout, sampleSize, head)
      ensures IsChain(crcs, flash.pages, head, len)
    {
      var n := |flash.pages|;
      var headHdr := flash.pages[head].hdr;
      var cur := headHdr;
      len := 1;
      while len < n
        invariant 1 <= len <= n
        invariant cur == flash.pages[Back(head, len - 1, n)].hdr && HeaderValid(crcs.header, cur)
        invariant cur.body.layout == layout && cur.body.sampleSize == sampleSize && cur.body.interval == headHdr.body.interval
        invariant forall i :: 1 <= i < len ==>
                    Linked(crcs.header, flash.pages[Back(head, i, n)], flash.pages[Back(head, i - 1, n)])
      {
        BackMod(head, len, n);
        var prev := (head + n - len) % n;
        var h := flash.pages[prev].hdr;
        if !HeaderValid(crcs.header, h) {
          return;
        }
        if h.body.layout != layout || h.body.sampleSize != sampleSize || h.body.interval != headHdr.body.interval
           || cur.body.seqNo != h.body.seqNo + 1 {
          return;
        }
        cur := h;
        len := len + 1;
      }
    }

    /** Count the written payload double words of a page. */
    method ScanWrittenDw(phys: nat) returns (dw: nat)
      requires phys < |flash.pages| && |flash.pages[phys].dws| == PAYLOAD_DW
      ensures dw == WrittenDw(flash.pages[phys].dws)
    {
      dw := 0;
      while dw < PAYLOAD_DW && flash.pages[phys].dws[dw][7] != ERASED_BYTE
        invariant 0 <= dw <= PAYLOAD_DW
        invariant forall k :: 0 <= k < dw ==> flash.pages[phys].dws[k][7] != ERASED_BYTE
      {
        dw := dw + 1;
      }
    }

    /** The RAM view of the chain's pages, oldest first. None of them is from this boot. */
    method LoadChain(head: nat, len: nat) returns (pages: seq<LivePage>)
      requires head < |flash.pages| && len <= |flash.pages|
      ensures pages == ChainLive(crcs, flash.pages, head, len)
    {
      hide Back, MountPage, ChainLive;
      var n := |flash.pages|;
      pages := [];
      var i := 0;
      while i < len
        invariant 0 <= i <= len && |pages| == i
        invariant forall k :: 0 <= k < i ==> pages[k] == ChainPage(crcs, flash.pages, head, len - 1 - k)
      {
        BackMod(head, len - 1 - i, n);
        var phys := (head + n - (len - 1 - i)) % n;
        var lp := LoadPage(phys);
        pages := pages + [lp];
        i := i + 1;
      }
    }

    method LoadPage(phys: nat) returns (lp: LivePage)
      requires phys < |flash.pages|
      ensures lp == MountPage(crcs, flash.pages[phys], phys)
    {
      var pg := flash.pages[phys];
      var base, synced := pg.hdr.body.baseTime, pg.hdr.body.baseSynced;
      if !synced && pg.fixUp.FixUpWritten? && pg.fixUp.mark == FIXUP_MARK
         && crcs.fixUp(pg.hdr.crc, pg.fixUp.offset) == pg.fixUp.crc {
        base, synced := (pg.hdr.body.baseTime + pg.fixUp.offset) % TWO_32, true;
      }
      lp := LivePage(pg.hdr.body.firstOrd, base, phys, synced, false, false);
    }

    /** Restore the ring from the page headers. `head` and `len` name the chain that was found. */
    method Mount() returns (mounted: bool, ghost head: Option<nat>, ghost len: nat)
      requires Mounting()
      modifies this
      ensures head.Some? ==> IsHead(crcs, flash.pages, old(layout), old(sampleSize), head.value)
      ensures head.Some? ==> IsChain(crcs, flash.pages, head.value, len) && CanMount(old(View()), head.value, len)
      ensures head.Some? ==> View() == Mounted(crcs, old(View()), head.value, len)
      ensures head.Some? && NoneNewer(crcs, flash.pages, head.value) ==> Valid()
      ensures ready && head.None? ==> Valid() && live == [] && contents == []
      ensures ready && head.None? ==>
                forall p :: 0 <= p < |flash.pages| ==> !Matches(crcs, flash.pages[p], old(layout), old(sampleSize))
      ensures !ready ==> head.None? && live == []
      ensures mounted <==> head.Some? && absOrd > View().FirstAbs()
      ensures ready == old(ready) && layout == old(layout) && sampleSize == old(sampleSize)
    {
      hide Ring.Valid, DiskClean, Flat, Flushed, WrittenDw, IsHead, IsChain, NoneNewer, Linked;
      ghost var r := View();
      len := 0;
      ClearRam();
      if !ready {
        return false, None, 0;
      }
      var headPhys, anyPhys := FindHead();
      head := headPhys;
      if headPhys.None? {
        MountNothing(anyPhys);
        return false, None, 0;
      }
      var h := headPhys.value;
      len := MountOn(h, r);
      mounted := absOrd > live[0].firstOrd;
    }

    method ClearRam()
      modifies `live, `absOrd, `nextSeq, `headDw, `stageLen, `headFull, `contents, `tailWiped
      ensures live == [] && absOrd == 0 && nextSeq == 0 && headDw == 0 && stageLen == 0 && !headFull
      ensures contents == [] && !tailWiped
    {
      live, absOrd, nextSeq, headDw, stageLen, headFull := [], 0, 0, 0, 0, false;
      contents, tailWiped := [], false;
    }

    /** Nothing to restore: the next page goes physically after the newest one, its sequence number
        two above. */
    method MountNothing(any: Option<nat>)
      requires Mounting() && live == [] && headDw == 0 && stageLen == 0 && contents == [] && !tailWiped
      requires any.Some? ==> NoneNewer(crcs, flash.pages, any.value) && HeaderValid(crcs.header, flash.pages[any.value].hdr)
      requires any.None? ==> forall p :: 0 <= p < |flash.pages| ==> !HeaderValid(crcs.header, flash.pages[p].hdr)
      modifies `nextSeq, `lastPhys
      ensures Valid()
    {
      hide Ring.Valid, DiskClean, Linked;
      if any.Some? {
        nextSeq := flash.pages[any.value].hdr.body.seqNo + 2;
        lastPhys := any.value;
      }
      EmptyValid(crcs, View());
    }

    method MountOn(h: nat, ghost r: Ring) returns (len: nat)
      requires Mounting() && IsHead(crcs, flash.pages, layout, sampleSize, h)
      requires r.pages == flash.pages && r.recs == recs && r.layout == layout && r.size == sampleSize
      modifies `live, `absOrd, `nextSeq, `lastPhys, `headDw, `stageLen, `headFull, `interval, `contents, `recs, `tailWiped
      ensures IsChain(crcs, flash.pages, h, len) && CanMount(r, h, len) && live != []
      ensures View() == Mounted(crcs, r, h, len)
      ensures NoneNewer(crcs, flash.pages, h) ==> Valid()
    {
      hide Ring.Valid, DiskClean, Flat, Flushed, WrittenDw, IsHead, IsChain, NoneNewer, Linked,
        ChainPage, RecoveredCount, Recovered, Concat;
      MountReady(crcs, r, h);
      len := WalkChain(h);
      ChainCan(crcs, View(), h, len);
      ghost var was := View();
      RestoreRing(h, len);
      recs := recs[h := Recovered(flash.pages[h], sampleSize)];
      contents, tailWiped := Concat(recs, live), false;
      SameMounted(crcs, was, r, h, len);
      if NoneNewer(crcs, flash.pages, h) {
        MountedValid(crcs, r, h, len);
      }
    }

    /** The write head of page `h` and the number of whole records before it. */
    method CountRecords(h: nat) returns (written: nat, hrecs: nat)
      requires h < |flash.pages| && |flash.pages[h].dws| == PAYLOAD_DW && sampleSize > 0
      ensures written == WrittenDw(flash.pages[h].dws) && hrecs == RecoveredCount(flash.pages[h], sampleSize)
    {
      written := ScanWrittenDw(h);
      var rpp := PAGE_DATA / sampleSize;
      hrecs := written * DW_DATA / sampleSize;
      if hrecs > rpp {
        hrecs := rpp;
      }
    }

    /** Set the RAM up for the chain of `n` pages that ends at the closed page `h`. */
    method RestoreRing(h: nat, n: nat)
      requires h < |flash.pages| == |recs| && CanMount(View(), h, n)
      modifies `live, `absOrd, `nextSeq, `lastPhys, `headDw, `stageLen, `headFull, `interval
      ensures live == ChainLive(crcs, flash.pages, h, n) && headFull && stageLen == 0 && lastPhys == h
      ensures headDw == WrittenDw(flash.pages[h].dws)
      ensures absOrd == flash.pages[h].hdr.body.firstOrd + RecoveredCount(flash.pages[h], sampleSize)
      ensures nextSeq == flash.pages[h].hdr.body.seqNo + 1 && interval == flash.pages[h].hdr.body.interval
    {
      hide Flat, Flushed, WrittenDw, ChainPage, ChainLive, RecoveredCount, Recovered, Concat, Slots, Back;
      live := LoadChain(h, n);
      var headHdr := flash.pages[h].hdr;
      var written, hrecs := CountRecords(h);
      absOrd := headHdr.body.firstOrd + hrecs;
      nextSeq := headHdr.body.seqNo + 1;
      lastPhys := h;
      headFull, headDw, stageLen := true, written, 0;
      interval := headHdr.body.interval;
    }

    /** The RAM of a boot, with the record layout taken from the configuration. */
    method ForgetRam(probed: bool, layout': nat, size': nat)
      requires |flash.pages| > 0
      modifies this
      ensures ready == probed && layout == layout' && sampleSize == size' && lastPhys == |flash.pages| - 1 && recs == old(recs)
    {
      ready, replayActive := probed, false;
      live, nextSeq, absOrd, lastPhys := [], 0, 0, |flash.pages| - 1;
      headDw, stageLen, headFull := 0, 0, false;
      contents, tailWiped := [], false;
      layout, sampleSize, interval := layout', size', 0;
    }

    /** Power loss and boot: every RAM field is gone, the flash is not. With the record layout the
        ring had, the records that were on flash in full are back, with the bytes they had. */
    method Reboot(probed: bool, layout': nat, size': nat) returns (mounted: bool)
      requires Valid()
      modifies this
      ensures ready == probed
      ensures probed && old(live) != [] && layout' == old(layout) && size' == old(sampleSize) ==>
                Valid() && Recovers(old(View()), View()) && Restamps(crcs, old(View()), View())
    {
      hide Restamps, Ring.Valid, DiskClean, Flat, Flushed, WrittenDw, IsHead, IsChain, NoneNewer, Linked, Mounted, Recovers,
        CanMount;
      ghost var r := View();
      ValidShape(crcs, r);
      ValidDisk(crcs, r);
      ForgetRam(probed, layout', size');
      ghost var ram := View();
      ghost var head, len;
      mounted, head, len := Mount();
      if probed && r.live != [] && layout' == r.layout && size' == r.size {
        HeadMatches(crcs, r);
        RebootRecovers(crcs, r, head.value, len);
        RebootStamps(crcs, r);
        SameMounted(crcs, ram, r, head.value, len);
      }
    }
  }
}