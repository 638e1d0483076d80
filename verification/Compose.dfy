/** The telemetry composer: a snapshot is frozen, laid out into pages once, and sent page by page. */
module Compose {
  import opened Bytes
  import opened Protobuf
  import opened ComposeSpec

  /** `pack_split`, with its two loops. */
  method Split(s: Snapshot, f0: Frame, c0: Cursor, cap: nat) returns (f: Frame, c: Cursor, ok: bool)
    requires s.Ok()
    ensures (f, c, ok) == PackSplit(s, f0, c0, cap, 0)
  {
    hide Fits, First, Snapshot.Has;
    f, c := f0, c0;
    var g := 0;
    while g < GROUPS
      invariant 0 <= g <= GROUPS && PackSplit(s, f, c, cap, g) == PackSplit(s, f0, c0, cap, 0)
    {
      if g in c.pending {
        var f1, sent, added := SplitGroup(s, f, g, SplitSkip(c, g), cap);
        f := f1;
        c := AfterSplit(c, g, sent);
        if added {
          return f, c, true;
        }
      }
      g := g + 1;
    }
    ok := false;
  }

  method SplitGroup(s: Snapshot, f0: Frame, g: nat, sent0: set<nat>, cap: nat) returns (f: Frame, sent: set<nat>, added: bool)
    requires s.Ok() && g < GROUPS
    ensures (f, sent, added) == SplitFields(s, f0, g, sent0, false, cap, First(g))
  {
    hide Fits, First, Snapshot.Has;
    FirstRises(g, g + 1);
    f, sent, added := f0, sent0, false;
    var u := First(g);
    while u < First(g + 1)
      invariant First(g) <= u <= First(g + 1)
      invariant SplitFields(s, f, g, sent, added, cap, u) == SplitFields(s, f0, g, sent0, false, cap, First(g))
    {
      if u !in sent {
        if !s.Has(u) {
          sent := sent + {u};
        } else if Fits(s, With(f, {u}), cap) {
          f, sent, added := With(f, {u}), sent + {u}, true;
        } else if !added {
          sent := sent + {u};
        }
      }
      u := u + 1;
    }
  }

  /** `pack_page`: fill the empty frame `f0` from the cursor. */
  method FillPage(s: Snapshot, f0: Frame, c0: Cursor, cap: nat) returns (f: Frame, c: Cursor, ok: bool)
    requires s.Ok() && CursorOk(s, c0) && f0.units == {}
    ensures (f, c, ok) == PackPage(s, f0, c0, cap)
  {
    hide Fits, CursorOk, PackRound, RoundOk;
    f, c := f0, c0;
    while !Done(s, c)
      invariant CursorOk(s, c) && f.units == {} && PackPage(s, f, c, cap) == PackPage(s, f0, c0, cap)
      decreases Rounds(s, c)
    {
      PackRoundIs(s, f, c, cap);
      RoundKeeps(s, f, c, cap, PackRound(s, f, c, cap));
      var done;
      f, c, done := FillRound(s, f, c, cap);
      if done {
        return f, c, true;
      }
    }
    ok := false;
  }

  lemma RoundKeeps(s: Snapshot, f: Frame, c: Cursor, cap: nat, r: (Frame, Cursor, bool))
    requires s.Ok() && RoundOk(s, f, c, cap, r)
    ensures CursorOk(s, r.1)
  {
  }

  /** Whole pending groups, each tried once. */
  method FillGroups(s: Snapshot, f0: Frame, c: Cursor, cap: nat) returns (f: Frame, taken: set<nat>)
    requires s.Ok()
    ensures (f, taken) == TakeGroups(s, f0, c, cap, 0)
  {
    hide Fits, First, GroupUnits, With, TakeGroups, Plus;
    f, taken := f0, {};
    var g := 0;
    PlusNone(s, f, c, cap, taken);
    while g < GROUPS
      invariant 0 <= g <= GROUPS
      invariant TakeGroups(s, f0, c, cap, 0) == Plus(TakeGroups(s, f, c, cap, g), taken)
    {
      var t := With(f, GroupUnits(s, g, SplitSkip(c, g)));
      TakeStep(s, f, c, cap, g);
      if g in c.pending && Fits(s, t, cap) {
        PlusTaken(TakeGroups(s, t, c, cap, g + 1), g, taken);
        f, taken := t, taken + {g};
      }
      g := g + 1;
    }
    PlusNone(s, f, c, cap, taken);
  }

  lemma TakeStep(s: Snapshot, f: Frame, c: Cursor, cap: nat, g: nat)
    requires s.Ok() && g < GROUPS
    ensures var t := With(f, GroupUnits(s, g, SplitSkip(c, g)));
      TakeGroups(s, f, c, cap, g)
      == if g in c.pending && Fits(s, t, cap)
         then (TakeGroups(s, t, c, cap, g + 1).0, TakeGroups(s, t, c, cap, g + 1).1 + {g})
         else TakeGroups(s, f, c, cap, g + 1)
  {
    hide Fits, First, GroupUnits, With;
  }

  lemma PlusNone(s: Snapshot, f: Frame, c: Cursor, cap: nat, taken: set<nat>)
    requires s.Ok()
    ensures Plus(TakeGroups(s, f, c, cap, GROUPS), taken) == (f, taken)
    ensures taken == {} ==> Plus(TakeGroups(s, f, c, cap, 0), taken) == TakeGroups(s, f, c, cap, 0)
  {
    hide Fits, First, GroupUnits, With;
    assert {} + taken == taken;
    assert TakeGroups(s, f, c, cap, 0).1 + {} == TakeGroups(s, f, c, cap, 0).1;
  }

  function Plus(r: (Frame, set<nat>), taken: set<nat>): (Frame, set<nat>) { (r.0, r.1 + taken) }

  lemma PlusTaken(r: (Frame, set<nat>), g: nat, taken: set<nat>)
    ensures Plus((r.0, r.1 + {g}), taken) == Plus(r, taken + {g})
  {
    assert r.1 + {g} + taken == r.1 + (taken + {g});
  }

  /** Readings in order, while they fit. */
  method FillReadings(s: Snapshot, f0: Frame, w0: nat, cap: nat) returns (f: Frame, w1: nat)
    requires s.Ok()
    ensures (f, w1) == TakeReadings(s, f0, w0, cap)
  {
    hide Fits, With;
    f, w1 := f0, w0;
    while w1 < |s.readings| && Fits(s, With(f, {FIELDS + w1}), cap)
      invariant TakeReadings(s, f, w1, cap) == TakeReadings(s, f0, w0, cap)
    {
      f := With(f, {FIELDS + w1});
      w1 := w1 + 1;
    }
  }

  /** One turn of the loop of `pack_page`: whole groups by priority, whole readings in order, else a
      group field by field, else the next reading is given up. */
  method FillRound(s: Snapshot, f0: Frame, c0: Cursor, cap: nat) returns (f: Frame, c: Cursor, done: bool)
    requires s.Ok()
    ensures (f, c, done) == PackRound(s, f0, c0, cap)
  {
    hide Fits, GroupUnits, TakeGroups, TakeReadings, PackSplit;
    var taken, w1;
    f, taken := FillGroups(s, f0, c0, cap);
    c := AfterGroups(c0, taken);
    f, w1 := FillReadings(s, f, c.w1, cap);
    c := c.(w1 := w1);
    if taken != {} || c.w1 != c0.w1 {
      return f, c, true;
    }
    var ok;
    f, c, ok := Split(s, f, c, cap);
    if ok {
      return f, c, true;
    }
    if c.pending == {} && c.w1 < |s.readings| {
      c := c.(w1 := c.w1 + 1);
    }
    done := false;
  }

  /** `layout_pages`: 1 for a report that fits one frame without page numbers, 0 when nothing fits. */
  method LayOut(s: Snapshot, c0: Cursor, cap: nat) returns (pages: nat)
    requires s.Ok() && CursorOk(s, c0)
    ensures pages == LayoutPages(s, c0, cap)
  {
    hide Fits, CursorOk, PackPage;
    var f, c, any := FillPage(s, Frame({}, 0, 0), c0, cap);
    if Done(s, c) {
      return if any then 1 else 0;
    }
    pages, c := 0, c0;
    while !Done(s, c) && pages < PAGE_BOUND
      invariant CursorOk(s, c) && pages <= PAGE_BOUND && Pages(s, c, cap, pages) == Pages(s, c0, cap, 0)
      decreases PAGE_BOUND - pages, if Done(s, c) then 0 else 1
    {
      PackPageIs(s, EmptyPage(pages), c, cap);
      RoundKeeps(s, EmptyPage(pages), c, cap, PackPage(s, EmptyPage(pages), c, cap));
      var ok;
      f, c, ok := FillPage(s, EmptyPage(pages), c, cap);
      if ok {
        pages := pages + 1;
      }
    }
  }

  function LayoutPages(s: Snapshot, c: Cursor, cap: nat): nat
    requires s.Ok() && CursorOk(s, c)
  {
    var r := PackPage(s, Frame({}, 0, 0), c, cap);
    if Done(s, r.1) then (if r.2 then 1 else 0) else Pages(s, c, cap, 0)
  }

  /** Page `k` of `count`, as sent from cursor `c`. */
  function PageFrame(s: Snapshot, c: Cursor, cap: nat, k: nat, count: nat): Frame
    requires s.Ok() && CursorOk(s, c)
  {
    PackPage(s, EmptyPage(k), c, cap).0.(index := k, count := count)
  }

  /** Pages [k, count) of a report, from cursor `c`. */
  function PageFrames(s: Snapshot, c: Cursor, cap: nat, k: nat, count: nat): seq<Frame>
    requires s.Ok() && CursorOk(s, c)
    decreases count - k
  {
    if k >= count then []
    else
      PackPageIs(s, EmptyPage(k), c, cap);
      [PageFrame(s, c, cap, k, count)] + PageFrames(s, PackPage(s, EmptyPage(k), c, cap).1, cap, k + 1, count)
  }

  datatype Outcome = NoBudget | Busy | Nothing | TooSmall | Sent(frame: Frame, more: bool)

  class Composer {
    var snapshot: Snapshot
    var cur: Cursor
    var active: bool
    var debug: bool                    // the running report is the debug probe's
    var cap: nat
    var pageIndex: nat
    var pageCount: nat
    ghost var start: Cursor            // the cursor at the start of the report
    ghost var frames: seq<Frame>       // its frames so far

    constructor ()
      ensures Valid() && !active
    {
      snapshot, cur := Snapshot([], []), Cursor({}, 0, None, {});
      active, debug, cap, pageIndex, pageCount, start, frames := false, false, 0, 0, 0, Cursor({}, 0, None, {}), [];
    }

    /** A running report of more than one page has sent `pageIndex` of them, and the layout from its
        cursor on still comes to `pageCount`. */
    ghost predicate Valid()
      reads this
    {
      active ==>
        && snapshot.Ok() && CursorOk(snapshot, cur) && CursorOk(snapshot, start)
        && pageCount == LayoutPages(snapshot, start, cap)
        && (pageCount <= 1 ==> frames == [] && cur == start && pageIndex == 0)
        && (pageCount > 1 ==>
              && |frames| == pageIndex < pageCount < PAGE_BOUND
              && Pages(snapshot, cur, cap, pageIndex) == pageCount
              && Covered(snapshot, cap, start, cur, frames)
              && frames + PageFrames(snapshot, cur, cap, pageIndex, pageCount) == PageFrames(snapshot, start, cap, 0, pageCount)
              && FramesOk(snapshot, cap, pageCount, frames))
    }

    /** `fill_snapshot`: everything present is pending. */
    method FillSnapshot(now: Snapshot)
      requires now.Ok()
      modifies `snapshot, `cur, `active
      ensures snapshot == now && cur == StartCursor(now) && active
    {
      snapshot, cur, active := now, StartCursor(now), true;
    }

    /** `compose_ex_impl`: the next frame of the running report, or of a new one on the readings `now`.
        `more` is true exactly before the last of `pageCount` frames. */
    method ComposeNext(now: Snapshot, size: nat, budget: nat, probe: bool) returns (res: Outcome)
      requires Valid() && now.Ok() && size > 0
      modifies this
      ensures Valid()
      ensures res == NoBudget <==> budget == 0
      ensures res == Busy <==> budget > 0 && old(active) && !old(debug) && probe
      ensures res == NoBudget || res == Busy ==> active == old(active) && cur == old(cur) && frames == old(frames)
      ensures res.Sent? ==> snapshot.Ok() && |OnAir(snapshot, res.frame)| <= Min(cap + 1, size)
      ensures res.Sent? && pageCount > 1 ==>
                && frames != [] && res.frame == frames[|frames| - 1]
                && res.frame.index == |frames| - 1 && res.frame.count == pageCount
                && (res.more <==> |frames| < pageCount)
                && (res.more <==> active)
                && FramesOk(snapshot, cap, pageCount, frames)
      ensures res.Sent? && pageCount > 1 && !res.more ==> |frames| == pageCount && Complete(snapshot, cap, start, frames)
      ensures res.Sent? && old(active) && old(debug) == probe ==>
                snapshot == old(snapshot) && cap == old(cap) && pageCount == old(pageCount) && start == old(start) && old(frames) <= frames
      ensures res.Sent? && pageCount <= 1 ==> !res.more && res.frame.count == 0
      ensures res.Sent? && !(old(active) && old(debug) == probe) ==> snapshot == now && start == StartCursor(now)
      // a page is there to send until the last one is; only a buffer smaller than at the start cannot take it
      ensures res == TooSmall ==> size - 1 < cap && old(active) && old(debug) == probe
      ensures res == Nothing && !old(active) ==> CursorOk(now, StartCursor(now)) && LayoutPages(now, StartCursor(now), Min(size, budget) - 1) == 0
      ensures res == Nothing && !old(active) ==>
                forall u: nat :: Left(now, StartCursor(now), u) ==> !Fits(now, Frame({u}, 0, 0), Min(size, budget) - 1)
      ensures res == Nothing ==> snapshot.Ok() && forall u: nat :: Left(snapshot, start, u) ==> !Fits(snapshot, Frame({u}, 0, 0), cap)
      ensures res.Sent? && pageCount > 1 ==> CursorOk(snapshot, start) && frames <= PageFrames(snapshot, start, cap, 0, pageCount)
      ensures !old(active) && budget > 0 && res != Nothing ==>
                res.Sent? && cap == Min(size, budget) - 1 && snapshot == now && CursorOk(now, start) && pageCount == LayoutPages(now, start, cap)
      ensures old(active) && old(debug) == probe && budget > 0 && old(pageCount) > 1 && old(cap) < size ==> res.Sent? && |frames| == |old(frames)| + 1
      ensures !old(active) && res.Sent? && pageCount > 1 ==> |frames| == 1
      ensures res.Sent? ==> debug == probe
      ensures !active || res == NoBudget || res == Busy || (res.Sent? && res.more)
    {
      hide CursorOk, Fits, PackPage, Pages, PageFrames, Covered, Complete, FramesOk, LayoutPages, FrameLen, StartCursor, Left, Done, OnAir;
      if budget == 0 {
        return NoBudget;
      }
      if active && debug != probe {
        if probe {
          return Busy;
        }
        active := false;
      }
      if !active {
        Begin(now, size, budget, probe);
        if !active {
          return Nothing;
        }
      }
      if pageCount > 1 {
        res := NextPage(size);
      } else {
        NoPages(snapshot, start, cap);
        res := OnlyPage(size);
      }
      if res.Sent? {
        FrameLength(snapshot, res.frame);
      }
    }

    /** A new report: the snapshot is frozen and laid out, unless it holds nothing to send. */
    method Begin(now: Snapshot, size: nat, budget: nat, probe: bool)
      requires now.Ok() && size > 0 && budget > 0
      modifies this
      ensures Valid() && snapshot == now && debug == probe && CursorOk(now, StartCursor(now))
      ensures active <==> !Done(now, StartCursor(now))
      ensures active ==> cap == Min(size, budget) - 1
      ensures start == StartCursor(now) && pageCount == LayoutPages(now, start, Min(size, budget) - 1)
      ensures active ==> frames == []
      ensures !active ==> pageCount == 0 && forall u: nat :: !Left(now, start, u)
    {
      hide CursorOk, Fits, PackPage, Pages, PageFrames, Covered, FramesOk, LayoutPages, StartCursor, Left, Done;
      FillSnapshot(now);
      debug := probe;
      StartIsOk(now);
      start, frames := cur, [];
      NoPages(snapshot, cur, Min(size, budget) - 1);
      if Done(snapshot, cur) {
        active := false;
        pageCount := 0;
        NothingLeft(snapshot, cur);
        return;
      }
      cap := Min(size, budget) - 1;
      pageIndex := 0;
      pageCount := LayOut(snapshot, cur, cap);
      ReportStarts(snapshot, cur, cap);
    }

    /** The next page of a paged report. */
    method NextPage(size: nat) returns (res: Outcome)
      requires Valid() && active && pageCount > 1 && size > 0
      modifies this
      ensures Valid() && snapshot == old(snapshot) && cap == old(cap) && pageCount == old(pageCount) && start == old(start) && debug == old(debug)
      ensures snapshot.Ok() && CursorOk(snapshot, start) && CursorOk(snapshot, old(cur))
      ensures var f := PageFrame(snapshot, old(cur), cap, |old(frames)|, pageCount);
        && FrameLen(snapshot, f) <= cap
        && res == (if FrameLen(snapshot, f) > size - 1 then TooSmall else Sent(f, |old(frames)| + 1 < pageCount))
        && frames == old(frames) + (if res.Sent? then [f] else []) && active == (res.Sent? && |frames| < pageCount)
      ensures res.Sent? ==> res.frame.index == |frames| - 1 && res.frame.count == pageCount && FramesOk(snapshot, cap, pageCount, frames)
      ensures frames <= PageFrames(snapshot, start, cap, 0, pageCount)
      ensures res.Sent? && !res.more ==> |frames| == pageCount && Complete(snapshot, cap, start, frames)
      ensures res.Sent? && !res.more ==> frames == PageFrames(snapshot, start, cap, 0, pageCount)
    {
      hide CursorOk, Fits, PackPage, Pages, PageFrames, Covered, Complete, LayoutPages, FrameLen, Done;
      NextPageIs(snapshot, cur, cap, pageIndex, pageCount);
      NextFrames(snapshot, cur, cap, pageIndex, pageCount);
      CoveredPage(snapshot, cap, start, cur, frames, pageCount);
      var f, c, ok := FillPage(snapshot, EmptyPage(pageIndex), cur, cap);
      cur := c;
      f := f.(index := pageIndex, count := pageCount);
      if FrameLen(snapshot, f) > size - 1 {
        active := false;
        assert frames + [] == frames;
        return TooSmall;
      }
      Regroup(frames, f, PageFrames(snapshot, cur, cap, pageIndex + 1, pageCount));
      frames := frames + [f];
      pageIndex := pageIndex + 1;
      var more := pageIndex < pageCount && !Done(snapshot, cur);
      if !more {
        active := false;
        CoveredEnd(snapshot, cap, start, cur, frames);
        NoFrames(snapshot, cur, cap, pageIndex, pageCount);
      }
      res := Sent(f, more);
    }

    /** The frame of a report that has no page numbers. */
    method OnlyPage(size: nat) returns (res: Outcome)
      requires Valid() && active && pageCount <= 1 && size > 0
      modifies this
      ensures Valid() && snapshot == old(snapshot) && cap == old(cap) && pageCount == old(pageCount) && start == old(start) && debug == old(debug)
      ensures snapshot.Ok() && frames == old(frames) && !active && CursorOk(snapshot, start)
      ensures var r := PackPage(snapshot, Frame({}, 0, 0), start, cap);
        && cur == r.1 && r.0.count == 0 && (r.2 ==> FrameLen(snapshot, r.0) <= cap)
        && res == (if !r.2 then Nothing else if FrameLen(snapshot, r.0) > size - 1 then TooSmall else Sent(r.0, false))
      // nothing is sent exactly if nothing fits
      ensures res == Nothing <==> forall u: nat :: Left(snapshot, start, u) ==> !Fits(snapshot, Frame({u}, 0, 0), cap)
      ensures res.Sent? && Done(snapshot, cur) ==>
                forall u: nat :: Left(snapshot, start, u) && u !in res.frame.units ==> !Fits(snapshot, Frame({u}, 0, 0), cap)
    {
      hide CursorOk, PackPage, LayoutPages, Left, FrameLen;
      var empty := Frame({}, 0, 0);
      PackPageIs(snapshot, empty, cur, cap);
      OnlyMoves(snapshot, empty, cur, cap, PackPage(snapshot, empty, cur, cap));
      OnlyNothing(snapshot, cur, cap);
      var f, c, ok := FillPage(snapshot, empty, cur, cap);
      cur := c;
      active := false;
      if !ok {
        return Nothing;
      }
      if FrameLen(snapshot, f) > size - 1 {
        return TooSmall;
      }
      pageIndex := pageIndex + 1;
      res := Sent(f, false);
    }

    /** A whole report: as long as the buffer does not shrink, as many calls as there are pages give the
        pages of the layout, and together they hold every unit that fits a page. */
    method SendReport(now: Snapshot, size: nat, budget: nat) returns (sent: seq<Frame>)
      requires Valid() && !active && now.Ok() && size > 0 && budget > 0
      modifies this
      ensures Valid() && !active
      ensures var c := StartCursor(now); var cap := Min(size, budget) - 1;
        CursorOk(now, c) && (LayoutPages(now, c, cap) > 1 ==>
          && sent == PageFrames(now, c, cap, 0, LayoutPages(now, c, cap)) && |sent| == LayoutPages(now, c, cap)
          && Complete(now, cap, c, sent) && FramesOk(now, cap, |sent|, sent))
      ensures sent == [] ==> forall u: nat :: Left(now, StartCursor(now), u) ==> !Fits(now, Frame({u}, 0, 0), Min(size, budget) - 1)
      // every frame, as encoded with its version byte, is within the budget
      ensures forall k :: 0 <= k < |sent| ==> |OnAir(now, sent[k])| <= Min(size, budget)
    {
      hide CursorOk, Fits, PackPage, Pages, PageFrames, Covered, Complete, FramesOk, LayoutPages, FrameLen, StartCursor, Left, OnAir;
      StartIsOk(now);
      var r := ComposeNext(now, size, budget, false);
      sent := if r.Sent? then [r.frame] else [];
      if r == Nothing {
        return;
      }
      if pageCount <= 1 {
        return;
      }
      assert frames == [r.frame];
      var more := r.more;
      while more
        invariant Valid() && snapshot == now && start == StartCursor(now) && cap == Min(size, budget) - 1 && !debug
        invariant pageCount == LayoutPages(now, start, cap) > 1 && frames == sent && |sent| <= pageCount
        invariant more == active == (|sent| < pageCount)
        invariant !more ==> Complete(now, cap, start, frames)
        invariant frames <= PageFrames(now, start, cap, 0, pageCount) && FramesOk(now, cap, pageCount, frames)
        decreases pageCount - |sent|
      {
        r := ComposeNext(now, size, budget, false);
        sent := sent + [r.frame];
        more := r.more;
      }
      FramesCount(now, start, cap, 0, pageCount);
      WithinBudget(now, cap, pageCount, sent);
    }
  }

  /** Every frame says how many there are and fits the budget. */
  ghost predicate FramesOk(s: Snapshot, cap: nat, count: nat, frames: seq<Frame>)
    requires s.Ok()
  {
    forall k :: 0 <= k < |frames| ==> frames[k].count == count && FrameLen(s, frames[k]) <= cap
  }

  lemma WithinBudget(s: Snapshot, cap: nat, count: nat, frames: seq<Frame>)
    requires s.Ok() && FramesOk(s, cap, count, frames)
    ensures forall k :: 0 <= k < |frames| ==> |OnAir(s, frames[k])| <= cap + 1
  {
    hide FrameLen, OnAir;
    forall k | 0 <= k < |frames|
      ensures |OnAir(s, frames[k])| <= cap + 1
    {
      FrameLength(s, frames[k]);
    }
  }

  /** A page that fits with the page count bound fits with the real count. */
  lemma RealCountFits(s: Snapshot, f: Frame, count: nat, cap: nat)
    requires s.Ok() && f.count == PAGE_BOUND && Fits(s, f, cap) && count <= PAGE_BOUND
    ensures FrameLen(s, f.(count := count)) <= cap
  {
    hide UnitsLen, FieldLen;
    FieldMonotone(29, count, PAGE_BOUND);
  }

  function Min(a: nat, b: nat): nat { if a < b then a else b }

  /** `group_present` for every group; no split, no reading sent. */
  function StartCursor(s: Snapshot): Cursor
    requires s.Ok()
  {
    Cursor(set g | 0 <= g < GROUPS && GroupUnits(s, g, {}) != {}, 0, None, {})
  }

  lemma StartIsOk(s: Snapshot)
    requires s.Ok()
    ensures CursorOk(s, StartCursor(s))
  {
    hide GroupUnits;
  }

  /** A report starts with everything in the snapshot to send. */
  lemma StartHasAll(s: Snapshot, u: nat)
    requires s.Ok()
    ensures Left(s, StartCursor(s), u) <==> s.Has(u) || FIELDS <= u < s.Units()
  {
    if s.Has(u) {
      assert u in GroupUnits(s, GroupOf(u), {});
    }
  }

  lemma ReportStarts(s: Snapshot, c: Cursor, cap: nat)
    requires s.Ok() && CursorOk(s, c)
    ensures Covered(s, cap, c, c, []) && FramesOk(s, cap, LayoutPages(s, c, cap), [])
    ensures LayoutPages(s, c, cap) > 1 ==> Pages(s, c, cap, 0) == LayoutPages(s, c, cap) < PAGE_BOUND
  {
    hide CursorOk, Fits, PackPage, Pages, Covered;
    CoveredStart(s, cap, c);
    FewPages(s, c, cap);
  }

  /** While the layout promises another page, there is one, and after it the layout still comes to the
      same number. */
  lemma NextPageIs(s: Snapshot, c: Cursor, cap: nat, k: nat, count: nat)
    requires s.Ok() && CursorOk(s, c) && k < count < PAGE_BOUND && Pages(s, c, cap, k) == count
    ensures var r := PackPage(s, EmptyPage(k), c, cap);
      && r.2 && CursorOk(s, r.1) && Pages(s, r.1, cap, k + 1) == count
      && (k + 1 < count ==> !Done(s, r.1))
      && r.0 == Frame(r.0.units, k, PAGE_BOUND) && FrameLen(s, r.0.(count := count)) <= cap
  {
    hide CursorOk, Fits, Moves, FrameLen;
    PagesStop(s, c, cap, k);
    PackPageIs(s, EmptyPage(k), c, cap);
    RealCountFits(s, PackPage(s, EmptyPage(k), c, cap).0, count, cap);
  }

  lemma CoveredPage(s: Snapshot, cap: nat, c0: Cursor, c: Cursor, frames: seq<Frame>, count: nat)
    requires s.Ok() && CursorOk(s, c) && Covered(s, cap, c0, c, frames) && |frames| < PAGE_BOUND
    requires PackPage(s, EmptyPage(|frames|), c, cap).2
    ensures var r := PackPage(s, EmptyPage(|frames|), c, cap);
      Covered(s, cap, c0, r.1, frames + [r.0.(index := |frames|, count := count)])
  {
    hide CursorOk, Fits, PackPage, Covered;
    CoveredStep(s, cap, c0, c, frames, PackPage(s, EmptyPage(|frames|), c, cap).0.(index := |frames|, count := count));
  }

  lemma OnlyMoves(s: Snapshot, f: Frame, c: Cursor, cap: nat, r: (Frame, Cursor, bool))
    requires s.Ok() && f == Frame({}, 0, 0) && RoundOk(s, f, c, cap, r)
    ensures r.0 == Frame(r.0.units, 0, 0) && (r.2 ==> Fits(s, r.0, cap))
    ensures Done(s, r.1) ==> forall u: nat :: Left(s, c, u) && u !in r.0.units ==> !Fits(s, Frame({u}, 0, 0), cap)
  {
    hide Fits, CursorOk;
    if Done(s, r.1) {
      forall u: nat | Left(s, c, u) && u !in r.0.units
        ensures !Fits(s, Frame({u}, 0, 0), cap)
      {
        NoneLeft(s, r.1, u);
        assert MovesUnit(s, f, c, r.1, r.0.units, cap, u);
        assert {} + {u} == {u};
      }
    }
  }

  lemma NextFrames(s: Snapshot, c: Cursor, cap: nat, k: nat, count: nat)
    requires s.Ok() && CursorOk(s, c) && k < count
    ensures CursorOk(s, PackPage(s, EmptyPage(k), c, cap).1)
    ensures PageFrames(s, c, cap, k, count) == [PageFrame(s, c, cap, k, count)] + PageFrames(s, PackPage(s, EmptyPage(k), c, cap).1, cap, k + 1, count)
  {
    hide CursorOk, PackPage, PageFrame;
    PackPageIs(s, EmptyPage(k), c, cap);
  }

  lemma NoFrames(s: Snapshot, c: Cursor, cap: nat, k: nat, count: nat)
    requires s.Ok() && CursorOk(s, c) && k >= count
    ensures PageFrames(s, c, cap, k, count) == []
  {
  }

  lemma Regroup(a: seq<Frame>, f: Frame, b: seq<Frame>)
    ensures a + ([f] + b) == (a + [f]) + b && a <= a + ([f] + b) && a + [f] <= a + ([f] + b) && (b == [] ==> a + [f] == a + ([f] + b))
  {
  }

  lemma {:induction false} FramesCount(s: Snapshot, c: Cursor, cap: nat, k: nat, count: nat)
    requires s.Ok() && CursorOk(s, c) && k <= count
    ensures |PageFrames(s, c, cap, k, count)| == count - k
    decreases count - k
  {
    hide CursorOk, PackPage, PageFrame;
    if k < count {
      NextFrames(s, c, cap, k, count);
      FramesCount(s, PackPage(s, EmptyPage(k), c, cap).1, cap, k + 1, count);
    }
  }

  lemma NothingLeft(s: Snapshot, c: Cursor)
    requires s.Ok() && Done(s, c)
    ensures forall u: nat :: !Left(s, c, u)
  {
    forall u: nat
      ensures !Left(s, c, u)
    {
      NoneLeft(s, c, u);
    }
  }

  /** No page is laid out if nothing is left or nothing fits. */
  lemma NoPages(s: Snapshot, c: Cursor, cap: nat)
    requires s.Ok() && CursorOk(s, c)
    ensures Done(s, c) || !PackPage(s, Frame({}, 0, 0), c, cap).2 ==> LayoutPages(s, c, cap) == 0
  {
    hide CursorOk, Fits, Moves, PackRound;
    PackPageIs(s, Frame({}, 0, 0), c, cap);
  }

  /** A page of its own takes no more than a page it is on. */
  lemma FitsAlone(s: Snapshot, f: Frame, u: nat, cap: nat)
    requires s.Ok() && u in f.units && Fits(s, f, cap)
    ensures Fits(s, f.(units := {u}), cap)
  {
    hide Snapshot.UnitLen;
    AloneLess(s, u, f.units, s.Units());
  }

  lemma {:induction false} AloneLess(s: Snapshot, u: nat, units: set<nat>, top: nat)
    requires s.Ok() && u in units && top <= s.Units()
    ensures UnitsLen(s, {u}, top) <= UnitsLen(s, units, top)
  {
    if top > 0 {
      AloneLess(s, u, units, top - 1);
    }
  }

  /** The unpaged frame is empty exactly if nothing fits it. */
  lemma OnlyNothing(s: Snapshot, c: Cursor, cap: nat)
    requires s.Ok() && CursorOk(s, c)
    ensures !PackPage(s, Frame({}, 0, 0), c, cap).2 <==> forall u: nat :: Left(s, c, u) ==> !Fits(s, Frame({u}, 0, 0), cap)
  {
    hide CursorOk, PackPage, Left, Fits, Moves, Done;
    var empty := Frame({}, 0, 0);
    var r := PackPage(s, empty, c, cap);
    PackPageIs(s, empty, c, cap);
    OnlyMoves(s, empty, c, cap, r);
    if r.2 {
      var u: nat :| u in r.0.units;
      FitsAlone(s, r.0, u, cap);
      OnPageLeft(s, empty, c, r.1, r.0.units, cap, u);
    }
  }

  lemma OnPageLeft(s: Snapshot, f: Frame, c: Cursor, d: Cursor, x: set<nat>, cap: nat, u: nat)
    requires s.Ok() && Moves(s, f, c, d, x, cap) && u in x
    ensures Left(s, c, u)
  {
    assert MovesUnit(s, f, c, d, x, cap, u);
  }
}
