/** Reading the history store back: time windows over segments, frames of records, the cursor of a
    replay. A store is what either backend shows of itself under the lock: its segments, the ordinal
    of the oldest record, and the records. */
module HistoryExport {
  import opened Bytes
  import opened Segments
  import M = HistoryRam
  import R = FlashRingState
  import T = FlashTimes
  import FD = FlashDevice

  type Record = seq<byte>

  datatype Window = Window(from: nat, to: nat, takeUnsynced: bool)

  /** `recs` are the bytes a read of each stored record gives, `bad` the ordinals whose read fails, and
      `kept` the records as they were appended. */
  datatype Store = Store(segs: seq<Segment>, first: nat, interval: nat, size: nat, recs: seq<Record>, bad: set<nat>, kept: seq<Record>)
  {
    function Stop(): nat { first + |recs| }

    /** What a read of ordinal `a` gives. */
    function Rec(a: nat): Record {
      if first <= a < Stop() then recs[a - first] else []
    }

    /** The record appended as ordinal `a`. */
    function Was(a: nat): Record {
      if first <= a < first + |kept| then kept[a - first] else []
    }

    /** A read of ordinal `a` gives the record as it was appended. */
    ghost predicate Sound(a: nat) { Rec(a) == Was(a) }

    ghost predicate Valid() {
      && Partition(segs, first, Stop()) && |kept| == |recs|
      && (forall k :: 0 <= k < |recs| ==> |recs[k]| == size)
    }

    ghost predicate Readable(a: nat) { first <= a < Stop() && a !in bad }
  }

  // ---- Windows -----------------------------------------------------------------------------------

  /** The time of record `a` of segment `s`, before any 32-bit wrap, lies in the window. */
  ghost predicate InWindow(s: Segment, w: Window, interval: nat, a: nat)
    requires s.origin <= a
  {
    if s.synced then w.from <= s.base + (a - s.origin) * interval <= w.to else w.takeUnsynced
  }

  ghost predicate Wanted(st: Store, w: Window, a: nat) {
    exists i: nat :: InSegment(st.segs, i, a) && InWindow(st.segs[i], w, st.interval, a)
  }

  function Max(a: nat, b: nat): nat { if a < b then b else a }

  function Min(a: nat, b: nat): nat { if a < b then a else b }

  function CeilDiv(d: nat, n: nat): nat
    requires n > 0
  {
    d / n + if d % n != 0 then 1 else 0
  }

  /** `seg_window`: the records of `s` in the window are [r.0, r.1). */
  function SegWindow(s: Segment, w: Window, interval: nat): (r: (nat, nat))
    ensures r.0 <= r.1
  {
    if !s.synced then
      (Min(s.first, if w.takeUnsynced then s.end else s.first), if w.takeUnsynced then s.end else s.first)
    else if interval == 0 then
      var b := if s.base < w.from || s.base > w.to then s.first else s.end;
      (Min(s.first, b), b)
    else
      var a := if w.from > s.base then Max(s.first, s.origin + CeilDiv(w.from - s.base, interval)) else s.first;
      var b := if w.to < s.base then a else Min(s.end, s.origin + (w.to - s.base) / interval + 1);
      (Min(a, b), b)
  }

  lemma CeilDivIs(d: nat, n: nat, k: nat)
    requires n > 0
    ensures CeilDiv(d, n) <= k <==> d <= k * n
  {
    var q, r := d / n, d % n;
    assert d == q * n + r;
    if k <= q {
      MulLe(k, q, n);
    } else {
      MulLe(q + 1, k, n);
    }
  }

  lemma FloorDivIs(d: nat, n: nat, k: nat)
    requires n > 0
    ensures k < d / n + 1 <==> k * n <= d
  {
    var q, r := d / n, d % n;
    assert d == q * n + r;
    if k <= q {
      MulLe(k, q, n);
    } else {
      MulLe(q + 1, k, n);
    }
  }

  lemma MulLe(a: nat, b: nat, n: nat)
    requires a <= b
    ensures a * n <= b * n
  {
    assert b * n == a * n + (b - a) * n;
  }

  /** The window of a segment is exact: the ordinals with from <= base + (abs - origin) * interval <= to. */
  lemma SegWindowExact(s: Segment, w: Window, interval: nat, a: nat)
    requires s.origin <= s.first <= s.end
    ensures var r := SegWindow(s, w, interval);
      && (r.0 < r.1 ==> s.first <= r.0 && r.1 <= s.end)
      && (s.first <= a < s.end ==> (r.0 <= a < r.1 <==> InWindow(s, w, interval, a)))
  {
    hide CeilDiv;
    if s.synced && interval > 0 && s.first <= a < s.end {
      var k := a - s.origin;
      assert InWindow(s, w, interval, a) <==> w.from <= s.base + k * interval <= w.to;
      hide InWindow;
      MulLe(0, k, interval);
      if w.from > s.base {
        CeilDivIs(w.from - s.base, interval, k);
      }
      if w.to >= s.base {
        FloorDivIs(w.to - s.base, interval, k);
      }
    }
  }

  lemma OneSegment(st: Store, i: nat, j: nat, a: nat)
    requires st.Valid() && InSegment(st.segs, i, a) && InSegment(st.segs, j, a)
    ensures i == j
  {
    if i < j {
      PartitionOrder(st.segs, st.first, st.Stop(), i, j);
    } else if j < i {
      PartitionOrder(st.segs, st.first, st.Stop(), j, i);
    }
  }

  lemma OtherSegment(st: Store, i: nat, j: nat, a: nat)
    requires st.Valid() && InSegment(st.segs, i, a) && i != j
    ensures !InSegment(st.segs, j, a)
  {
    if InSegment(st.segs, j, a) {
      OneSegment(st, i, j, a);
    }
  }

  /** Within segment `i`, what is wanted is its window. */
  lemma WantedIs(st: Store, w: Window, i: nat, a: nat)
    requires st.Valid() && i < |st.segs| && st.segs[i].first <= a < st.segs[i].end
    ensures var r := SegWindow(st.segs[i], w, st.interval);
      && (Wanted(st, w, a) <==> r.0 <= a < r.1)
      && (Wanted(st, w, a) <==> InWindow(st.segs[i], w, st.interval, a))
  {
    hide SegWindow;
    SegWindowExact(st.segs[i], w, st.interval, a);
    assert InSegment(st.segs, i, a);
    if Wanted(st, w, a) {
      var j: nat :| InSegment(st.segs, j, a) && InWindow(st.segs[j], w, st.interval, a);
      OneSegment(st, i, j, a);
    }
  }

  lemma WantedStored(st: Store, w: Window, a: nat)
    requires st.Valid() && Wanted(st, w, a)
    ensures st.first <= a < st.Stop()
  {
    var i: nat :| InSegment(st.segs, i, a);
    PartitionFirst(st.segs, st.first, st.Stop(), i);
    PartitionEnd(st.segs, st.first, st.Stop(), i);
  }

  /** Nothing in [lo, hi) is wanted. */
  ghost predicate NoneWanted(st: Store, w: Window, lo: nat, hi: nat) {
    forall a: nat :: lo <= a < hi ==> !Wanted(st, w, a)
  }

  lemma WindowInside(st: Store, w: Window, i: nat)
    requires st.Valid() && i < |st.segs|
    ensures var s := st.segs[i]; var r := SegWindow(s, w, st.interval);
      s.origin <= s.first <= s.end && r.0 <= r.1 && (r.0 < r.1 ==> s.first <= r.0 && r.1 <= s.end)
  {
    hide SegWindow;
    SegWindowExact(st.segs[i], w, st.interval, 0);
  }

  /** All segments before `i` end at or before `abs`. */
  ghost predicate Past(st: Store, i: nat, abs: nat)
    requires i <= |st.segs|
  {
    i > 0 ==> st.segs[i - 1].end <= abs
  }

  /** The records before the window of segment `i`, and those after it, are not wanted. */
  lemma OutsideWindow(st: Store, w: Window, i: nat, lo: nat, hi: nat)
    requires st.Valid() && i < |st.segs| && st.segs[i].first <= lo && hi <= st.segs[i].end
    requires var r := SegWindow(st.segs[i], w, st.interval); hi <= r.0 || r.1 <= lo || r.0 == r.1
    ensures NoneWanted(st, w, lo, hi)
  {
    forall a: nat | lo <= a < hi
      ensures !Wanted(st, w, a)
    {
      WantedIs(st, w, i, a);
    }
  }

  lemma PastStart(st: Store, i: nat, abs: nat)
    requires st.Valid() && i < |st.segs| && Past(st, i, abs) && st.first <= abs
    ensures st.segs[i].first <= abs
  {
    if i > 0 {
      assert Joined(st.segs, i - 1);
    }
  }

  lemma PastAll(st: Store, abs: nat)
    requires st.Valid() && Past(st, |st.segs|, abs) && st.first <= abs
    ensures st.Stop() <= abs
  {
  }

  /** `next_in_window`: the first wanted record at or after `abs` and before `end`, or `end` or more. */
  method NextInWindow(st: Store, w: Window, start: nat, end: nat) returns (next: nat)
    requires st.Valid() && st.first <= start && end <= st.Stop()
    ensures start <= next && NoneWanted(st, w, start, Min(next, end))
    ensures next < end ==> Wanted(st, w, next)
  {
    hide SegWindow, Wanted, Partition;
    var abs := start;
    var i := 0;
    while i < |st.segs| && abs < end
      invariant 0 <= i <= |st.segs| && start <= abs
      invariant abs < end ==> Past(st, i, abs)
      invariant NoneWanted(st, w, start, Min(abs, end))
      invariant abs >= end ==> NoneWanted(st, w, start, end)
    {
      PastStart(st, i, abs);
      var s := st.segs[i];
      i := i + 1;
      if abs >= s.end {
        continue;
      }
      var win := SegWindow(s, w, st.interval);
      WindowInside(st, w, i - 1);
      ghost var was := abs;
      if abs < win.0 {
        abs := win.0;
      }
      if abs < win.1 {
        if was < abs {
          OutsideWindow(st, w, i - 1, was, abs);
        }
        WantedIs(st, w, i - 1, abs);
        return Min(abs, end);
      }
      OutsideWindow(st, w, i - 1, was, s.end);
      abs := s.end;
    }
    if abs < end {
      PastAll(st, abs);
    }
    next := Max(abs, end);
  }

  // ---- Frames ------------------------------------------------------------------------------------

  /** A frame as sent: `n` records from ordinal `at` on. */
  datatype Frame = Frame(at: nat, n: nat, payload: seq<byte>, t0: nat, synced: bool)

  /** The frame is one run of wanted, readable records of segment `i`, bytes and base time theirs. */
  ghost predicate RunOf(st: Store, w: Window, i: nat, f: Frame)
    requires i < |st.segs|
  {
    && st.segs[i].origin <= st.segs[i].first <= f.at && f.at + f.n <= st.segs[i].end
    && st.first <= f.at && f.at + f.n <= st.Stop()
    && (forall a: nat :: f.at <= a < f.at + f.n ==> Wanted(st, w, a) && st.Readable(a))
    && f.payload == R.Flat(st.recs[f.at - st.first..f.at + f.n - st.first])
    && (f.n > 0 ==> f.t0 == SegTime(st.segs[i], f.at, st.interval) && f.synced == st.segs[i].synced)
  }

  /** Why the run of a frame ends: no room, the end of the export, of the window, or a bad record. */
  ghost predicate RunEnds(st: Store, w: Window, i: nat, f: Frame, cap: nat, end: nat)
    requires i < |st.segs|
  {
    || |f.payload| + st.size > cap
    || f.at + f.n >= end
    || !(InSegment(st.segs, i, f.at + f.n) && Wanted(st, w, f.at + f.n))
    || !st.Readable(f.at + f.n)
  }

  ghost predicate IsRun(st: Store, w: Window, i: nat, f: Frame, cap: nat, end: nat) {
    i < |st.segs| && RunOf(st, w, i, f) && RunEnds(st, w, i, f, cap, end)
  }

  /** Of the wanted records in [lo, hi), those that can be read are exactly the frame's. */
  ghost predicate Takes(st: Store, w: Window, lo: nat, hi: nat, f: Frame) {
    forall a: nat :: lo <= a < hi && Wanted(st, w, a) && st.Readable(a) ==> f.at <= a < f.at + f.n
  }

  /** `f` is the frame of the wanted records from `start` on and before `end`, and the export goes on
      at `next`. */
  ghost predicate FrameOk(st: Store, w: Window, start: nat, end: nat, cap: nat, f: Frame, next: nat) {
    var from, till := Max(start, st.first), Min(end, st.Stop());
    && from <= next && |f.payload| <= cap
    && (f.n == 0 ==> f.payload == [])
    && (f.n > 0 ==> from <= f.at && f.at + f.n <= Min(next, till) && exists i: nat :: IsRun(st, w, i, f, cap, till))
    && Takes(st, w, from, Min(next, till), f)
    && (next < till ==> Wanted(st, w, next))
    && (f.n == 0 && st.size <= cap ==> next >= till)
  }

  lemma FlatMore(rs: seq<Record>, lo: nat, hi: nat)
    requires lo <= hi < |rs|
    ensures R.Flat(rs[lo..hi + 1]) == R.Flat(rs[lo..hi]) + rs[hi]
  {
    assert rs[lo..hi + 1] == rs[lo..hi] + [rs[hi]];
    R.FlatAppend(rs[lo..hi], rs[hi]);
  }

  /** A run grows by the next record. */
  lemma RunMore(st: Store, w: Window, i: nat, f: Frame, abs: nat)
    requires st.Valid() && InSegment(st.segs, i, abs) && Wanted(st, w, abs) && st.Readable(abs)
    requires f.n > 0 ==> abs == f.at + f.n && RunOf(st, w, i, f)
    requires f.n == 0 ==> f == Frame(abs, 0, [], SegTime(st.segs[i], abs, st.interval), st.segs[i].synced)
    ensures RunOf(st, w, i, f.(n := f.n + 1, payload := f.payload + st.recs[abs - st.first]))
  {
    hide Wanted, SegTime, Partition;
    FlatMore(st.recs, f.at - st.first, abs - st.first);
  }

  /** All of [lo, hi) are stored in segment `i` and wanted. */
  ghost predicate AllWanted(st: Store, w: Window, i: nat, lo: nat, hi: nat) {
    forall a: nat :: lo <= a < hi ==> WantedIn(st, w, i, a)
  }

  ghost predicate WantedIn(st: Store, w: Window, i: nat, a: nat) {
    Wanted(st, w, a) && InSegment(st.segs, i, a) && st.first <= a < st.Stop()
  }

  lemma FewerWanted(st: Store, w: Window, i: nat, lo: nat, hi: nat, to: nat)
    requires AllWanted(st, w, i, lo, hi) && to <= hi
    ensures AllWanted(st, w, i, lo, to)
  {
    hide WantedIn;
  }

  /** The records of one segment's window, from `start` on and before `stop`, into a frame. */
  method FillFrame(st: Store, w: Window, i: nat, start: nat, stop: nat, cap: nat)
    returns (f: Frame, abs: nat, closed: bool)
    requires st.Valid()
    requires AllWanted(st, w, i, start, stop)
    ensures start <= f.at && f.at + f.n <= abs && |f.payload| <= cap
    ensures f.n == 0 ==> f.payload == [] && (closed || abs >= stop)
    ensures f.n > 0 ==> f.at + f.n <= stop && i < |st.segs| && RunOf(st, w, i, f)
    ensures Takes(st, w, start, abs, f) && (start < stop ==> abs <= stop)
    ensures !closed ==> abs >= stop && (f.n > 0 ==> f.at + f.n == stop)
    ensures closed ==> start < stop && (f.n == 0 ==> st.size > cap)
    ensures closed && f.n > 0 ==> |f.payload| + st.size > cap || !st.Readable(f.at + f.n)
  {
    hide Wanted, Partition, SegTime, R.Flat, RunOf, InSegment;
    f := Frame(start, 0, [], 0, false);
    abs := start;
    while abs < stop
      invariant start <= abs && (start < stop ==> abs <= stop) && start <= f.at && f.at + f.n <= abs && |f.payload| <= cap
      invariant f.n == 0 ==> f.payload == []
      invariant f.n > 0 ==> start < stop && abs == f.at + f.n && i < |st.segs| && RunOf(st, w, i, f)
      invariant Takes(st, w, start, abs, f)
    {
      if |f.payload| + st.size > cap {
        return f, abs, true;
      }
      assert WantedIn(st, w, i, abs);
      if abs in st.bad {
        abs := abs + 1;
        if f.n > 0 {
          return f, abs, true;
        }
        continue;
      }
      assert i < |st.segs| && st.segs[i].origin <= abs by { assert InSegment(st.segs, i, abs); InSegmentIs(st.segs, i, abs); }
      if f.n == 0 {
        f := f.(at := abs, t0 := SegTime(st.segs[i], abs, st.interval), synced := st.segs[i].synced);
      }
      RunMore(st, w, i, f, abs);
      f := f.(n := f.n + 1, payload := f.payload + st.recs[abs - st.first]);
      abs := abs + 1;
    }
    closed := false;
  }

  lemma InSegmentIs(segs: seq<Segment>, i: nat, a: nat)
    requires InSegment(segs, i, a)
    ensures i < |segs| && segs[i].origin <= a
  {
  }

  /** How the window of segment `i` splits what is left of the segment from `abs` on. */
  lemma WindowSplits(st: Store, w: Window, i: nat, abs: nat)
    requires st.Valid() && i < |st.segs| && st.segs[i].first <= abs
    ensures var s := st.segs[i]; var r := SegWindow(s, w, st.interval);
      && NoneWanted(st, w, abs, Min(Max(abs, r.0), s.end))
      && NoneWanted(st, w, Max(abs, r.1), s.end)
      && AllWanted(st, w, i, Max(abs, r.0), r.1)
  {
    hide SegWindow, Wanted, Partition;
    var s := st.segs[i];
    var r := SegWindow(s, w, st.interval);
    WindowInside(st, w, i);
    forall a: nat | abs <= a < s.end
      ensures Wanted(st, w, a) <==> r.0 <= a < r.1
    {
      WantedIs(st, w, i, a);
    }
    forall a: nat | Max(abs, r.0) <= a < r.1
      ensures WantedIn(st, w, i, a)
    {
      WantedIs(st, w, i, a);
      WantedStored(st, w, a);
    }
  }

  /** Nothing is wanted before `mid`; what the frame takes is decided from there on. */
  lemma TakesFrom(st: Store, w: Window, start: nat, mid: nat, to: nat, f: Frame)
    requires NoneWanted(st, w, start, mid) && Takes(st, w, mid, to, f)
    ensures Takes(st, w, start, to, f)
  {
    hide Wanted;
  }

  /** Nothing was taken before `mid`. */
  lemma TakesOn(st: Store, w: Window, from: nat, mid: nat, none: Frame, to: nat, f: Frame)
    requires Takes(st, w, from, mid, none) && none.n == 0 && Takes(st, w, mid, to, f)
    ensures Takes(st, w, from, to, f)
  {
    hide Wanted;
  }

  /** The pass of the export loop over segment `i`, from `start` on. */
  method ScanSegment(st: Store, w: Window, i: nat, start: nat, till: nat, cap: nat)
    returns (f: Frame, abs: nat, closed: bool)
    requires st.Valid() && i < |st.segs| && st.segs[i].first <= start < st.segs[i].end && start < till <= st.Stop()
    ensures start <= abs && |f.payload| <= cap && Takes(st, w, start, Min(abs, till), f)
    ensures f.n == 0 ==> f.payload == [] && (closed ==> st.size > cap) && (!closed ==> abs == Min(st.segs[i].end, till))
    ensures f.n > 0 ==> start <= f.at && f.at + f.n <= Min(abs, till) && IsRun(st, w, i, f, cap, till)
  {
    hide SegWindow, Wanted, Partition, RunOf, Takes, NoneWanted, AllWanted;
    WindowSplits(st, w, i, start);
    WindowInside(st, w, i);
    var s := st.segs[i];
    var win := SegWindow(s, w, st.interval);
    abs := Max(start, win.0);
    ghost var mid := abs;
    FewerWanted(st, w, i, abs, win.1, Min(win.1, till));
    f, abs, closed := FillFrame(st, w, i, abs, Min(win.1, till), cap);
    if !closed && f.n == 0 {
      abs := Min(s.end, till);
      ScanEmpty(st, w, start, mid, win.1, s.end, till, f);
    } else {
      if abs > till {
        TakesLess(st, w, mid, till, abs, f);
      }
      TakesFrom(st, w, start, mid, Min(abs, till), f);
      if f.n > 0 {
        RunEnded(st, w, i, f, cap, till, win.1);
      }
    }
  }

  lemma TakesLess(st: Store, w: Window, from: nat, mid: nat, to: nat, f: Frame)
    requires Takes(st, w, from, to, f) && mid <= to
    ensures Takes(st, w, from, mid, f)
  {
    hide Wanted;
  }

  /** Nothing of a segment was taken: none of its window before `till` can be read. */
  lemma ScanEmpty(st: Store, w: Window, start: nat, mid: nat, stop: nat, end: nat, till: nat, f: Frame)
    requires NoneWanted(st, w, start, Min(mid, end)) && NoneWanted(st, w, Max(start, stop), end)
    requires start <= mid && f.n == 0 && exists to: nat :: to >= Min(stop, till) && Takes(st, w, mid, to, f)
    ensures Takes(st, w, start, Min(end, till), f)
  {
    hide Wanted;
  }

  /** Why `FillFrame` ended a run. */
  lemma RunEnded(st: Store, w: Window, i: nat, f: Frame, cap: nat, till: nat, stop: nat)
    requires st.Valid() && i < |st.segs| && RunOf(st, w, i, f) && f.n > 0
    requires stop <= st.segs[i].end && NoneWanted(st, w, stop, st.segs[i].end)
    requires |f.payload| + st.size > cap || !st.Readable(f.at + f.n) || f.at + f.n == Min(stop, till)
    ensures IsRun(st, w, i, f, cap, till)
  {
    hide Wanted, Partition, RunOf;
  }

  /** `export_locked`: the next frame of the wanted records in [start, end). */
  method ExportLocked(st: Store, w: Window, start: nat, end: nat, cap: nat) returns (f: Frame, next: nat)
    requires st.Valid()
    ensures FrameOk(st, w, start, end, cap, f, next)
  {
    hide SegWindow, Wanted, Partition, IsRun, Takes, NoneWanted;
    var till := Min(end, st.Stop());
    var from := Max(start, st.first);
    var abs := from;
    f := Frame(from, 0, [], 0, false);
    TakesNone(st, w, from, f);
    var i := 0;
    var closed := false;
    while i < |st.segs| && abs < till && f.n == 0 && !closed
      invariant 0 <= i <= |st.segs| && from <= abs && |f.payload| <= cap
      invariant !closed && f.n == 0 && abs < till ==> Past(st, i, abs)
      invariant f.n == 0 ==> f.payload == []
      invariant f.n > 0 ==> from <= f.at && f.at + f.n <= Min(abs, till) && i > 0 && IsRun(st, w, i - 1, f, cap, till)
      invariant Takes(st, w, from, Min(abs, till), f)
      invariant closed && f.n == 0 ==> st.size > cap
      decreases |st.segs| - i
    {
      PastStart(st, i, abs);
      i := i + 1;
      if abs >= st.segs[i - 1].end {
        continue;
      }
      ghost var was, none := abs, f;
      f, abs, closed := ScanSegment(st, w, i - 1, abs, till, cap);
      TakesOn(st, w, from, was, none, Min(abs, till), f);
    }
    if f.n == 0 && !closed && abs < till {
      PastAll(st, abs);
    }
    ghost var reached := abs;
    next := NextInWindow(st, w, abs, till);
    TakesMore(st, w, from, reached, Min(next, till), till, f);
  }

  lemma TakesNone(st: Store, w: Window, from: nat, f: Frame)
    ensures Takes(st, w, from, from, f)
    ensures forall to: nat :: to <= from ==> Takes(st, w, from, to, f)
  {
  }

  lemma TakesMore(st: Store, w: Window, from: nat, mid: nat, to: nat, till: nat, f: Frame)
    requires Takes(st, w, from, Min(mid, till), f) && to <= till && (mid < till ==> NoneWanted(st, w, mid, to))
    ensures Takes(st, w, from, to, f)
  {
    hide Wanted;
  }

  // ---- Number of frames --------------------------------------------------------------------------

  /** Frames of `per` records that the window of `s` needs from ordinal `c` on. */
  function FramesIn(s: Segment, w: Window, interval: nat, per: nat, c: nat): nat
    requires per > 0
  {
    var r := SegWindow(s, w, interval);
    if Max(c, r.0) < r.1 then CeilDiv(r.1 - Max(c, r.0), per) else 0
  }

  function FramesLeft(segs: seq<Segment>, w: Window, interval: nat, per: nat, c: nat): nat
    requires per > 0
  {
    if segs == [] then 0
    else FramesLeft(segs[..|segs| - 1], w, interval, per, c) + FramesIn(segs[|segs| - 1], w, interval, per, c)
  }

  lemma CeilDivForm(d: nat, n: nat)
    requires n > 0
    ensures (d + n - 1) / n == CeilDiv(d, n)
  {
    var q, r := d / n, d % n;
    assert d == q * n + r;
    if r == 0 {
      assert d + n - 1 == q * n + (n - 1);
    } else {
      assert d + n - 1 == (q + 1) * n + (r - 1);
    }
    DivIs(d + n - 1, n, if r == 0 then q else q + 1, if r == 0 then n - 1 else r - 1);
  }

  lemma DivIs(x: nat, n: nat, q: nat, r: nat)
    requires n > 0 && x == q * n + r && r < n
    ensures x / n == q
  {
    var q', r' := x / n, x % n;
    assert x == q' * n + r';
    if q' < q {
      MulLe(q' + 1, q, n);
    } else if q < q' {
      MulLe(q + 1, q', n);
    }
  }

  /** `app_history_count_frames`, the count saturating at 16 bits. */
  method CountFrames(st: Store, w: Window, cap: nat) returns (frames: nat)
    requires st.Valid()
    ensures st.size == 0 || cap < st.size ==> frames == 0
    ensures 0 < st.size <= cap ==> cap / st.size > 0 && frames == Min(FramesLeft(st.segs, w, st.interval, cap / st.size, 0), 0xFFFF)
  {
    hide SegWindow;
    if st.size == 0 || cap < st.size {
      return 0;
    }
    var per := cap / st.size;
    PerFrame(cap, st.size, 1);
    frames := 0;
    var i := 0;
    while i < |st.segs|
      invariant 0 <= i <= |st.segs|
      invariant frames == FramesLeft(st.segs[..i], w, st.interval, per, 0)
    {
      var r := SegWindow(st.segs[i], w, st.interval);
      CeilDivForm(r.1 - r.0, per);
      frames := frames + (r.1 - r.0 + per - 1) / per;
      i := i + 1;
      assert st.segs[..i][..i - 1] == st.segs[..i - 1];
    }
    assert st.segs[..i] == st.segs;
    frames := Min(frames, 0xFFFF);
  }

  /** `cap / size` records is what fits. */
  lemma PerFrame(cap: nat, size: nat, n: nat)
    requires size > 0
    ensures n <= cap / size <==> n * size <= cap
  {
    FloorDivIs(cap, size, n);
  }

  /** Two sums over the segments that differ at segment `i` only. */
  lemma {:induction false} SumStep(segs: seq<Segment>, w: Window, interval: nat, per: nat, c: nat, d: nat, i: nat)
    requires per > 0
    requires forall j: nat :: j < |segs| && j != i ==> FramesIn(segs[j], w, interval, per, c) == FramesIn(segs[j], w, interval, per, d)
    ensures i < |segs| ==> (FramesLeft(segs, w, interval, per, c) + FramesIn(segs[i], w, interval, per, d)
                            == FramesLeft(segs, w, interval, per, d) + FramesIn(segs[i], w, interval, per, c))
    ensures i >= |segs| ==> FramesLeft(segs, w, interval, per, c) == FramesLeft(segs, w, interval, per, d)
  {
    hide FramesIn;
    if segs != [] {
      SumStep(segs[..|segs| - 1], w, interval, per, c, d, i);
    }
  }

  /** Skipping records that segment `j` does not want costs no frame of segment `j`. */
  lemma SkipIn(st: Store, w: Window, per: nat, j: nat, c: nat, d: nat)
    requires st.Valid() && per > 0 && j < |st.segs| && c <= d
    requires forall a: nat :: c <= a < d && InSegment(st.segs, j, a) ==> !Wanted(st, w, a)
    ensures FramesIn(st.segs[j], w, st.interval, per, c) == FramesIn(st.segs[j], w, st.interval, per, d)
  {
    hide SegWindow, Wanted, Partition;
    var r := SegWindow(st.segs[j], w, st.interval);
    WindowInside(st, w, j);
    if Max(c, r.0) < r.1 {
      WantedIs(st, w, j, Max(c, r.0));
      assert InSegment(st.segs, j, Max(c, r.0));
    }
  }

  lemma SkipAll(st: Store, w: Window, per: nat, c: nat, d: nat)
    requires st.Valid() && per > 0 && c <= d && NoneWanted(st, w, c, Min(d, st.Stop()))
    ensures FramesLeft(st.segs, w, st.interval, per, c) == FramesLeft(st.segs, w, st.interval, per, d)
  {
    hide FramesIn, Partition, Wanted;
    forall j: nat | j < |st.segs|
      ensures FramesIn(st.segs[j], w, st.interval, per, c) == FramesIn(st.segs[j], w, st.interval, per, d)
    {
      PartitionEnd(st.segs, st.first, st.Stop(), j);
      SkipIn(st, w, per, j, c, d);
    }
    SumStep(st.segs, w, st.interval, per, c, d, |st.segs|);
  }

  /** A frame takes one frame's worth off its own segment. */
  lemma TakeIn(st: Store, w: Window, i: nat, f: Frame, cap: nat, end: nat)
    requires st.Valid() && 0 < st.size <= cap && end == st.Stop() && f.n > 0 && IsRun(st, w, i, f, cap, end) && |f.payload| <= cap
    requires forall a: nat :: st.first <= a < st.Stop() ==> st.Readable(a)
    ensures cap / st.size > 0
    ensures FramesIn(st.segs[i], w, st.interval, cap / st.size, f.at) == 1 + FramesIn(st.segs[i], w, st.interval, cap / st.size, f.at + f.n)
  {
    hide SegWindow, Wanted, Partition, R.Flat;
    var s := st.segs[i];
    var r := SegWindow(s, w, st.interval);
    var per := cap / st.size;
    PerFrame(cap, st.size, 1);
    WindowInside(st, w, i);
    PartitionEnd(st.segs, st.first, st.Stop(), i);
    WantedIs(st, w, i, f.at);
    WantedIs(st, w, i, f.at + f.n - 1);
    if f.at + f.n < s.end {
      WantedIs(st, w, i, f.at + f.n);
    }
    R.FlatLength(st.recs[f.at - st.first..f.at + f.n - st.first], st.size);
    PerFrame(cap, st.size, f.n);
    PerFrame(cap, st.size, f.n + 1);
    assert (f.n + 1) * st.size == f.n * st.size + st.size;
    CeilStep(r.1 - f.at, per);
  }

  lemma CeilStep(d: nat, n: nat)
    requires n > 0 && d > 0
    ensures d <= n ==> CeilDiv(d, n) == 1
    ensures d > n ==> CeilDiv(d, n) == 1 + CeilDiv(d - n, n)
  {
    CeilDivForm(d, n);
    if d > n {
      CeilDivForm(d - n, n);
      var q := (d - 1) / n;
      assert d - 1 == q * n + (d - 1) % n;
      assert d + n - 1 == (q + 1) * n + (d - 1) % n;
      DivIs(d + n - 1, n, q + 1, (d - 1) % n);
    } else {
      DivIs(d + n - 1, n, 1, d - 1);
    }
  }

  /** Exporting one frame takes one off the number of frames left. */
  lemma FrameStep(st: Store, w: Window, c: nat, cap: nat, f: Frame, next: nat)
    requires st.Valid() && 0 < st.size <= cap && st.first <= c && FrameOk(st, w, c, st.Stop(), cap, f, next)
    requires forall a: nat :: st.first <= a < st.Stop() ==> st.Readable(a)
    ensures cap / st.size > 0
    ensures FramesLeft(st.segs, w, st.interval, cap / st.size, c)
         == (if f.n > 0 then 1 else 0) + FramesLeft(st.segs, w, st.interval, cap / st.size, next)
  {
    hide FramesIn, FramesLeft, SegWindow, Wanted, Partition;
    var per := cap / st.size;
    PerFrame(cap, st.size, 1);
    if f.n == 0 {
      SkipAll(st, w, per, c, next);
    } else {
      var i: nat :| IsRun(st, w, i, f, cap, st.Stop());
      SkipAll(st, w, per, c, f.at);
      SkipAll(st, w, per, f.at + f.n, next);
      forall j: nat | j < |st.segs| && j != i
        ensures FramesIn(st.segs[j], w, st.interval, per, f.at) == FramesIn(st.segs[j], w, st.interval, per, f.at + f.n)
      {
        forall a: nat | f.at <= a < f.at + f.n
          ensures !InSegment(st.segs, j, a)
        {
          OtherSegment(st, i, j, a);
        }
        SkipIn(st, w, per, j, f.at, f.at + f.n);
      }
      SumStep(st.segs, w, st.interval, per, f.at, f.at + f.n, i);
      TakeIn(st, w, i, f, cap, st.Stop());
    }
  }

  // ---- A replay, with captures and evictions between its frames -----------------------------------

  /** One turn of the replay loop: the store as it was then, the budget, the frame and the new cursor. */
  datatype Turn = Turn(st: Store, cap: nat, frame: Frame, next: nat)
  {
    predicate Carries(a: nat) { frame.at <= a < frame.at + frame.n }
  }

  function Cursor(run: seq<Turn>, start: nat, k: nat): nat
    requires k <= |run|
  {
    if k == 0 then start else run[k - 1].next
  }

  /** Turn `k` exports at the cursor the turn before left, with room for a record at least. */
  ghost predicate TurnOk(run: seq<Turn>, w: Window, start: nat, end: nat, k: nat)
    requires k < |run|
  {
    var t := run[k];
    && t.st.Valid() && t.st.size <= t.cap && end <= t.st.Stop() && Cursor(run, start, k) < end
    && FrameOk(t.st, w, Cursor(run, start, k), end, t.cap, t.frame, t.next)
  }

  /** What captures and evictions leave alone: which record an ordinal is, and its time. */
  ghost predicate Evolves(a: Store, b: Store) {
    && a.first <= b.first && a.Stop() <= b.Stop() && a.interval == b.interval && a.size == b.size
    && (forall x: nat :: b.first <= x < a.Stop() ==> b.Was(x) == a.Was(x))
    && (forall i: nat, j: nat, x: nat :: InSegment(a.segs, i, x) && InSegment(b.segs, j, x) ==> SameStamp(a.segs[i], b.segs[j]))
  }

  ghost predicate Replay(run: seq<Turn>, w: Window, start: nat, end: nat) {
    && (forall k :: 0 <= k < |run| ==> TurnOk(run, w, start, end, k))
    && (forall k :: 0 < k < |run| ==> Evolves(run[k - 1].st, run[k].st))
  }

  lemma TurnMoves(run: seq<Turn>, w: Window, start: nat, end: nat, k: nat)
    requires k < |run| && TurnOk(run, w, start, end, k)
    ensures Cursor(run, start, k) < run[k].next
    ensures run[k].frame.n > 0 ==> Cursor(run, start, k) <= run[k].frame.at && run[k].frame.at + run[k].frame.n <= run[k].next
    ensures run[k].frame.n > 0 ==> run[k].frame.at + run[k].frame.n <= end
  {
    hide Wanted, IsRun;
  }

  lemma {:induction false} CursorRises(run: seq<Turn>, w: Window, start: nat, end: nat, j: nat, k: nat)
    requires Replay(run, w, start, end) && j <= k <= |run|
    ensures Cursor(run, start, j) + (k - j) <= Cursor(run, start, k)
  {
    hide FrameOk, Evolves;
    if j < k {
      CursorRises(run, w, start, end, j, k - 1);
      TurnMoves(run, w, start, end, k - 1);
    }
  }

  /** The replay ends: every turn moves the cursor, and none starts at or past `end`. */
  lemma ReplayEnds(run: seq<Turn>, w: Window, start: nat, end: nat)
    requires Replay(run, w, start, end) && run != []
    ensures start < end && |run| <= end - start
  {
    hide FrameOk, Evolves;
    CursorRises(run, w, start, end, 0, |run| - 1);
    assert TurnOk(run, w, start, end, |run| - 1);
  }

  /** Exported ordinals strictly increase. */
  lemma ReplayOrdered(run: seq<Turn>, w: Window, start: nat, end: nat, j: nat, k: nat)
    requires Replay(run, w, start, end) && j < k < |run| && run[j].frame.n > 0 && run[k].frame.n > 0
    ensures run[j].frame.at + run[j].frame.n <= run[k].frame.at
  {
    hide FrameOk, Evolves;
    TurnMoves(run, w, start, end, j);
    TurnMoves(run, w, start, end, k);
    CursorRises(run, w, start, end, j + 1, k);
  }

  lemma EvolvesWanted(a: Store, b: Store, w: Window, x: nat)
    requires a.Valid() && b.Valid() && Evolves(a, b) && b.first <= x < a.Stop()
    ensures Wanted(a, w, x) <==> Wanted(b, w, x)
  {
    hide Partition, Wanted;
    var i := Covered(a.segs, a.first, a.Stop(), x);
    var j := Covered(b.segs, b.first, b.Stop(), x);
    assert SameStamp(a.segs[i], b.segs[j]);
    WantedIs(a, w, i, x);
    WantedIs(b, w, j, x);
  }

  lemma EvolvesSelf(a: Store)
    requires a.Valid()
    ensures Evolves(a, a)
  {
    hide Partition;
    forall i: nat, j: nat, x: nat | InSegment(a.segs, i, x) && InSegment(a.segs, j, x)
      ensures SameStamp(a.segs[i], a.segs[j])
    {
      OneSegment(a, i, j, x);
    }
  }

  lemma EvolvesTrans(a: Store, b: Store, c: Store)
    requires b.Valid() && Evolves(a, b) && Evolves(b, c)
    requires a.Valid() && c.Valid()
    ensures Evolves(a, c)
  {
    hide Partition;
    forall x: nat | c.first <= x < a.Stop()
      ensures c.Was(x) == a.Was(x)
    {
      assert b.Was(x) == a.Was(x);
    }
    forall i: nat, k: nat, x: nat | InSegment(a.segs, i, x) && InSegment(c.segs, k, x)
      ensures SameStamp(a.segs[i], c.segs[k])
    {
      PartitionEnd(a.segs, a.first, a.Stop(), i);
      PartitionFirst(c.segs, c.first, c.Stop(), k);
      var j := Covered(b.segs, b.first, b.Stop(), x);
      assert SameStamp(a.segs[i], b.segs[j]) && SameStamp(b.segs[j], c.segs[k]);
    }
  }

  lemma {:induction false} EvolvesRun(run: seq<Turn>, w: Window, start: nat, end: nat, k: nat)
    requires Replay(run, w, start, end) && k < |run|
    ensures run[k].st.Valid() && Evolves(run[0].st, run[k].st)
  {
    hide FrameOk;
    assert TurnOk(run, w, start, end, 0) && TurnOk(run, w, start, end, k);
    if k == 0 {
      EvolvesSelf(run[0].st);
    } else {
      EvolvesRun(run, w, start, end, k - 1);
      EvolvesTrans(run[0].st, run[k - 1].st, run[k].st);
    }
  }

  /** The turn that passes ordinal `a`. */
  lemma PassedAt(run: seq<Turn>, w: Window, start: nat, end: nat, a: nat) returns (k: nat)
    requires Replay(run, w, start, end) && start <= a < Cursor(run, start, |run|)
    ensures k < |run| && Cursor(run, start, k) <= a < run[k].next
  {
    hide FrameOk, Evolves;
    k := |run| - 1;
    while Cursor(run, start, k) > a
      decreases k
      invariant k < |run| && a < run[k].next
    {
      k := k - 1;
    }
  }

  /** Only the turn that passes `a` can carry it. */
  lemma CarriedOnce(run: seq<Turn>, w: Window, start: nat, end: nat, a: nat, k: nat, j: nat)
    requires Replay(run, w, start, end) && k < |run| && Cursor(run, start, k) <= a < run[k].next
    requires j < |run| && run[j].Carries(a)
    ensures j == k
  {
    hide FrameOk, Evolves;
    TurnMoves(run, w, start, end, j);
    if j < k {
      CursorRises(run, w, start, end, j + 1, k);
    } else if k < j {
      CursorRises(run, w, start, end, k + 1, j);
    }
  }

  /** A frame holds the record's own bytes at its place. */
  lemma FrameBytes(st: Store, w: Window, start: nat, end: nat, cap: nat, f: Frame, next: nat, a: nat)
    requires st.Valid() && FrameOk(st, w, start, end, cap, f, next) && f.at <= a < f.at + f.n
    ensures st.Readable(a) && Wanted(st, w, a)
    ensures R.Slot(f.payload, a - f.at, st.size) == st.Rec(a)
  {
    hide Wanted, R.Flat, Partition;
    var i: nat :| IsRun(st, w, i, f, cap, Min(end, st.Stop()));
    var rs := st.recs[f.at - st.first..f.at + f.n - st.first];
    R.FlatLength(rs, st.size);
    MulLe(a - f.at + 1, f.n, st.size);
    R.SlotIs(f.payload, rs, st.size, a - f.at);
  }

  /** A complete replay exports a record that was stored and wanted when it began exactly once, in the
      turn that passes it, if and only if it is then still stored and readable; otherwise it exports it
      never. The bytes sent are those it was appended with exactly if that is what a read then gives. */
  lemma ReplayExact(run: seq<Turn>, w: Window, start: nat, end: nat, a: nat) returns (k: nat)
    requires Replay(run, w, start, end) && start < end <= Cursor(run, start, |run|) && start <= a < end
    requires run[0].st.first <= a && Wanted(run[0].st, w, a)
    ensures k < |run| && Cursor(run, start, k) <= a < run[k].next
    ensures forall j: nat :: j < |run| && run[j].Carries(a) ==> j == k
    ensures run[k].Carries(a) <==> run[k].st.Readable(a)
    ensures run[k].Carries(a) ==>
              (R.Slot(run[k].frame.payload, a - run[k].frame.at, run[k].st.size) == run[0].st.Was(a) <==> run[k].st.Sound(a))
  {
    hide FrameOk, Wanted, Evolves, Store.Readable;
    k := PassedAt(run, w, start, end, a);
    forall j: nat | j < |run| && run[j].Carries(a)
      ensures j == k
    {
      CarriedOnce(run, w, start, end, a, k, j);
    }
    assert TurnOk(run, w, start, end, 0) && TurnOk(run, w, start, end, k);
    EvolvesRun(run, w, start, end, k);
    TurnTakes(run[0].st, run[k], w, Cursor(run, start, k), end, a);
  }

  lemma TurnTakes(first: Store, t: Turn, w: Window, start: nat, end: nat, a: nat)
    requires first.Valid() && t.st.Valid() && Evolves(first, t.st) && first.first <= a < first.Stop() && Wanted(first, w, a)
    requires FrameOk(t.st, w, start, end, t.cap, t.frame, t.next) && start <= a < t.next && a < end <= t.st.Stop()
    ensures t.Carries(a) <==> t.st.Readable(a)
    ensures t.Carries(a) ==> (R.Slot(t.frame.payload, a - t.frame.at, t.st.size) == first.Was(a) <==> t.st.Sound(a))
  {
    hide Wanted, Partition, IsRun, R.Slot;
    if t.Carries(a) {
      FrameBytes(t.st, w, start, end, t.cap, t.frame, t.next, a);
    }
    if t.st.Readable(a) {
      EvolvesWanted(first, t.st, w, a);
    }
  }

  /** The number of frames still to come, by turns: for a store that nobody changes and that reads
      without error, the estimate made at the start is exact. */
  lemma {:induction false} FramesByTurns(run: seq<Turn>, w: Window, start: nat, st: Store, cap: nat, k: nat)
    requires Replay(run, w, start, st.Stop()) && k <= |run| && Cursor(run, start, |run|) >= st.Stop()
    requires st.Valid() && 0 < st.size <= cap && st.first <= start
    requires forall a: nat :: st.first <= a < st.Stop() ==> st.Readable(a)
    requires forall j :: 0 <= j < |run| ==> run[j].st == st && run[j].cap == cap
    ensures cap / st.size > 0 && FramesLeft(st.segs, w, st.interval, cap / st.size, Cursor(run, start, k)) == Filled(run[k..])
    decreases |run| - k
  {
    hide FrameOk, Evolves, FramesLeft;
    PerFrame(cap, st.size, 1);
    if k < |run| {
      assert TurnOk(run, w, start, st.Stop(), k);
      CursorRises(run, w, start, st.Stop(), 0, k);
      FrameStep(st, w, Cursor(run, start, k), cap, run[k].frame, run[k].next);
      assert run[k..][1..] == run[k + 1..];
      FramesByTurns(run, w, start, st, cap, k + 1);
    } else {
      NoFramesLeft(st, w, cap / st.size, Cursor(run, start, |run|));
    }
  }

  /** Turns that send a frame. */
  function Filled(run: seq<Turn>): nat {
    if run == [] then 0 else (if run[0].frame.n > 0 then 1 else 0) + Filled(run[1..])
  }

  lemma NoFramesLeft(st: Store, w: Window, per: nat, c: nat)
    requires st.Valid() && per > 0 && c >= st.Stop()
    ensures FramesLeft(st.segs, w, st.interval, per, c) == 0
  {
    hide SegWindow, Partition;
    forall j: nat | j < |st.segs|
      ensures FramesIn(st.segs[j], w, st.interval, per, c) == 0
    {
      WindowInside(st, w, j);
      PartitionEnd(st.segs, st.first, st.Stop(), j);
    }
    SumZero(st.segs, w, st.interval, per, c);
  }

  lemma {:induction false} SumZero(segs: seq<Segment>, w: Window, interval: nat, per: nat, c: nat)
    requires per > 0 && forall j: nat :: j < |segs| ==> FramesIn(segs[j], w, interval, per, c) == 0
    ensures FramesLeft(segs, w, interval, per, c) == 0
  {
    if segs != [] {
      SumZero(segs[..|segs| - 1], w, interval, per, c);
    }
  }

  /** `app_history_count_frames` counts the frames the cursor loop sends. */
  lemma CountIsFrames(run: seq<Turn>, w: Window, st: Store, cap: nat)
    requires Replay(run, w, st.first, st.Stop()) && Cursor(run, st.first, |run|) >= st.Stop()
    requires st.Valid() && 0 < st.size <= cap
    requires forall a: nat :: st.first <= a < st.Stop() ==> st.Readable(a)
    requires forall j :: 0 <= j < |run| ==> run[j].st == st && run[j].cap == cap
    ensures cap / st.size > 0 && FramesLeft(st.segs, w, st.interval, cap / st.size, 0) == Filled(run)
  {
    hide FramesLeft, Evolves, FrameOk;
    FramesByTurns(run, w, st.first, st, cap, 0);
    assert run[0..] == run;
    PerFrame(cap, st.size, 1);
    forall a: nat | 0 <= a < st.first
      ensures !Wanted(st, w, a)
    {
      if Wanted(st, w, a) {
        WantedStored(st, w, a);
      }
    }
    SkipAll(st, w, cap / st.size, 0, st.first);
  }

  /** The host's clock: record `j` of a frame has time t0 + j * interval, and in a synced segment that
      time lies in the window without any 32-bit wrap. */
  lemma FrameTimes(st: Store, w: Window, start: nat, end: nat, cap: nat, f: Frame, next: nat, j: nat)
    requires st.Valid() && FrameOk(st, w, start, end, cap, f, next) && j < f.n && w.to < TWO_32
    ensures exists i: nat :: InSegment(st.segs, i, f.at + j) && f.synced == st.segs[i].synced
                             && SegTime(st.segs[i], f.at + j, st.interval) == (f.t0 + j * st.interval) % TWO_32
    ensures f.synced ==> w.from <= f.t0 + j * st.interval <= w.to
  {
    hide Wanted, R.Flat, Partition, SegWindow, SegTime, RunEnds, Takes;
    var i: nat :| IsRun(st, w, i, f, cap, Min(end, st.Stop()));
    WantedIs(st, w, i, f.at);
    WantedIs(st, w, i, f.at + j);
    assert InSegment(st.segs, i, f.at + j);
    TimeAhead(st.segs[i], f.at, j, st.interval);
    if f.synced {
      TimeInWindow(st.segs[i], w, f.at, st.interval);
    }
  }

  lemma TimeAhead(s: Segment, at: nat, j: nat, interval: nat)
    requires s.origin <= at
    ensures SegTime(s, at + j, interval) == (SegTime(s, at, interval) + j * interval) % TWO_32
    ensures s.base + (at + j - s.origin) * interval == s.base + (at - s.origin) * interval + j * interval
  {
    var k := at - s.origin;
    assert (k + j) * interval == k * interval + j * interval;
    ModAdd(s.base + k * interval, j * interval);
  }

  lemma TimeInWindow(s: Segment, w: Window, at: nat, interval: nat)
    requires s.origin <= at && s.synced && InWindow(s, w, interval, at) && w.to < TWO_32
    ensures SegTime(s, at, interval) == s.base + (at - s.origin) * interval
  {
  }

  lemma ModAdd(a: nat, b: nat)
    ensures (a % TWO_32 + b) % TWO_32 == (a + b) % TWO_32
    ensures a < TWO_32 ==> a % TWO_32 == a
  {
  }

  // ---- The two backends as stores ------------------------------------------------------------------

  /** The flash ring, with what its reads give. */
  ghost function FlashStore(r: R.Ring): Store
    requires r.Shape()
  {
    Store(R.SegmentsOf(r), r.FirstAbs(), r.interval, r.size, seq(|r.contents|, i requires 0 <= i => R.ReadBytes(r, r.FirstAbs() + i)),
          (set a: nat | r.FirstAbs() <= a < r.absOrd && R.ReadRec(r, a).None?), r.contents)
  }

  lemma FlashStoreValid(c: R.Crcs, r: R.Ring)
    requires r.Valid(c)
    ensures r.Shape() && FlashStore(r).Valid() && FlashStore(r).Stop() == r.absOrd
  {
    hide Partition, R.Ring.Valid, R.Ring.Shape, R.ReadBytes, R.ReadRec, R.SegmentsOf;
    R.SegmentsPartition(c, r);
    R.ValidShape(c, r);
    forall k | 0 <= k < |FlashStore(r).recs|
      ensures |FlashStore(r).recs[k]| == r.size
    {
      FlashBytes(c, r, r.FirstAbs() + k);
    }
  }

  lemma FlashBytes(c: R.Crcs, r: R.Ring, a: nat)
    requires r.Valid(c) && r.FirstAbs() <= a < r.absOrd
    ensures r.Shape() && |R.ReadBytes(r, a)| == r.size
  {
    hide R.Ring.Valid, R.Ring.Shape, R.ReadRec, R.PageOf, R.Ring.Intact, R.BehindHead;
    R.ValidShape(c, r);
    R.ReadRecIs(c, r, a);
    R.RecordRun(c, r, a);
  }

  /** Reading a stored record of the flash ring fails exactly on the head page, of a record with a byte
      missing; and it gives the record as appended exactly if nothing but erased bytes is missing. */
  lemma FlashReads(c: R.Crcs, r: R.Ring, a: nat)
    requires r.Valid(c) && r.Shape() && r.live != [] && r.FirstAbs() <= a < r.absOrd
    ensures var st := FlashStore(r);
      && (st.Readable(a) <==> r.Intact(a) || R.BehindHead(r, a))
      && (st.Readable(a) ==> R.ReadRec(r, a) == Some(st.Rec(a)) && (st.Sound(a) <==> r.Intact(a) || R.ReadsBack(r, a)))
  {
    hide Partition, R.Ring.Valid, R.ReadRec, R.Ring.Intact, R.BehindHead, R.ReadsBack, R.SegmentsOf, R.Ring.Shape;
    R.ValidShape(c, r);
    R.ReadRecIs(c, r, a);
    R.ReadExact(c, r, a);
    FlashRec(r, a);
  }

  /** So a ring that never met a flash error exports every record as it was appended. */
  lemma FlashSound(c: R.Crcs, r: R.Ring, a: nat)
    requires r.Valid(c) && r.Shape() && R.AllIntact(r) && r.FirstAbs() <= a < r.absOrd
    ensures FlashStore(r).Readable(a) && FlashStore(r).Sound(a)
  {
    hide R.Ring.Valid, R.Ring.Intact, R.BehindHead, R.ReadsBack, FlashStore, Store.Readable, Store.Sound;
    R.ValidShape(c, r);
    assert r.Intact(a);
    FlashReads(c, r, a);
  }

  /** After a flash error that dropped staged bytes, and a rollover, the records that had a byte only
      there are exported nonetheless, and not with their own bytes unless the last one is 0xFF. */
  lemma DroppedExported(c: R.Crcs, r: R.Ring, rec: Record, base: nat, synced: bool, h: FD.Header, a: nat)
    requires r.Valid(c) && r.live != [] && !r.headFull && r.Intact(a) && !r.Durable(a)
    requires |rec| == r.size && |r.stage| + r.size >= FD.DW_DATA && r.Head().phys < |r.pages| == |r.recs|
    requires R.OpensWith(c, R.Dropped(r), h, base, synced)
    ensures r.lastPhys < |r.pages| && R.CanOpen(R.WithNextErased(R.Dropped(r)))
    ensures var o := R.Opened(R.WithNextErased(R.Dropped(r)), h, base, synced);
      && o.Shape() && FlashStore(o).Readable(a) && |r.Rec(a)| == r.size > 0
      && (FlashStore(o).Sound(a) ==> r.Rec(a)[r.size - 1] == FD.ERASED_BYTE)
  {
    hide R.Ring.Valid, R.Ring.Intact, R.Ring.Durable, R.BehindHead, R.ReadsBack, R.ReadRec, R.Ring.Shape, R.Opened,
      R.OpensWith, R.Ring.Rec, R.SegmentsOf, R.PageOf, R.Ring.Run, FlashStore;
    R.ValidShape(c, r);
    R.OnlyStaged(c, r, a);
    R.RecordRun(c, r, a);
    R.DroppedReadsErased(c, r, rec, base, synced, h, a);
    var o := R.Opened(R.WithNextErased(R.Dropped(r)), h, base, synced);
    LastByteErased(c, r, o, a);
  }

  lemma LastByteErased(c: R.Crcs, r: R.Ring, o: R.Ring, a: nat)
    requires r.Shape() && r.FirstAbs() <= a < r.absOrd && |r.contents| == r.absOrd - r.FirstAbs() && |r.Rec(a)| == r.size
    requires o.Valid(c) && o.Shape() && o.live != [] && o.FirstAbs() <= a < o.absOrd && o.Rec(a) == r.Rec(a)
    requires var got := R.ReadRec(o, a); got.Some? && |got.value| == o.size > 0 && got.value[o.size - 1] == FD.ERASED_BYTE
    ensures FlashStore(o).Readable(a) && (FlashStore(o).Sound(a) ==> r.Rec(a)[r.size - 1] == FD.ERASED_BYTE)
  {
    hide R.Ring.Valid, R.Ring.Shape, R.ReadRec, R.SegmentsOf, R.PageOf, R.Ring.Run, R.Ring.Rec;
    R.ValidShape(c, o);
    R.RecordRun(c, o, a);
    FlashReads(c, o, a);
    FlashRec(o, a);
  }

  lemma FlashRec(r: R.Ring, a: nat)
    requires r.Shape() && |r.contents| == r.absOrd - r.FirstAbs() && r.FirstAbs() <= a < r.absOrd
    ensures FlashStore(r).Was(a) == r.Rec(a) && FlashStore(r).Rec(a) == R.ReadBytes(r, a)
  {
    hide R.Ring.Shape, R.ReadRec, R.SegmentsOf;
  }

  /** A record that stays keeps its bytes when the front is dropped and something is added behind. */
  lemma RecsStay(a: Store, b: Store, add: seq<Record>)
    requires |a.kept| == |a.recs| && a.first <= b.first <= a.Stop() && b.kept == a.kept[b.first - a.first..] + add
    ensures forall x: nat :: b.first <= x < a.Stop() ==> b.Was(x) == a.Was(x)
  {
  }

  /** What `HistoryFlash.FlashRing.Append` promises of the ring before and after it is what a replay
      needs of the store: an append may drop the oldest page and open a new one, nothing else. */
  lemma FlashAppendEvolves(c: R.Crcs, r: R.Ring, r': R.Ring, rec: Record, base: nat, synced: bool, split: bool,
      res: R.AppendResult, evicted: nat)
    requires r.Valid(c) && r'.Valid(c) && r'.size == r.size && r'.interval == r.interval && r.lastPhys < |r.pages|
    requires R.RecordAppended(r, r', rec, base, synced, split, res, evicted)
    ensures r.Shape() && r'.Shape() && Evolves(FlashStore(r), FlashStore(r'))
  {
    hide Partition, R.Ring.Valid, R.Ring.Intact, R.Ring.FirstAbs, R.OpenedLive, R.SegmentsOf, R.Ordered, SameStamp,
      R.ReadBytes, R.ReadRec, R.Ring.Shape, R.KeepsStored, R.KeepsDurable, R.Phantom;
    T.RingOrder(c, r);
    T.RingOrder(c, r');
    var a, b := FlashStore(r), FlashStore(r');
    RecsStay(a, b, if res == R.Appended then [rec] else []);
    R.SegmentsPartition(c, r);
    forall i: nat, j: nat, x: nat | InSegment(a.segs, i, x) && InSegment(b.segs, j, x)
      ensures SameStamp(a.segs[i], b.segs[j])
    {
      InPartition(a.segs, r.FirstAbs(), r.absOrd, i, x);
      T.SamePage(r, r', base, synced, i, j, x);
    }
  }

  /** The RAM ring. */
  function RamStore(segs: seq<M.Entry>, first: nat, interval: nat, size: nat, contents: seq<Record>): Store {
    Store(if contents == [] then [] else M.Table(segs, first, first + |contents|), first, interval, size, contents, {}, contents)
  }

  /** The same for `HistoryRam.RamRing.Append`. */
  lemma RamAppendEvolves(segs: seq<M.Entry>, first: nat, contents: seq<Record>, segs': seq<M.Entry>, first': nat, rec: Record,
      interval: nat, size: nat)
    requires contents != [] ==> M.TableOk(segs, first, first + |contents|)
    requires first <= first' <= first + |contents| && M.TableOk(segs', first', first + |contents| + 1)
    requires contents != [] ==> forall a :: first' <= a < first + |contents| ==> M.EntryOf(segs', a) == M.EntryOf(segs, a)
    ensures Evolves(RamStore(segs, first, interval, size, contents),
                    RamStore(segs', first', interval, size, contents[first' - first..] + [rec]))
  {
    hide M.EntryOf, M.TableOk;
    var a, b := RamStore(segs, first, interval, size, contents), RamStore(segs', first', interval, size, contents[first' - first..] + [rec]);
    RecsStay(a, b, [rec]);
    forall i: nat, j: nat, x: nat | InSegment(a.segs, i, x) && InSegment(b.segs, j, x)
      ensures SameStamp(a.segs[i], b.segs[j])
    {
      M.EntryIs(segs, first, first + |contents|, i, x);
      M.EntryIs(segs', first', first + |contents| + 1, j, x);
    }
  }
}
