/** The alarm-detail batch: edges wait in a window, held while the radio is not ready, and leave as
    numbered pages that fit the radio's payload budget. */
module AlarmBatch {
  import opened Bytes
  import opened Protobuf
  import opened Wire
  import Codec = DownlinkCodec

  const BATCH_MAX: nat := 16
  const FRAME_MAX: nat := 64
  const REPORT_EVENTS: nat := 8        // AlarmReport.events
  const QUEUE_DEPTH: nat := 4          // alarm frames the radio holds

  datatype Edge = Edge(rule: nat, slot: nat, channel: nat, edge: nat, typ: nat, sensorType: nat, value: Option<int>, relS: nat)

  /** One AlarmReport as handed to the radio. */
  datatype Report = Report(base: nat, total: nat, synced: bool, events: seq<Edge>, index: nat, count: nat)

  function EdgeLen(e: Edge): nat {
    FieldLen(1, e.slot) + FieldLen(2, e.edge) + FieldLen(4, e.relS)
    + (if e.value.Some? then PresentLen(5, ZigZag(e.value.value)) else 0)
    + FieldLen(7, e.rule) + FieldLen(9, e.typ) + FieldLen(10, e.channel)
    + (if e.slot != 0 && e.sensorType != 0 then PresentLen(11, e.sensorType) else 0)
  }

  function EventsLen(es: seq<Edge>): nat {
    if es == [] then 0 else EventsLen(es[..|es| - 1]) + LenDelim(3, EdgeLen(es[|es| - 1]))
  }

  /** The frame of a report: a version byte, then the message. */
  function FrameLen(r: Report): nat {
    1 + FieldLen(1, r.base) + FieldLen(2, r.total) + EventsLen(r.events) + PresentLen(4, 1) + PagingLen(5, 6, r.index, r.count)
  }

  // The message as it goes out, its fields in the order of their numbers.

  function EdgeEnc(e: Edge): seq<byte> {
    FieldEnc(1, e.slot) + (FieldEnc(2, e.edge) + (FieldEnc(4, e.relS)
    + ((if e.value.Some? then PresentEnc(5, ZigZag(e.value.value)) else [])
    + (FieldEnc(7, e.rule) + (FieldEnc(9, e.typ) + (FieldEnc(10, e.channel)
    + if e.slot != 0 && e.sensorType != 0 then PresentEnc(11, e.sensorType) else []))))))
  }

  function EventsEnc(es: seq<Edge>): seq<byte> {
    if es == [] then [] else EventsEnc(es[..|es| - 1]) + Codec.LenDelim(3, EdgeEnc(es[|es| - 1]))
  }

  function ReportEnc(r: Report): seq<byte> {
    [PROTO_VERSION] + (FieldEnc(1, r.base) + (FieldEnc(2, r.total) + (EventsEnc(r.events)
    + (PresentEnc(4, if r.synced then 1 else 0) + PagingEnc(5, 6, r.index, r.count)))))
  }

  lemma EdgeLength(e: Edge)
    ensures |EdgeEnc(e)| == EdgeLen(e)
  {
    hide FieldEnc, FieldLen, PresentEnc, PresentLen;
    FieldLength(1, e.slot);
    FieldLength(2, e.edge);
    FieldLength(4, e.relS);
    if e.value.Some? {
      PresentLength(5, ZigZag(e.value.value));
    }
    FieldLength(7, e.rule);
    FieldLength(9, e.typ);
    FieldLength(10, e.channel);
    PresentLength(11, e.sensorType);
  }

  lemma {:induction false} EventsLength(es: seq<Edge>)
    ensures |EventsEnc(es)| == EventsLen(es)
  {
    hide EdgeEnc, EdgeLen, LenDelim, Codec.LenDelim;
    if es != [] {
      EventsLength(es[..|es| - 1]);
      EdgeLength(es[|es| - 1]);
      LenDelimLength(3, EdgeEnc(es[|es| - 1]));
    }
  }

  /** The size a report is laid out by is that of the bytes handed to the radio. */
  lemma ReportLength(r: Report)
    ensures |ReportEnc(r)| == FrameLen(r)
  {
    hide FieldEnc, FieldLen, EventsEnc, EventsLen, PagingEnc, PagingLen, PresentEnc, TagLen;
    FieldLength(1, r.base);
    FieldLength(2, r.total);
    EventsLength(r.events);
    PresentLength(4, if r.synced then 1 else 0);
    PagingLength(5, 6, r.index, r.count);
  }

  /** `app_cmd_build_alarm_report` succeeds. */
  predicate Builds(r: Report, cap: nat) {
    |r.events| <= REPORT_EVENTS && FrameLen(r) <= cap
  }

  /** What a layout pass knows: base time, total of the window, and the payload budget. */
  datatype Budget = Budget(base: nat, total: nat, synced: bool, cap: nat)

  /** Events [at, at + n) fit one page laid out with the page number bound. */
  predicate Fits(b: Budget, es: seq<Edge>, at: nat, n: nat) {
    at + n <= |es| && Builds(Report(b.base, b.total, b.synced, es[at..at + n], PAGE_BOUND, PAGE_BOUND), b.cap)
  }

  /** What fits as laid out fits with its real numbers. */
  lemma FitsReal(b: Budget, es: seq<Edge>, at: nat, n: nat, r: Report)
    requires Fits(b, es, at, n) && r.total <= b.total && r.index < r.count <= QUEUE_DEPTH
    requires r.base == b.base && r.synced == b.synced && r.events == es[at..at + n]
    ensures Builds(r, b.cap) && |ReportEnc(r)| <= b.cap
  {
    hide EventsLen, FieldLen, PagingLen, ReportEnc;
    ReportLength(r);
    FieldMonotone(2, r.total, b.total);
    PagingBound(5, 6, r.index, r.count);
  }

  /** Where page `k` starts. */
  function At(ns: seq<nat>, k: nat): nat
    requires k <= |ns|
  {
    if k == 0 then 0 else At(ns, k - 1) + ns[k - 1]
  }

  lemma {:induction false} AtPrefix(ns: seq<nat>, n: nat, k: nat)
    requires k <= |ns|
    ensures At(ns + [n], k) == At(ns, k)
  {
    if k > 0 {
      AtPrefix(ns, n, k - 1);
    }
  }

  lemma {:induction false} AtRises(ns: seq<nat>, j: nat, k: nat)
    requires j <= k <= |ns|
    ensures At(ns, j) <= At(ns, k)
  {
    if j < k {
      AtRises(ns, j, k - 1);
    }
  }

  /** Page `k` is the longest run of events from its start that fits. */
  ghost predicate Greedy(b: Budget, es: seq<Edge>, ns: seq<nat>, k: nat) {
    && k < |ns| && ns[k] > 0 && Fits(b, es, At(ns, k), ns[k])
    && forall m :: m > ns[k] ==> !Fits(b, es, At(ns, k), m)
  }

  lemma GreedyAppend(b: Budget, es: seq<Edge>, ns: seq<nat>, n: nat)
    requires forall k :: 0 <= k < |ns| ==> Greedy(b, es, ns, k)
    requires n > 0 && Fits(b, es, At(ns, |ns|), n) && forall m :: m > n ==> !Fits(b, es, At(ns, |ns|), m)
    ensures forall k :: 0 <= k <= |ns| ==> Greedy(b, es, ns + [n], k)
    ensures At(ns + [n], |ns| + 1) == At(ns, |ns|) + n
  {
    hide Fits;
    forall k | 0 <= k <= |ns|
      ensures Greedy(b, es, ns + [n], k)
    {
      AtPrefix(ns, n, k);
      if k < |ns| {
        assert Greedy(b, es, ns, k);
      }
    }
    AtPrefix(ns, n, |ns|);
  }

  /** The longest run of at most `n` events from `at` that fits a page; 0 if not even one event does. */
  function Longest(b: Budget, es: seq<Edge>, at: nat, n: nat): (r: nat)
    ensures r <= n && (r > 0 ==> Fits(b, es, at, r))
    ensures forall m :: r < m <= n ==> !Fits(b, es, at, m)
  {
    if n == 0 || Fits(b, es, at, n) then n else Longest(b, es, at, n - 1)
  }

  /** The longest run from `at` that fits a page. */
  function Best(b: Budget, es: seq<Edge>, at: nat): (r: nat)
    requires at <= |es|
    ensures at + r <= |es| && (r > 0 ==> Fits(b, es, at, r))
    ensures forall m :: m > r ==> !Fits(b, es, at, m)
  {
    Longest(b, es, at, |es| - at)
  }

  /** The greedy layout from event `at` on: the sizes of at most `depth` pages. */
  function Laid(b: Budget, es: seq<Edge>, at: nat, depth: nat): seq<nat>
    decreases depth
  {
    if at >= |es| || depth == 0 then []
    else
      var n := Best(b, es, at);
      if n == 0 then [] else [n] + Laid(b, es, at + n, depth - 1)
  }

  lemma LaidNext(b: Budget, es: seq<Edge>, at: nat, depth: nat)
    requires at <= |es|
    ensures Laid(b, es, at, depth) ==
              if depth > 0 && Best(b, es, at) > 0 then [Best(b, es, at)] + Laid(b, es, at + Best(b, es, at), depth - 1) else []
  {
    hide Longest, Fits;
  }

  lemma Joins(a: seq<nat>, n: nat, c: seq<nat>)
    ensures a + ([n] + c) == (a + [n]) + c && a + [] == a
  {
  }

  /** The layout of a report: at most a whole radio queue. */
  function Layout(b: Budget, es: seq<Edge>): seq<nat> { Laid(b, es, 0, QUEUE_DEPTH) }

  lemma {:induction false} LaidGreedy(b: Budget, es: seq<Edge>, front: seq<nat>, depth: nat)
    requires At(front, |front|) <= |es| && forall k :: 0 <= k < |front| ==> Greedy(b, es, front, k)
    ensures var ns := front + Laid(b, es, At(front, |front|), depth);
      && |front| <= |ns| <= |front| + depth && At(ns, |ns|) <= |es|
      && (forall k :: 0 <= k < |ns| ==> Greedy(b, es, ns, k))
      && (At(ns, |ns|) < |es| && |ns| < |front| + depth ==> forall n :: n > 0 ==> !Fits(b, es, At(ns, |ns|), n))
    decreases depth
  {
    hide Greedy, Fits, Laid, Longest, Best, At;
    var at := At(front, |front|);
    var n := Best(b, es, at);
    LaidNext(b, es, at, depth);
    Joins(front, n, Laid(b, es, at + n, if depth > 0 then depth - 1 else 0));
    if depth > 0 && n > 0 {
      GreedyAppend(b, es, front, n);
      LaidGreedy(b, es, front + [n], depth - 1);
    }
  }

  /** Every page of the layout is the longest run of events that fits, and the layout ends before the last
      event only if it has as many pages as the radio's queue, or the next event fits no page; in
      particular, if the first event fits a page of its own there is a page. */
  lemma LayoutGreedy(b: Budget, es: seq<Edge>)
    ensures var ns := Layout(b, es);
      && |ns| <= QUEUE_DEPTH && At(ns, |ns|) <= |es|
      && (forall k :: 0 <= k < |ns| ==> Greedy(b, es, ns, k))
      && (At(ns, |ns|) < |es| && |ns| < QUEUE_DEPTH ==> forall n :: n > 0 ==> !Fits(b, es, At(ns, |ns|), n))
      && (es != [] && Fits(b, es, 0, 1) ==> ns != [])
  {
    hide Greedy, Fits;
    LaidGreedy(b, es, [], QUEUE_DEPTH);
    assert [] + Layout(b, es) == Layout(b, es);
  }

  /** Pass 1: page sizes, and whether it stopped at an event that fits no page. */
  method LayOut(b: Budget, es: seq<Edge>) returns (ns: seq<nat>, skipped: bool)
    ensures ns == Layout(b, es)
    ensures skipped <==> At(ns, |ns|) < |es| && |ns| < QUEUE_DEPTH
  {
    hide Fits, Laid, Longest;
    ns, skipped := [], false;
    var laid := 0;
    while laid < |es| && |ns| < QUEUE_DEPTH
      invariant laid == At(ns, |ns|) <= |es| && |ns| <= QUEUE_DEPTH
      invariant Layout(b, es) == ns + Laid(b, es, laid, QUEUE_DEPTH - |ns|)
      decreases QUEUE_DEPTH - |ns|
    {
      var n := |es| - laid;
      while n > 0 && !Fits(b, es, laid, n)
        invariant 0 <= n <= |es| - laid
        invariant Longest(b, es, laid, n) == Best(b, es, laid)
      {
        LongestLess(b, es, laid, n);
        n := n - 1;
      }
      LongestLess(b, es, laid, n);
      LaidNext(b, es, laid, QUEUE_DEPTH - |ns|);
      if n == 0 {
        return ns, true;
      }
      AtPrefix(ns, n, |ns|);
      Joins(ns, n, Laid(b, es, laid + n, QUEUE_DEPTH - |ns| - 1));
      ns := ns + [n];
      laid := laid + n;
    }
    LaidNext(b, es, laid, QUEUE_DEPTH - |ns|);
  }

  lemma LongestLess(b: Budget, es: seq<Edge>, at: nat, n: nat)
    ensures Longest(b, es, at, n) == if n > 0 && !Fits(b, es, at, n) then Longest(b, es, at, n - 1) else n
  {
  }

  // ---- Flushing, by values -------------------------------------------------------------------------

  /** The batch and its window, and the pages handed to the radio. */
  datatype State = State(batch: seq<Edge>, windowTotal: nat, baseUnix: nat, baseSynced: bool, windowStart: nat,
    windowOpen: bool, held: bool, radio: seq<Report>)
  {
    /** The base time is that of the window's start: unix time if it says so, else uptime. `offset` is
        unix time minus uptime. */
    predicate Anchored(offset: nat) {
      batch != [] ==> baseUnix == (windowStart / 1000 + if baseSynced then offset else 0) % TWO_32
    }

    predicate Ok() { |batch| <= windowTotal && baseUnix < TWO_32 }
  }

  datatype Flushed = Empty | RadioHolds | NoRoom | Done

  /** The radio: how long it wants data held (negative: link down), its payload budget (0: unknown), and
      its free alarm slots. */
  datatype Radio = Radio(holdMs: int, dr: nat, room: nat)

  /** An uptime base moved to unix time, in 32-bit arithmetic. */
  function Shifted(base: nat, unix: nat, uptime: nat): nat {
    (base + unix + TWO_32 - uptime % TWO_32) % TWO_32
  }

  function CapOf(dr: nat): nat { if 0 < dr < FRAME_MAX then dr else FRAME_MAX }

  /** What a report is laid out with, the base time moved once the clock is known. */
  function BudgetOf(s: State, dr: nat, clock: Option<nat>, uptime: nat): Budget {
    Budget(if !s.baseSynced && clock.Some? then Shifted(s.baseUnix, clock.value, uptime) else s.baseUnix,
           s.windowTotal, s.baseSynced || clock.Some?, CapOf(dr))
  }

  /** Page `p` of a report. */
  function PageOf(b: Budget, es: seq<Edge>, ns: seq<nat>, total: nat, p: nat): Report
    requires p < |ns| && At(ns, p) + ns[p] <= |es|
  {
    Report(b.base, total, b.synced, es[At(ns, p)..At(ns, p) + ns[p]], p, |ns|)
  }

  lemma {:induction false} PageInside(es: seq<Edge>, ns: seq<nat>, p: nat)
    requires p < |ns| && At(ns, |ns|) <= |es|
    ensures At(ns, p) + ns[p] <= |es|
  {
    assert At(ns, p + 1) == At(ns, p) + ns[p];
    hide At;
    AtRises(ns, p + 1, |ns|);
  }

  /** The first `n` pages. */
  function Reports(b: Budget, es: seq<Edge>, ns: seq<nat>, total: nat, n: nat): (r: seq<Report>)
    requires n <= |ns| && At(ns, |ns|) <= |es|
    ensures |r| == n
  {
    if n == 0 then [] else PageInside(es, ns, n - 1); Reports(b, es, ns, total, n - 1) + [PageOf(b, es, ns, total, n - 1)]
  }

  /** The events that stay for the next report: none if the layout stopped at one that fits no page. */
  function Rest(b: Budget, es: seq<Edge>): (r: seq<Edge>)
    ensures |r| <= |es|
  {
    var ns := Layout(b, es);
    LayoutGreedy(b, es);
    if |ns| < QUEUE_DEPTH then [] else es[At(ns, |ns|)..]
  }

  /** The pages of the report, its total being the window's less what stays. */
  function Pages(s: State, b: Budget): seq<Report>
    requires s.Ok()
  {
    var ns := Layout(b, s.batch);
    LayoutGreedy(b, s.batch);
    Reports(b, s.batch, ns, s.windowTotal - |Rest(b, s.batch)|, |ns|)
  }

  /** The radio's queue has room for some pages, but not for all of them. */
  predicate Crowded(b: Budget, es: seq<Edge>, room: nat) { |Layout(b, es)| > room && room < QUEUE_DEPTH }

  /** The part of `alarm_batch_flush` after the budget and the base time are known. */
  function Sending(s: State, b: Budget, room: nat): (State, Flushed)
    requires s.Ok()
  {
    if Crowded(b, s.batch, room) then (s.(held := true, windowOpen := true), NoRoom)
    else
      var rest := Rest(b, s.batch);
      (s.(batch := rest, windowTotal := |rest|, radio := s.radio + Pages(s, b), held := s.held || rest != [], windowOpen := rest != [],
          baseSynced := if rest != [] then b.synced else s.baseSynced), Done)
  }

  /** `alarm_batch_flush`. */
  function Flushing(s: State, radio: Radio, clock: Option<nat>, uptime: nat): (State, Flushed)
    requires s.Ok()
  {
    if s.batch == [] then (s.(windowOpen := false, windowTotal := 0), Empty)
    else if radio.holdMs != 0 then (s.(held := true, windowOpen := true), RadioHolds)
    else
      var b := BudgetOf(s, radio.dr, clock, uptime);
      Sending(s.(held := false, baseUnix := b.base), b, radio.room)
  }

  /** When a flush sends, and that one that does not keeps every event and count. */
  lemma FlushSends(s: State, radio: Radio, clock: Option<nat>, uptime: nat)
    requires s.Ok()
    ensures var b := BudgetOf(s, radio.dr, clock, uptime); var (s', res) := Flushing(s, radio, clock, uptime);
      && (res == NoRoom <==> s.batch != [] && radio.holdMs == 0 && radio.room < QUEUE_DEPTH && |Layout(b, s.batch)| > radio.room)
      && (res == RadioHolds <==> s.batch != [] && radio.holdMs != 0)
      && (res == NoRoom || res == RadioHolds ==>
            s'.batch == s.batch && s'.windowTotal == s.windowTotal && s'.radio == s.radio && s'.held && s'.windowOpen)
  {
    hide Layout, Pages;
  }

  /** The edge with its time offset in the window, in seconds. */
  function Stamped(ev: Edge, ms: nat): Edge {
    ev.(relS := if ms / 1000 < 0xFFFF then ms / 1000 else 0xFFFF)
  }

  function Since(start: nat, now: nat): nat { if start <= now then now - start else 0 }

  /** A window starts now, with an empty batch. */
  function Opened(s: State, now: nat, clock: Option<nat>): State {
    s.(windowStart := now, baseUnix := (if clock.Some? then clock.value % TWO_32 else now / 1000 % TWO_32), baseSynced := clock.Some?,
       windowTotal := 0)
  }

  /** One more event, kept if there is room. */
  function Taken(s: State, ev: Edge, now: nat): State
    requires s.windowStart <= now
  {
    s.(windowTotal := s.windowTotal + 1, batch := if |s.batch| < BATCH_MAX then s.batch + [Stamped(ev, Since(s.windowStart, now))] else s.batch)
  }

  /** The batch an edge joins. */
  function Joined(s: State, ev: Edge, limit: int, now: nat, clock: Option<nat>): State
    requires s.windowStart <= now
  {
    if limit <= 0 then Taken(if s.batch == [] then Opened(s, now, clock) else s, ev, now)
    else Taken(if !s.windowOpen then Opened(s, now, clock).(windowOpen := true, batch := []) else s, ev, now)
  }

  /** `alarm_queue`. */
  function Queueing(s: State, ev: Edge, limit: int, now: nat, clock: Option<nat>, radio: Radio): State
    requires s.Ok() && s.windowStart <= now
  {
    var j := Joined(s, ev, limit, now, clock);
    if limit <= 0 then Flushing(j, radio, clock, now / 1000).0 else j
  }

  // ---- What that means -----------------------------------------------------------------------------

  lemma {:induction false} ReportsAre(b: Budget, es: seq<Edge>, ns: seq<nat>, total: nat, n: nat, k: nat)
    requires k < n <= |ns| && At(ns, |ns|) <= |es|
    ensures At(ns, k) + ns[k] <= |es| && Reports(b, es, ns, total, n)[k] == PageOf(b, es, ns, total, k)
  {
    PageInside(es, ns, k);
    if k < n - 1 {
      ReportsAre(b, es, ns, total, n - 1, k);
    }
  }

  /** Page `k` of what a flush sends holds exactly the `k`-th greedy run of the batch, is numbered so, and
      fits the budget with its real numbers. */
  lemma PagesAre(s: State, b: Budget, k: nat)
    requires s.Ok() && b.total == s.windowTotal && k < |Layout(b, s.batch)|
    ensures var ns := Layout(b, s.batch); var page := Pages(s, b)[k];
      && At(ns, k) + ns[k] <= |s.batch| && Greedy(b, s.batch, ns, k) && page.events == s.batch[At(ns, k)..At(ns, k) + ns[k]]
      && page.index == k && page.count == |ns| == |Pages(s, b)| && page.base == b.base && page.synced == b.synced
      && page.total == s.windowTotal - |Rest(b, s.batch)| && |ReportEnc(page)| <= b.cap && Builds(page, b.cap) && page.events != []
  {
    hide Fits, Builds, Layout, At, Rest, Reports, ReportEnc;
    var ns := Layout(b, s.batch);
    LayoutGreedy(b, s.batch);
    var total := s.windowTotal - |Rest(b, s.batch)|;
    ReportsAre(b, s.batch, ns, total, |ns|, k);
    assert Greedy(b, s.batch, ns, k);
    FitsReal(b, s.batch, At(ns, k), ns[k], PageOf(b, s.batch, ns, total, k));
  }

  /** A flush that sends skips events only behind its pages, and only if the first of them fits no page of
      its own; it sends nothing only if not even the first event of the batch does. */
  lemma SkipsOnlyUnfit(s: State, b: Budget, room: nat)
    requires s.Ok() && s.batch != [] && Sending(s, b, room).1 == Done
    ensures var ns := Layout(b, s.batch); var rest := Sending(s, b, room).0.batch;
      && At(ns, |ns|) + |rest| <= |s.batch| && rest == s.batch[|s.batch| - |rest|..]
      && (At(ns, |ns|) + |rest| < |s.batch| ==> !Fits(b, s.batch, At(ns, |ns|), 1))
      && (Pages(s, b) == [] ==> !Fits(b, s.batch, 0, 1))
  {
    hide Fits, Layout;
    LayoutGreedy(b, s.batch);
  }

  lemma ReanchorIs(start: nat, unix: nat, uptime: nat, offset: nat)
    requires unix == (uptime + offset) % TWO_32
    ensures Shifted(start % TWO_32, unix, uptime) == (start + offset) % TWO_32
  {
  }

  /** Adding the offset a second time is seen unless it is a multiple of 2^32. */
  lemma AddedTwice(start: nat, offset: nat)
    ensures (start + offset) % TWO_32 == start % TWO_32 <==> offset % TWO_32 == 0
  {
  }

  /** The clock of a batch: unix time runs `offset` ahead of uptime. */
  predicate Tells(clock: Option<nat>, uptime: nat, offset: nat) { clock.Some? ==> clock.value == (uptime + offset) % TWO_32 }

  /** Every page that goes out has the window's start for its base time; and the batch keeps it if and only
      if this is not a flush that moves the base time and then finds the radio's queue too full. */
  lemma FlushAnchored(s: State, radio: Radio, clock: Option<nat>, uptime: nat, offset: nat)
    requires s.Ok() && s.batch != [] && s.Anchored(offset) && Tells(clock, uptime, offset)
    ensures var b := BudgetOf(s, radio.dr, clock, uptime); var s' := Flushing(s, radio, clock, uptime).0;
      && b.base == (s.windowStart / 1000 + if b.synced then offset else 0) % TWO_32
      && (s'.Anchored(offset) <==>
            !(radio.holdMs == 0 && clock.Some? && !s.baseSynced && Crowded(b, s.batch, radio.room) && offset % TWO_32 != 0))
  {
    hide Layout, Rest, Pages;
    if clock.Some? {
      ReanchorIs(s.windowStart / 1000, clock.value, uptime, offset);
    }
    AddedTwice(s.windowStart / 1000, offset);
  }

  /** An edge joins a batch with the right base time. */
  lemma JoinAnchored(s: State, ev: Edge, limit: int, now: nat, clock: Option<nat>, offset: nat)
    requires s.windowStart <= now && s.Anchored(offset) && Tells(clock, now / 1000, offset) && (s.batch != [] <==> s.windowOpen)
    requires |s.batch| <= BATCH_MAX
    ensures var j := Joined(s, ev, limit, now, clock); j.Anchored(offset) && j.batch != []
  {
  }

  /** An edge that joins keeps its contents, and its offset is its distance from the window's start, in whole
      seconds: a report's base time plus the offset is the edge's own time, at most one second early, as long
      as the offset has room in 16 bits. */
  lemma EdgeTimed(s: State, ev: Edge, now: nat)
    requires s.windowStart <= now && |s.batch| < BATCH_MAX
    ensures var b := Taken(s, ev, now).batch; var e := b[|b| - 1];
      && |b| == |s.batch| + 1 && b[..|s.batch|] == s.batch && e.(relS := ev.relS) == ev
      && if now - s.windowStart < 0xFFFF * 1000 then s.windowStart / 1000 + e.relS <= now / 1000 <= s.windowStart / 1000 + e.relS + 1
         else e.relS == 0xFFFF
  {
  }

  // ---- The batch -----------------------------------------------------------------------------------

  /** How events left the batch: on a page, or not at all because one did not fit the budget. */
  datatype Departure = Page(report: Report) | Skipped(events: seq<Edge>)
  {
    function Events(): seq<Edge> { if Page? then report.events else events }
  }

  function Gone(ds: seq<Departure>): seq<Edge> {
    if ds == [] then [] else Gone(ds[..|ds| - 1]) + ds[|ds| - 1].Events()
  }

  function Sent(ds: seq<Departure>): seq<Report> {
    if ds == [] then []
    else Sent(ds[..|ds| - 1]) + if ds[|ds| - 1].Page? then [ds[|ds| - 1].report] else []
  }

  lemma Departs(ds: seq<Departure>, d: Departure)
    ensures Gone(ds + [d]) == Gone(ds) + d.Events()
    ensures Sent(ds + [d]) == Sent(ds) + if d.Page? then [d.report] else []
  {
    assert (ds + [d])[..|ds|] == ds;
  }

  /** A page of the next `n` events of the batch goes. */
  lemma PageLeaves(ds: seq<Departure>, r: Report, gone: seq<Edge>, batch: seq<Edge>, first: nat, n: nat)
    requires first + n <= |batch| && r.events == batch[first..first + n] && Gone(ds) == gone + batch[..first]
    ensures Gone(ds + [Page(r)]) == gone + batch[..first + n]
    ensures Sent(ds + [Page(r)]) == Sent(ds) + [r]
  {
    hide Gone, Sent;
    Departs(ds, Page(r));
    assert batch[..first] + r.events == batch[..first + n];
  }

  function PagesGone(rs: seq<Report>): seq<Departure> {
    if rs == [] then [] else PagesGone(rs[..|rs| - 1]) + [Page(rs[|rs| - 1])]
  }

  lemma PagesGoneMore(rs: seq<Report>, r: Report)
    ensures PagesGone(rs + [r]) == PagesGone(rs) + [Page(r)]
  {
    assert (rs + [r])[..|rs|] == rs;
  }

  /** What leaves with a flush: its pages, then what is skipped. */
  function Leaving(s: State, b: Budget): seq<Departure>
    requires s.Ok()
  {
    var ns := Layout(b, s.batch);
    LayoutGreedy(b, s.batch);
    var skipped := s.batch[At(ns, |ns|)..|s.batch|];
    PagesGone(Pages(s, b)) + if |ns| < QUEUE_DEPTH && skipped != [] then [Skipped(skipped)] else []
  }

  class Batch {
    var batch: seq<Edge>
    var windowTotal: nat
    var baseUnix: nat
    var baseSynced: bool               // baseUnix is unix time, not uptime
    var windowStart: nat               // ms
    var windowOpen: bool
    var held: bool
    var radio: seq<Report>             // the pages handed to the radio

    ghost var accepted: seq<Edge>      // events that entered the batch, in order
    ghost var departed: seq<Departure>
    ghost var given: nat               // events given to the batch
    ghost var dropped: nat             // of those, the ones that found it full
    ghost var reported: nat            // sum of the totals of the reports sent
    ghost var unreported: nat          // events of windows that sent no page

    ghost function View(): State
      reads this
    {
      State(batch, windowTotal, baseUnix, baseSynced, windowStart, windowOpen, held, radio)
    }

    constructor ()
      ensures Valid() && given == 0 && View() == State([], 0, 0, false, 0, false, false, [])
    {
      batch, windowTotal, baseUnix, baseSynced, windowStart, windowOpen, held := [], 0, 0, false, 0, false, false;
      radio := [];
      accepted, departed, given, dropped, reported, unreported := [], [], 0, 0, 0, 0;
    }

    /** Every event given is, in order, on a page, skipped, in the batch, or was dropped; every event is
        in the total of one report, in the pending total, or in a window that sent no page. */
    ghost predicate Accounts()
      reads `batch, `windowTotal, `baseUnix, `radio, `accepted, `departed, `given, `dropped, `reported, `unreported
    {
      && |batch| <= windowTotal && baseUnix < TWO_32 && |batch| <= BATCH_MAX && (batch == [] ==> windowTotal == 0)
      && accepted == Gone(departed) + batch
      && radio == Sent(departed)
      && given == |accepted| + dropped
      && given == reported + unreported + windowTotal
    }

    /** Between calls a window is open exactly while a batch waits. */
    ghost predicate Valid()
      reads this
    {
      Accounts() && (batch != [] <==> windowOpen)
    }

    /** Pass 2: send the pages, numbered, with the report's total. */
    method SendPages(b: Budget, ns: seq<nat>, total: nat)
      requires |ns| <= QUEUE_DEPTH && At(ns, |ns|) <= |batch|
      requires radio == Sent(departed)
      modifies `radio, `departed
      ensures radio == old(radio) + Reports(b, batch, ns, total, |ns|)
      ensures departed == old(departed) + PagesGone(Reports(b, batch, ns, total, |ns|))
      ensures radio == Sent(departed) && Gone(departed) == old(Gone(departed)) + batch[..At(ns, |ns|)]
    {
      hide Gone, Sent, PagesGone;
      ghost var was, left, gone := radio, departed, Gone(departed);
      var p, first := 0, 0;
      assert gone + batch[..0] == gone;
      assert PagesGone([]) == [] by { NoneGone(); }
      while p < |ns|
        invariant 0 <= p <= |ns| && first == At(ns, p) <= |batch|
        invariant radio == was + Reports(b, batch, ns, total, p)
        invariant departed == left + PagesGone(Reports(b, batch, ns, total, p))
        invariant radio == Sent(departed) && Gone(departed) == gone + batch[..first]
        modifies `radio, `departed
      {
        PageInside(batch, ns, p);
        var r := Report(b.base, total, b.synced, batch[first..first + ns[p]], p, |ns|);
        PageLeaves(departed, r, gone, batch, first, ns[p]);
        PagesGoneMore(Reports(b, batch, ns, total, p), r);
        radio := radio + [r];
        departed := departed + [Page(r)];
        first := first + ns[p];
        p := p + 1;
      }
    }

    /** `alarm_batch_flush`. What is sent, kept or skipped is that of `Flushing`; nothing else leaves. */
    method Flush(r: Radio, clock: Option<nat>, uptime: nat) returns (res: Flushed)
      requires Accounts()
      modifies this
      ensures Valid() && given == old(given) && dropped == old(dropped) && accepted == old(accepted)
      ensures (View(), res) == Flushing(old(View()), r, clock, uptime) && windowStart == old(windowStart)
      ensures var s := old(View()); var b := BudgetOf(s, r.dr, clock, uptime);
        departed == old(departed) + if res == Done then Leaving(s, b) else []
      ensures reported == old(reported) + if |radio| > |old(radio)| then radio[|old(radio)|].total else 0
    {
      hide Batch.Accounts, Sending, Leaving;
      AccountsOk();
      if batch == [] {
        CloseWindow();
        return Empty;
      }
      if r.holdMs != 0 {
        Hold(true);
        return RadioHolds;
      }
      Hold(false);
      ghost var s := old(View());
      var synced := Reanchor(clock, uptime);
      var b := Budget(baseUnix, windowTotal, synced, CapOf(r.dr));
      res := FlushPages(b, r.room);
      LeavingSame(s, s.(held := false, baseUnix := b.base), b);
    }

    lemma AccountsOk()
      requires Accounts()
      ensures View().Ok()
    {
    }

    /** Keep the batch and its window, waiting for the radio or not. */
    method Hold(wait: bool)
      requires Accounts()
      modifies `held, `windowOpen
      ensures Accounts() && View() == old(View()).(held := wait, windowOpen := wait || old(windowOpen))
    {
      hide Gone, Sent;
      held := wait;
      if wait {
        windowOpen := true;
      }
    }

    method CloseWindow()
      requires Accounts() && batch == []
      modifies `windowOpen, `windowTotal
      ensures Valid() && View() == old(View()).(windowOpen := false, windowTotal := 0)
    {
      hide Gone, Sent;
      windowOpen := false;
      windowTotal := 0;
    }

    /** A window that opened before the clock was known gets its unix base time. */
    method Reanchor(clock: Option<nat>, uptime: nat) returns (synced: bool)
      requires Accounts()
      modifies `baseUnix
      ensures Accounts() && synced == (baseSynced || clock.Some?)
      ensures View() == old(View()).(baseUnix := BudgetOf(old(View()), 0, clock, uptime).base)
    {
      hide Gone, Sent;
      synced := baseSynced;
      if !synced && clock.Some? {
        baseUnix := Shifted(baseUnix, clock.value, uptime);
        synced := true;
      }
    }

    /** The part of `alarm_batch_flush` after the budget and the base time are known. */
    method FlushPages(b: Budget, room: nat) returns (res: Flushed)
      requires Accounts() && batch != []
      modifies `radio, `batch, `windowTotal, `baseSynced, `windowOpen, `held, `departed, `reported, `unreported
      ensures Valid()
      ensures (View(), res) == Sending(old(View()), b, room)
      ensures departed == old(departed) + if res == Done then Leaving(old(View()), b) else []
      ensures reported == old(reported) + if |radio| > |old(radio)| then radio[|old(radio)|].total else 0
    {
      hide Batch.Accounts, PagesGone, Layout, Reports, Sending, Leaving;
      AccountsOk();
      ghost var s := View();
      var ns, skipped := LayOut(b, batch);
      LayoutGreedy(b, batch);
      assert departed + [] == departed;
      SendingIs(s, b, room, if skipped then 0 else |batch| - At(ns, |ns|));
      if |ns| > room && room < QUEUE_DEPTH {
        Hold(true);
        return NoRoom;
      }
      var left := if skipped then 0 else |batch| - At(ns, |ns|);
      SendReport(b, ns, left);
      KeepTail(left, b.synced);
      res := Done;
    }

    /** Whether events are left decides whether the window stays open. */
    method KeepTail(left: nat, synced: bool)
      modifies `baseSynced, `held, `windowOpen
      ensures windowOpen == (left > 0) && held == (left > 0 || old(held)) && baseSynced == if left > 0 then synced else old(baseSynced)
    {
      if left > 0 {
        baseSynced := synced;
        held, windowOpen := true, true;
      } else {
        windowOpen := false;
      }
    }

    /** Send the pages laid out, and settle what is behind them; the last `left` events stay. */
    method SendReport(b: Budget, ns: seq<nat>, left: nat)
      requires Accounts() && |ns| <= QUEUE_DEPTH && At(ns, |ns|) + left <= |batch| && (left > 0 ==> At(ns, |ns|) + left == |batch|)
      modifies `radio, `batch, `windowTotal, `departed, `reported, `unreported
      ensures Accounts() && batch == old(batch)[|old(batch)| - left..] && windowTotal == left
      ensures var pages := Reports(b, old(batch), ns, old(windowTotal) - left, |ns|); var skipped := old(batch)[At(ns, |ns|)..|old(batch)| - left];
        && radio == old(radio) + pages && departed == old(departed) + PagesGone(pages) + if skipped != [] then [Skipped(skipped)] else []
      ensures reported == old(reported) + if |radio| > |old(radio)| then radio[|old(radio)|].total else 0
    {
      hide Gone, Sent, PagesGone, Reports;
      var total := windowTotal - left;
      if ns != [] {
        ReportsAre(b, batch, ns, total, |ns|, 0);
      }
      SendPages(b, ns, total);
      Settle(At(ns, |ns|), left, total, |ns| > 0);
    }

    /** After the pages of a report with this total are out: keep the last `left` events, and drop those
        between them and the pages. */
    method Settle(laid: nat, left: nat, total: nat, sent: bool)
      requires laid + left <= |batch| && (left > 0 ==> laid + left == |batch|) && total + left == windowTotal && |batch| <= BATCH_MAX
      requires accepted == Gone(departed) + batch[laid..] && radio == Sent(departed)
      modifies `batch, `windowTotal, `departed, `reported, `unreported
      ensures var skipped := old(batch)[laid..|old(batch)| - left];
        departed == old(departed) + if skipped != [] then [Skipped(skipped)] else []
      ensures batch == old(batch)[|old(batch)| - left..] && windowTotal == left && |batch| == left <= BATCH_MAX
      ensures accepted == Gone(departed) + batch && radio == Sent(departed)
      ensures reported == old(reported) + (if sent then total else 0) && reported + unreported == old(reported + unreported) + total
    {
      hide Gone, Sent;
      ghost var skipped := batch[laid..|batch| - left];
      Departs(departed, Skipped(skipped));
      assert batch[laid..] == skipped + batch[|batch| - left..];
      if skipped != [] {
        departed := departed + [Skipped(skipped)];
      } else {
        assert departed + [] == departed;
      }
      batch := batch[|batch| - left..];
      windowTotal := left;
      if sent {
        reported := reported + total;
      } else {
        unreported := unreported + total;
      }
    }

    /** A window starts now, with an empty batch. */
    method OpenWindow(open: bool, now: nat, clock: Option<nat>)
      requires Accounts() && batch == [] && (clock.Some? ==> clock.value < TWO_32)
      modifies `windowStart, `baseUnix, `baseSynced, `windowTotal, `windowOpen
      ensures Accounts() && View() == Opened(old(View()), now, clock).(windowOpen := open || old(windowOpen))
    {
      hide Gone, Sent;
      windowStart := now;
      baseSynced := clock.Some?;
      baseUnix := if clock.Some? then clock.value else now / 1000 % TWO_32;
      windowTotal := 0;
      windowOpen := open || windowOpen;
    }

    /** Count an edge, and keep it if there is room, stamped with its time in the window. */
    method Take(ev: Edge, now: nat)
      requires Accounts() && windowTotal < 0xFFFF && windowStart <= now
      modifies `batch, `windowTotal, `accepted, `given, `dropped
      ensures Accounts() && View() == Taken(old(View()), ev, now) && given == old(given) + 1
      ensures if |old(batch)| == BATCH_MAX then accepted == old(accepted) && dropped == old(dropped) + 1
              else accepted == old(accepted) + [Stamped(ev, Since(windowStart, now))] && dropped == old(dropped)
    {
      hide Gone, Sent;
      windowTotal := windowTotal + 1;
      given := given + 1;
      if |batch| < BATCH_MAX {
        var e := Stamped(ev, Since(windowStart, now));
        batch := batch + [e];
        accepted := accepted + [e];
      } else {
        dropped := dropped + 1;
      }
    }

    /** `alarm_queue`: take one edge into the window; without a rate limit (`limit` <= 0) try to send at
        once. An edge that finds the batch full is only counted. */
    method Queue(ev: Edge, limit: int, now: nat, clock: Option<nat>, r: Radio)
      requires Valid() && windowTotal < 0xFFFF && windowStart <= now && (clock.Some? ==> clock.value < TWO_32)
      modifies this
      ensures Valid() && given == old(given) + 1 && View() == Queueing(old(View()), ev, limit, now, clock, r)
      ensures dropped == old(dropped) + if |old(batch)| == BATCH_MAX then 1 else 0
      ensures accepted == if |old(batch)| == BATCH_MAX then old(accepted) else old(accepted) + [Stamped(ev, Since(windowStart, now))]
    {
      hide Batch.Accounts, Flushing;
      AccountsOk();
      if limit <= 0 {
        if batch == [] {
          OpenWindow(false, now, clock);
        }
        Take(ev, now);
        var res := Flush(r, clock, now / 1000);
        return;
      }
      if !windowOpen {
        OpenWindow(true, now, clock);
      }
      Take(ev, now);
    }
  }

  /** The base time and what waits do not depend on whether the batch was held. */
  lemma LeavingSame(s: State, s': State, b: Budget)
    requires s.Ok() && s'.Ok() && s'.batch == s.batch && s'.windowTotal == s.windowTotal
    ensures Leaving(s', b) == Leaving(s, b)
  {
    hide Layout, Reports, PagesGone, Rest;
  }

  /** What a flush does, by the number of events it leaves for the next report. */
  lemma SendingIs(s: State, b: Budget, room: nat, left: nat)
    requires s.Ok()
    requires var ns := Layout(b, s.batch); At(ns, |ns|) <= |s.batch| && left == if |ns| < QUEUE_DEPTH then 0 else |s.batch| - At(ns, |ns|)
    ensures var ns := Layout(b, s.batch); var pages := Reports(b, s.batch, ns, s.windowTotal - left, |ns|);
      var skipped := s.batch[At(ns, |ns|)..|s.batch| - left];
      && Sending(s, b, room) ==
           (if Crowded(b, s.batch, room) then (s.(held := true, windowOpen := true), NoRoom)
            else (s.(batch := s.batch[|s.batch| - left..], windowTotal := left, radio := s.radio + pages, held := s.held || left > 0,
                     windowOpen := left > 0, baseSynced := if left > 0 then b.synced else s.baseSynced), Done))
      && Leaving(s, b) == PagesGone(pages) + if skipped != [] then [Skipped(skipped)] else []
  {
    hide Layout, Reports, PagesGone;
    LayoutGreedy(b, s.batch);
    var at := At(Layout(b, s.batch), |Layout(b, s.batch)|);
    assert s.batch[|s.batch|..] == [] && s.batch[at..at] == [];
  }

  lemma NoneGone()
    ensures PagesGone([]) == []
  {
  }

  // ---- A base time moved twice ---------------------------------------------------------------------

  /** One small event fits the radio's largest frame, whatever the base time. */
  lemma OneFits(b: Budget, e: Edge)
    requires b.base < TWO_32 && b.total == 1 && b.cap == FRAME_MAX && e == Edge(1, 0, 2, 1, 1, 0, None, 0)
    ensures Layout(b, [e]) == [1]
  {
    VarintMonotone(b.base, TWO_32 - 1);
    assert VarintLen(TWO_32 - 1) == 1 + VarintLen(0x1FF_FFFF) == 2 + VarintLen(0x3_FFFF) == 3 + VarintLen(0x7FF) == 4 + VarintLen(0xF) == 5;
    assert EventsLen([]) == 0 && [e][..0] == [] && [e][0..0 + 1] == [e];
    assert EdgeLen(e) == 8;
    assert FrameLen(Report(b.base, 1, b.synced, [e], PAGE_BOUND, PAGE_BOUND)) <= FRAME_MAX;
    assert Fits(b, [e], 0, 1);
    assert Longest(b, [e], 0, 1) == 1;
  }

  const EARLY := Edge(1, 0, 2, 1, 1, 0, None, 0)

  /** A batch of one event of uptime 100 s. */
  function Waiting(base: nat): State { State([EARLY], 1, base, false, 100000, true, true, []) }

  lemma FirstHeld(s: State)
    requires s.Ok() && s.batch == [] && s.radio == []
    ensures s.windowStart <= 100000 ==> Queueing(s, EARLY, 0, 100000, None, Radio(1000, 0, QUEUE_DEPTH)) == Waiting(100)
  {
    hide Sending;
    assert [] + [Stamped(EARLY, 0)] == [EARLY];
  }

  lemma ThenCrowded()
    ensures Flushing(Waiting(100), Radio(0, 0, 0), Some(1700000200), 200) == (Waiting(1700000100), NoRoom)
  {
    hide Layout;
    OneFits(Budget(1700000100, 1, true, FRAME_MAX), EARLY);
  }

  lemma ThenSent()
    ensures var r := Flushing(Waiting(1700000100), Radio(0, 0, QUEUE_DEPTH), Some(1700000300), 300);
      r.1 == Done && |r.0.radio| == 1 && r.0.radio[0].synced && r.0.radio[0].base == 3400000100
  {
    hide Layout, Reports;
    var b := Budget(3400000100, 1, true, FRAME_MAX);
    OneFits(b, EARLY);
    ReportsAre(b, [EARLY], [1], 1, 1, 0);
  }

  /** A batch that goes on waiting for a free radio slot keeps its moved base but not the note that it was
      moved, so the next flush moves it again. Here unix time is uptime + 1700000000, not known at first; an
      event at 100 s waits for the announce, then, its base moved, for a free slot, and goes out with a base
      time of 3400000100 s instead of 1700000100 s. */
  method ShiftedTwice() returns (b: Batch)
    ensures fresh(b) && |b.radio| == 1 && b.radio[0].synced && b.radio[0].base == 3400000100
  {
    hide Queueing, Flushing, Batch.Accounts;
    b := new Batch();
    b.AccountsOk();
    FirstHeld(b.View());
    ThenCrowded();
    ThenSent();
    b.Queue(EARLY, 0, 100000, None, Radio(1000, 0, QUEUE_DEPTH));
    var first := b.Flush(Radio(0, 0, 0), Some(1700000200), 200);
    var second := b.Flush(Radio(0, 0, QUEUE_DEPTH), Some(1700000300), 300);
  }
}
