/** The alarm engine: sixteen rule latches and the watchdogs, driven by periodic polls and by discrete
    events, all queueing edges for the radio. */
module AlarmEngine {
  import opened Bytes
  import opened AlarmRuleLatch
  import opened AlarmWatchdogs

  const RULES: nat := 16

  /** Where an edge comes from: also the bits of the active mask. */
  datatype Source = OfRule(i: nat) | OfNoData(slot: nat) | OfBattery | OfMismatch(s: nat)

  function SourceOf(e: Event): Source {
    if e.rule == BATTERY_RULE then OfBattery
    else if e.rule != WATCHDOG_RULE then OfRule(e.rule)
    else if e.typ == Mismatch && e.slot > 0 then OfMismatch(e.slot - 1)
    else OfNoData(e.slot)
  }

  /** All edges come from `b`. */
  ghost predicate From(es: seq<Event>, b: Source) {
    forall k :: 0 <= k < |es| ==> SourceOf(es[k]) == b
  }

  /** The edges in the queue that come from `b`. */
  function EdgesOf(queue: seq<Event>, b: Source): seq<Event> {
    if queue == [] then []
    else EdgesOf(queue[..|queue| - 1], b) + if SourceOf(queue[|queue| - 1]) == b then [queue[|queue| - 1]] else []
  }

  lemma {:induction false} EdgesOfAppend(queue: seq<Event>, out: seq<Event>, b: Source, owner: Source)
    requires From(out, owner)
    ensures EdgesOf(queue + out, b) == EdgesOf(queue, b) + if owner == b then out else []
  {
    if out == [] {
      assert queue + out == queue;
    } else {
      var less := out[..|out| - 1];
      assert (queue + out)[..|queue + out| - 1] == queue + less;
      EdgesOfAppend(queue, less, b, owner);
      assert out == less + [out[|out| - 1]];
    }
  }

  lemma {:induction false} ChangesFrom(slot: nat, typ: nat, was: seq<NoDataLatch>, ls: seq<NoDataLatch>)
    requires |was| == |ls|
    ensures From(Changes(slot, typ, was, ls), OfNoData(slot))
    decreases |ls|
  {
    if ls != [] {
      ChangesFrom(slot, typ, was[..|ls| - 1], ls[..|ls| - 1]);
    }
  }

  /** What a poll reads: the rule cache, which rules are armed, the sensors. */
  datatype World = World(
    rules: seq<Option<Rule>>,
    armed: Rule -> bool,
    reading: (nat, nat, nat) -> Option<real>,
    level: Rule -> Option<bool>,                // None for a momentary channel, or one that cannot be read
    counter: Rule -> Option<nat>,
    reportMs: nat,
    capW1: bool,                                // 1-Wire sensors are switched on
    configured: seq<bool>,                      // per 1-Wire slot: a ROM was taught,
    bound: seq<nat>,                            // and the type of the device found
    enabled: set<nat>,                          // motherboard channels whose capability is on
    reported: seq<set<nat>>,                    // per slot, the channels that have a value
    wrong: seq<bool>, expected: seq<nat>,       // and whether it is the wrong one, and the type expected
    voltage: Option<real>, threshold: real)

  /** `mismatch_now`. */
  predicate MismatchNow(w: World, s: nat)
    requires s < |w.wrong|
  {
    w.capW1 && w.wrong[s]
  }

  /** `nodata_slot_type` of 1-Wire slot `s`, its mismatch alarm being as it is now. */
  function WatchType(w: World, s: nat): nat
    requires s < |w.wrong| == |w.configured| == |w.expected| == |w.bound|
  {
    if !w.capW1 || !w.configured[s] || MismatchNow(w, s) then NO_TYPE
    else if w.expected[s] != NO_TYPE then w.expected[s]
    else w.bound[s]
  }

  /** The rule as it is to be evaluated: one that is not armed counts as disabled. */
  function Armable(w: World, r: Rule): Rule { if w.armed(r) then r else r.(enabled := false) }

  function SyncTrace(reg: Registry, i: nat, t: Trace, r: Option<Rule>): Trace {
    var o := Synced(i, t.latch, r);
    Trace(o.latch, AfterSync(reg, t.latch, t.past, r, o.edges))
  }

  function StateTrace(reg: Registry, i: nat, t: Trace, r: Rule, cur: bool, now: nat): Trace {
    var o := Evaluated(reg, i, t.latch, r, cur, now);
    Trace(o.latch, AfterState(t.past, r, o.edges, Level(cur), now))
  }

  function AddedTrace(t: Trace, o: Outcome): Trace { Trace(o.latch, Added(t.past, o.edges)) }

  /** `eval_rule`: one evaluation of an armed rule on what its channel reads. A momentary channel is not
      sampled, and nothing is concluded from one that cannot be read, but a disabled rule still ends. */
  function ReadTrace(reg: Registry, i: nat, t: Trace, r: Rule, w: World, now: nat): Trace
    requires ChannelOf(reg, r).Some?
  {
    var c := ChannelOf(reg, r).value;
    match c.kind
    case Threshold => AddedTrace(t, Limited(i, t.latch, r, w.reading(r.slot, r.channel, r.sensorType)))
    case State =>
      var level := if c.momentary then None else w.level(r);
      if level.Some? then StateTrace(reg, i, t, r, level.value, now)
      else if !r.enabled && t.latch.active && !c.momentary then StateTrace(reg, i, t, r, t.latch.prevState != 0, now)
      else t
    case Rate => if w.counter(r).Some? then AddedTrace(t, Counted(i, t.latch, r, w.counter(r).value, now, w.reportMs)) else t
  }

  /** What a poll makes of rule `i` before the sweep. */
  function Polled(reg: Registry, i: nat, t: Trace, w: World, now: nat): Trace
    requires i < |w.rules| && (w.rules[i].Some? ==> ChannelOf(reg, w.rules[i].value).Some?)
  {
    var s := SyncTrace(reg, i, t, w.rules[i]);
    if w.rules[i].None? then s else ReadTrace(reg, i, s, Armable(w, w.rules[i].value), w, now)
  }

  /** What an event on motherboard channel `channel` makes of rule `i`. */
  function Notified(reg: Registry, i: nat, t: Trace, channel: nat, active: bool, w: World, now: nat): Trace
    requires i < |w.rules|
  {
    var s := SyncTrace(reg, i, t, w.rules[i]);
    if w.rules[i].None? then s
    else
      var r := Armable(w, w.rules[i].value);
      if r.slot == 0 && r.channel == channel && IsKind(reg, r, State) then StateTrace(reg, i, s, r, active, now) else s
  }

  /** What the sweep makes of rule `i`. */
  function SweptOf(reg: Registry, i: nat, t: Trace, w: World, now: nat): Trace {
    if t.latch.used then
      var armed := w.armed(t.latch.lastRule);
      var o := Swept(reg, i, t.latch, armed, now);
      Trace(o.latch, AfterSweep(t.past, Quietened(reg, i, t.latch, armed, now).edges != [], o.edges, now))
    else t
  }

  /** A whole poll: evaluated at `later`, swept by the clock read before, `now`. */
  function PolledAndSwept(reg: Registry, i: nat, t: Trace, w: World, now: nat, later: nat): Trace
    requires i < |w.rules| && (w.rules[i].Some? ==> ChannelOf(reg, w.rules[i].value).Some?)
  {
    SweptOf(reg, i, Polled(reg, i, t, w, later), w, now)
  }

  // ---- Runs ----------------------------------------------------------------------------------------

  /** What drives the engine: a poll, or an event. Edits of the rule table and rules disabled or found
      inert show in the worlds. */
  datatype Op = PollOp(w: World, now: nat, later: nat) | EventOp(channel: nat, active: bool, w: World, now: nat)

  predicate RulesOk(reg: Registry, w: World) {
    |w.rules| == RULES && forall i :: 0 <= i < RULES && w.rules[i].Some? ==> RuleOk(reg, w.rules[i].value)
  }

  function OpTrace(reg: Registry, i: nat, t: Trace, op: Op): Trace
    requires i < RULES && RulesOk(reg, op.w)
  {
    match op
    case PollOp(w, now, later) => PolledAndSwept(reg, i, t, w, now, later)
    case EventOp(channel, active, w, now) => Notified(reg, i, t, channel, active, w, now)
  }

  /** Rule `i` after these polls and events. */
  function RunTrace(reg: Registry, i: nat, t: Trace, ops: seq<Op>): Trace
    requires i < RULES && forall k :: 0 <= k < |ops| ==> RulesOk(reg, ops[k].w)
  {
    if ops == [] then t else OpTrace(reg, i, RunTrace(reg, i, t, ops[..|ops| - 1]), ops[|ops| - 1])
  }

  /** No transition rule is at index `i`. */
  predicate NoEdgeRule(reg: Registry, i: nat, op: Op) {
    i < |op.w.rules| && op.w.rules[i].Some? ==> !IsEdge(reg, op.w.rules[i].value)
  }

  lemma SyncMark(reg: Registry, i: nat, t: Trace, r: Option<Rule>)
    requires Pairs(reg, t.latch) && (r.Some? ==> !IsEdge(reg, r.value))
    ensures var s := SyncTrace(reg, i, t, r); Pairs(reg, s.latch) && s.past.mark == t.past.mark && (s.latch.used <==> r.Some?)
  {
  }

  /** An evaluation changes neither the rule nor what came before. */
  lemma StateMark(reg: Registry, i: nat, t: Trace, r: Rule, cur: bool, now: nat)
    ensures var s := StateTrace(reg, i, t, r, cur, now); s.past.mark == t.past.mark && s.latch.used == t.latch.used && s.latch.lastRule == t.latch.lastRule
  {
  }

  lemma ReadMark(reg: Registry, i: nat, t: Trace, r: Rule, w: World, now: nat)
    requires ChannelOf(reg, r).Some?
    ensures var s := ReadTrace(reg, i, t, r, w, now); s.past.mark == t.past.mark && s.latch.used == t.latch.used && s.latch.lastRule == t.latch.lastRule
  {
    hide StateTrace;
    var c := ChannelOf(reg, r).value;
    if c.kind == State && !c.momentary && w.level(r).Some? {
      StateMark(reg, i, t, r, w.level(r).value, now);
    } else {
      StateMark(reg, i, t, r, t.latch.prevState != 0, now);
    }
  }

  lemma OpMark(reg: Registry, i: nat, t: Trace, op: Op)
    requires i < RULES && RulesOk(reg, op.w) && NoEdgeRule(reg, i, op) && Pairs(reg, t.latch)
    ensures var s := OpTrace(reg, i, t, op); Pairs(reg, s.latch) && s.past.mark == t.past.mark
  {
    hide SyncTrace, StateTrace, ReadTrace;
    var s := SyncTrace(reg, i, t, op.w.rules[i]);
    SyncMark(reg, i, t, op.w.rules[i]);
    if op.w.rules[i].Some? {
      var r := Armable(op.w, op.w.rules[i].value);
      match op
      case PollOp(w, now, later) => ReadMark(reg, i, s, r, w, later);
      case EventOp(channel, active, w, now) => StateMark(reg, i, s, r, active, now);
    }
  }

  lemma {:induction false} RunMark(reg: Registry, i: nat, t: Trace, ops: seq<Op>)
    requires i < RULES && Pairs(reg, t.latch)
    requires forall k :: 0 <= k < |ops| ==> RulesOk(reg, ops[k].w) && NoEdgeRule(reg, i, ops[k])
    ensures var s := RunTrace(reg, i, t, ops); Pairs(reg, s.latch) && s.past.mark == t.past.mark
  {
    hide OpTrace;
    if ops != [] {
      var n := |ops| - 1;
      RunMark(reg, i, t, ops[..n]);
      OpMark(reg, i, RunTrace(reg, i, t, ops[..n]), ops[n]);
    }
  }

  method NewRules(reg: Registry, empty: Rule) returns (rs: seq<RuleLatch>)
    ensures |rs| == RULES && fresh(rs)
    ensures forall i, j :: 0 <= i < j < RULES ==> rs[i] != rs[j]
    ensures forall i :: 0 <= i < RULES ==> rs[i].Valid() && rs[i].index == i && rs[i].reg == reg
    ensures forall i :: 0 <= i < RULES ==> rs[i].Now() == NewTrace(empty)
  {
    hide LatchOk;
    rs := [];
    while |rs| < RULES
      invariant |rs| <= RULES && fresh(rs)
      invariant forall i, j :: 0 <= i < j < |rs| ==> rs[i] != rs[j]
      invariant forall i :: 0 <= i < |rs| ==> rs[i].Valid() && rs[i].index == i && rs[i].reg == reg
      invariant forall i :: 0 <= i < |rs| ==> rs[i].Now() == NewTrace(empty)
    {
      var r := new RuleLatch(|rs|, reg, empty);
      rs := rs + [r];
    }
  }

  method NewSlots(types: nat -> Option<SensorType>) returns (ss: seq<NoDataSlot>)
    ensures |ss| == SLOTS && fresh(ss)
    ensures forall i, j :: 0 <= i < j < SLOTS ==> ss[i] != ss[j]
    ensures forall i :: 0 <= i < SLOTS ==> ss[i].slot == i && ss[i].Watching(types) && ss[i].emitted == []
  {
    hide Tracks;
    ss := [];
    while |ss| < SLOTS
      invariant |ss| <= SLOTS && fresh(ss)
      invariant forall i, j :: 0 <= i < j < |ss| ==> ss[i] != ss[j]
      invariant forall i :: 0 <= i < |ss| ==> ss[i].slot == i && ss[i].Watching(types) && ss[i].emitted == []
    {
      var d := new NoDataSlot(|ss|, if |ss| == 0 then MB_LATCHES else W1_LATCHES);
      ss := ss + [d];
    }
  }

  method NewMismatches() returns (ms: seq<MismatchSlot>)
    ensures |ms| == W1_SLOTS && fresh(ms)
    ensures forall i, j :: 0 <= i < j < W1_SLOTS ==> ms[i] != ms[j]
    ensures forall i :: 0 <= i < W1_SLOTS ==> ms[i].Valid() && ms[i].s == i && ms[i].history == []
  {
    hide Tracks;
    ms := [];
    while |ms| < W1_SLOTS
      invariant |ms| <= W1_SLOTS && fresh(ms)
      invariant forall i, j :: 0 <= i < j < |ms| ==> ms[i] != ms[j]
      invariant forall i :: 0 <= i < |ms| ==> ms[i].Valid() && ms[i].s == i && ms[i].history == []
    {
      var m := new MismatchSlot(|ms|);
      ms := ms + [m];
    }
  }

  class Engine {
    const reg: Registry
    const types: nat -> Option<SensorType>
    const motherboard: nat             // its sensor type
    const rules: seq<RuleLatch>
    const slots: seq<NoDataSlot>
    const mismatches: seq<MismatchSlot>
    const battery: Battery
    var queue: seq<Event>
    var activeMask: set<Source>
    var activationSeq: nat
    const noRule: Rule                 // what a latch without a rule holds at first
    ghost var ops: seq<Op>             // the polls and events so far

    /** Every latch is well-formed and the queue holds exactly the edges the latches queued. */
    ghost predicate Valid()
      reads `queue, rules
    {
      && |rules| == RULES
      && (forall i, j :: 0 <= i < j < RULES ==> rules[i] != rules[j])
      && (forall i :: 0 <= i < RULES ==> rules[i].Valid() && rules[i].index == i && rules[i].reg == reg)
      && (forall i :: 0 <= i < RULES ==> EdgesOf(queue, OfRule(i)) == rules[i].past.history)
    }

    /** The same of the watchdogs. */
    ghost predicate WatchdogsValid()
      reads `queue, slots, mismatches, battery
    {
      && |slots| == SLOTS && |mismatches| == W1_SLOTS && battery.Valid() && types(NO_TYPE).None?
      && (forall i, j :: 0 <= i < j < SLOTS ==> slots[i] != slots[j])
      && (forall i, j :: 0 <= i < j < W1_SLOTS ==> mismatches[i] != mismatches[j])
      && (forall i :: 0 <= i < SLOTS ==> slots[i].slot == i && slots[i].Watching(types))
      && (forall i :: 0 <= i < W1_SLOTS ==> mismatches[i].s == i && mismatches[i].Valid())
      && (forall i :: 0 <= i < SLOTS ==> EdgesOf(queue, OfNoData(i)) == slots[i].emitted)
      && (forall i :: 0 <= i < W1_SLOTS ==> EdgesOf(queue, OfMismatch(i)) == mismatches[i].history)
      && EdgesOf(queue, OfBattery) == battery.history
    }

    ghost predicate Before(t: nat)
      reads rules
    {
      |rules| == RULES && forall i :: 0 <= i < RULES ==> rules[i].past.clock <= t
    }

    /** Every rule's latch and past are those of the polls and events so far. */
    ghost predicate Recorded()
      reads `ops, rules
    {
      && |rules| == RULES && (forall k :: 0 <= k < |ops| ==> RulesOk(reg, ops[k].w))
      && forall i :: 0 <= i < RULES ==> rules[i].Now() == RunTrace(reg, i, NewTrace(noRule), ops)
    }

    predicate TableOk(w: World) {
      && RulesOk(reg, w) && |w.reported| == SLOTS && |w.wrong| == |w.configured| == |w.expected| == |w.bound| == W1_SLOTS
    }

    constructor (registry: Registry, sensorTypes: nat -> Option<SensorType>, empty: Rule, batteryChannel: nat, board: nat)
      requires sensorTypes(NO_TYPE).None?
      ensures Valid() && WatchdogsValid() && Recorded() && Before(0) && queue == [] && activeMask == {} && ops == []
      ensures fresh(rules) && fresh(slots) && fresh(mismatches) && fresh(battery)
    {
      hide LatchOk, NoDataSlot.Watching, Tracks, RuleLatch.Valid, MismatchSlot.Valid;
      reg, types, noRule, motherboard := registry, sensorTypes, empty, board;
      var rs := NewRules(registry, empty);
      var ss := NewSlots(sensorTypes);
      var ms := NewMismatches();
      rules, slots, mismatches := rs, ss, ms;
      battery := new Battery(batteryChannel, board);
      queue, activeMask, activationSeq, ops := [], {}, 0, [];
    }

    /** Hand edges to the queue. */
    method Emit(b: Source, out: seq<Event>)
      requires From(out, b)
      modifies `queue
      ensures queue == old(queue) + out
      ensures forall c :: EdgesOf(queue, c) == old(EdgesOf(queue, c)) + if c == b then out else []
    {
      forall c
        ensures EdgesOf(queue + out, c) == EdgesOf(queue, c) + if c == b then out else []
      {
        EdgesOfAppend(queue, out, c, b);
      }
      queue := queue + out;
    }

    /** `rt_sync_armed`: the rule as it is to be evaluated. */
    method SyncArmed(i: nat, w: World) returns (rule: Option<Rule>)
      requires Valid() && TableOk(w) && i < RULES
      modifies `queue, rules[i]
      ensures Valid() && old(queue) <= queue && OnlyOf(old(queue), queue, OfRule(i))
      ensures rules[i].past.clock == old(rules[i].past.clock)
      ensures rules[i].Now() == SyncTrace(reg, i, old(rules[i].Now()), w.rules[i])
      ensures rule == if w.rules[i].Some? then Some(Armable(w, w.rules[i].value)) else None
    {
      hide EdgesOf, LatchOk, Own, From;
      var latch := rules[i];
      var out := latch.Sync(w.rules[i]);
      OwnFrom(out, i);
      Emit(OfRule(i), out);
      rule := w.rules[i];
      if rule.Some? && !w.armed(rule.value) {
        rule := Some(rule.value.(enabled := false));
      }
    }

    /** `rt_sync_armed`, then `eval_rule`. */
    method PollRule(i: nat, w: World, now: nat)
      requires Valid() && TableOk(w) && i < RULES && rules[i].past.clock <= now
      modifies `queue, rules[i]
      ensures Valid() && old(queue) <= queue && OnlyOf(old(queue), queue, OfRule(i)) && rules[i].past.clock <= now
      ensures rules[i].Now() == Polled(reg, i, old(rules[i].Now()), w, now)
    {
      hide EdgesOf, LatchOk, Own, From, ReadTrace, Confirmed, Rule.HoldMs;
      var armed := SyncArmed(i, w);
      if armed.None? {
        return;
      }
      var out := EvalRule(i, armed.value, w, now);
      OwnFrom(out, i);
      Emit(OfRule(i), out);
    }

    /** `eval_rule`. */
    method EvalRule(i: nat, rule: Rule, w: World, now: nat) returns (out: seq<Event>)
      requires i < |rules| && rules[i].Valid() && rules[i].reg == reg && rules[i].index == i && rules[i].rt.used && rules[i].past.clock <= now
      requires ChannelOf(reg, rule).Some? && rules[i].Same(rule)
      modifies rules[i]
      ensures rules[i].Valid() && Own(out, i) && rules[i].past.clock <= now
      ensures rules[i].past.history == old(rules[i].past.history) + out
      ensures rules[i].Now() == ReadTrace(reg, i, old(rules[i].Now()), rule, w, now)
    {
      hide LatchOk, Own, Limited, Counted, Evaluated, Confirmed, Rule.HoldMs;
      var latch := rules[i];
      var c := ChannelOf(reg, rule).value;
      out := [];
      assert latch.past.history + [] == latch.past.history && Own([], i) by { NoneOwn(i); }
      match c.kind {
        case Threshold =>
          out := latch.EvalThreshold(rule, w.reading(rule.slot, rule.channel, rule.sensorType));
        case State =>
          var level := if c.momentary then None else w.level(rule);
          var drop := !rule.enabled && latch.rt.active && !c.momentary;
          if level.Some? || drop {
            out := latch.EvalState(rule, if level.Some? then level.value else latch.rt.prevState != 0, now);
          }
        case Rate =>
          var counter := w.counter(rule);
          if counter.Some? {
            out := latch.EvalCount(rule, counter.value, now, w.reportMs);
          }
      }
    }

    /** `app_alarm_event`: an edge or pulse on motherboard channel `channel`. */
    method Event(channel: nat, active: bool, w: World, now: nat)
      requires Valid() && TableOk(w) && Before(now)
      modifies `queue, `ops, rules
      ensures Valid() && Before(now) && old(queue) <= queue && OnlyRules(old(queue), queue)
      ensures forall i :: 0 <= i < RULES ==>
                rules[i].Now() == Notified(reg, i, old(rules[i].Now()), channel, active, w, now)
      ensures ops == old(ops) + [EventOp(channel, active, w, now)] && (old(Recorded()) ==> Recorded())
    {
      hide EdgesOf, LatchOk, Notified, RunTrace, Engine.Valid;
      NotifyRules(channel, active, w, now);
      ops := ops + [EventOp(channel, active, w, now)];
      if old(Recorded()) {
        Record(EventOp(channel, active, w, now));
      }
    }

    /** Once the rules are those after `op`, and `op` is on record, the record is right again. */
    twostate lemma Record(op: Op)
      requires old(Recorded()) && ops == old(ops) + [op] && RulesOk(reg, op.w)
      requires forall i :: 0 <= i < RULES ==> rules[i].Now() == OpTrace(reg, i, old(rules[i].Now()), op)
      ensures Recorded()
    {
      hide OpTrace;
      RunMore(reg, NewTrace(noRule), old(ops), op);
    }

    method NotifyRules(channel: nat, active: bool, w: World, now: nat)
      requires Valid() && TableOk(w) && Before(now)
      modifies `queue, rules
      ensures Valid() && Before(now) && old(queue) <= queue && OnlyRules(old(queue), queue)
      ensures forall i :: 0 <= i < RULES ==>
                rules[i].Now() == Notified(reg, i, old(rules[i].Now()), channel, active, w, now)
    {
      hide EdgesOf, LatchOk, Own, From, Notified;
      var i := 0;
      while i < RULES
        invariant 0 <= i <= RULES && Valid() && Before(now) && old(queue) <= queue && OnlyRules(old(queue), queue)
        invariant forall j :: 0 <= j < i ==>
                    rules[j].Now() == Notified(reg, j, old(rules[j].Now()), channel, active, w, now)
        invariant forall j :: i <= j < RULES ==> rules[j].Now() == old(rules[j].Now())
      {
        NotifyRule(i, channel, active, w, now);
        i := i + 1;
      }
    }

    /** One rule's part in an event. */
    method NotifyRule(i: nat, channel: nat, active: bool, w: World, now: nat)
      requires Valid() && TableOk(w) && i < RULES && rules[i].past.clock <= now
      modifies `queue, rules[i]
      ensures Valid() && old(queue) <= queue && OnlyOf(old(queue), queue, OfRule(i)) && rules[i].past.clock <= now
      ensures rules[i].Now() == Notified(reg, i, old(rules[i].Now()), channel, active, w, now)
    {
      hide EdgesOf, LatchOk, Own, From, Evaluated, Confirmed, Rule.HoldMs;
      var armed := SyncArmed(i, w);
      if armed.Some? && armed.value.slot == 0 && armed.value.channel == channel && IsKind(reg, armed.value, State) {
        var latch := rules[i];
        var out := latch.EvalState(armed.value, active, now);
        OwnFrom(out, i);
        Emit(OfRule(i), out);
      }
    }

    /** The rules' part of `app_alarm_poll`. */
    method PollRules(w: World, now: nat)
      requires Valid() && TableOk(w) && Before(now)
      modifies `queue, rules
      ensures Valid() && Before(now) && old(queue) <= queue && OnlyRules(old(queue), queue)
      ensures old(WatchdogsValid()) ==> WatchdogsValid()
      ensures forall i :: 0 <= i < RULES ==> rules[i].Now() == Polled(reg, i, old(rules[i].Now()), w, now)
    {
      hide EdgesOf, LatchOk, Polled, Tracks, NoDataSlot.Watching;
      var i := 0;
      while i < RULES
        invariant 0 <= i <= RULES && Valid() && Before(now) && old(queue) <= queue && OnlyRules(old(queue), queue)
        invariant forall j :: 0 <= j < i ==> rules[j].Now() == Polled(reg, j, old(rules[j].Now()), w, now)
        invariant forall j :: i <= j < RULES ==> rules[j].Now() == old(rules[j].Now())
      {
        PollRule(i, w, now);
        i := i + 1;
      }
    }

    /** `mismatch_poll`. */
    method PollMismatches(w: World)
      requires Valid() && WatchdogsValid() && TableOk(w)
      modifies `queue, mismatches
      ensures Valid() && WatchdogsValid() && old(queue) <= queue
      ensures forall s :: 0 <= s < W1_SLOTS ==> mismatches[s].active == MismatchNow(w, s)
    {
      hide EdgesOf, LatchOk, Tracks, NoDataSlot.Watching, Own, From;
      var s := 0;
      while s < W1_SLOTS
        invariant 0 <= s <= W1_SLOTS && Valid() && WatchdogsValid() && old(queue) <= queue
        invariant forall k :: 0 <= k < s ==> mismatches[k].active == MismatchNow(w, k)
      {
        PollMismatch(s, w);
        s := s + 1;
      }
    }

    method PollMismatch(s: nat, w: World)
      requires Valid() && WatchdogsValid() && TableOk(w) && s < W1_SLOTS
      modifies `queue, mismatches[s]
      ensures Valid() && WatchdogsValid() && old(queue) <= queue
      ensures mismatches[s].active == MismatchNow(w, s)
    {
      hide EdgesOf, LatchOk, Tracks, NoDataSlot.Watching, Own, From;
      var slot := mismatches[s];
      var out := slot.Poll(w.capW1 && w.wrong[s], w.expected[s]);
      OneFrom(out, OfMismatch(s));
      Emit(OfMismatch(s), out);
    }

    /** The type to be watched in slot `s`, NO_TYPE for none. */
    function TypeOf(w: World, s: nat): nat
      requires TableOk(w) && s < SLOTS
    {
      if s == 0 then motherboard else WatchType(w, s - 1)
    }

    /** `nodata_slot_type`. A slot with the wrong device has its mismatch alarm; it is not watched too. */
    method SlotType(w: World, s: nat) returns (t: nat)
      requires TableOk(w) && s < SLOTS && |mismatches| == W1_SLOTS && (s > 0 ==> mismatches[s - 1].active == MismatchNow(w, s - 1))
      ensures t == TypeOf(w, s)
    {
      if s == 0 {
        return motherboard;
      }
      if !w.capW1 || !w.configured[s - 1] || mismatches[s - 1].active {
        return NO_TYPE;
      }
      t := if w.expected[s - 1] != NO_TYPE then w.expected[s - 1] else w.bound[s - 1];
    }

    /** What a poll leaves in the latches of slot `s`. */
    ghost predicate NoDataTook(s: nat, was: seq<NoDataLatch>, os: seq<nat>, typ: nat, w: World, now: nat)
      requires TableOk(w) && s < SLOTS && s < |slots|
      reads slots
    {
      var ls, armed := slots[s].latches, Armed(typ, TypeOf(w, s), was);
      && slots[s].typ == TypeOf(w, s) && |ls| == |was| && slots[s].owners == os + Changers(was, armed) + Changers(armed, ls)
      && (types(TypeOf(w, s)).None? ==> ls == armed)
      && (types(TypeOf(w, s)).Some? ==> forall k :: 0 <= k < |ls| ==>
            ls[k] == Watched(s, types(TypeOf(w, s)).value, k, armed[k], w.enabled, w.reported[s], now))
    }

    /** `nodata_poll`. */
    method PollNoData(w: World, now: nat)
      requires Valid() && WatchdogsValid() && TableOk(w)
      requires forall s :: 0 <= s < W1_SLOTS ==> mismatches[s].active == MismatchNow(w, s)
      modifies `queue, slots
      ensures Valid() && WatchdogsValid() && old(queue) <= queue && forall s :: 0 <= s < SLOTS ==> slots[s].typ == TypeOf(w, s)
      ensures forall s :: 0 <= s < SLOTS ==> NoDataTook(s, old(slots[s].latches), old(slots[s].owners), old(slots[s].typ), w, now)
    {
      hide EdgesOf, LatchOk, Tracks, NoDataSlot.Watching, Watched, Armed;
      var s := 0;
      while s < SLOTS
        invariant 0 <= s <= SLOTS && Valid() && WatchdogsValid() && old(queue) <= queue
        invariant forall k :: 0 <= k < s ==> NoDataTook(k, old(slots[k].latches), old(slots[k].owners), old(slots[k].typ), w, now)
        invariant forall k :: s <= k < SLOTS ==> slots[k].latches == old(slots[k].latches) && slots[k].owners == old(slots[k].owners) && slots[k].typ == old(slots[k].typ)
      {
        PollSlot(s, w, now);
        s := s + 1;
      }
    }

    method PollSlot(s: nat, w: World, now: nat)
      requires Valid() && WatchdogsValid() && TableOk(w) && s < SLOTS && (s > 0 ==> mismatches[s - 1].active == MismatchNow(w, s - 1))
      modifies `queue, slots[s]
      ensures Valid() && WatchdogsValid() && old(queue) <= queue
      ensures NoDataTook(s, old(slots[s].latches), old(slots[s].owners), old(slots[s].typ), w, now)
    {
      hide EdgesOf, LatchOk, Tracks, NoDataSlot.Watching, Own, From, Watched, Changes, Changers, RuleLatch.Valid, Battery.Valid,
        MismatchSlot.Valid;
      var slot := slots[s];
      ghost var ls, typ := slot.latches, slot.typ;
      var typeNow := SlotType(w, s);
      var out := slot.Poll(typeNow, types, w.enabled, w.reported[s], now);
      NoDataFrom(s, typ, TypeOf(w, s), ls, slot.latches, out);
      Emit(OfNoData(s), out);
    }

    /** `battery_poll`. */
    method PollBattery(w: World)
      requires Valid() && WatchdogsValid()
      modifies `queue, battery
      ensures Valid() && WatchdogsValid() && old(queue) <= queue
      ensures battery.low == LowNow(old(battery.low), w.voltage, w.threshold)
    {
      hide EdgesOf, LatchOk, Tracks, NoDataSlot.Watching, Own, From;
      var out := battery.Poll(w.voltage, w.threshold);
      OneFrom(out, OfBattery);
      Emit(OfBattery, out);
    }

    /** The latch sweep of `app_alarm_poll`. */
    method SweepRules(w: World, now: nat, later: nat)
      requires Valid() && TableOk(w) && Before(later) && now <= later
      modifies `queue, rules
      ensures Valid() && Before(later) && old(queue) <= queue && OnlyRules(old(queue), queue)
      ensures old(WatchdogsValid()) ==> WatchdogsValid()
      ensures forall i :: 0 <= i < RULES ==> rules[i].Now() == SweptOf(reg, i, old(rules[i].Now()), w, now)
    {
      hide EdgesOf, LatchOk, SweptOf, Tracks, NoDataSlot.Watching;
      var i := 0;
      while i < RULES
        invariant 0 <= i <= RULES && Valid() && Before(later) && old(queue) <= queue && OnlyRules(old(queue), queue)
        invariant forall j :: 0 <= j < i ==> rules[j].Now() == SweptOf(reg, j, old(rules[j].Now()), w, now)
        invariant forall j :: i <= j < RULES ==> rules[j].Now() == old(rules[j].Now())
      {
        SweepRule(i, w, now);
        i := i + 1;
      }
    }

    method SweepRule(i: nat, w: World, now: nat)
      requires Valid() && i < RULES
      modifies `queue, rules[i]
      ensures Valid() && old(queue) <= queue && OnlyOf(old(queue), queue, OfRule(i))
      ensures rules[i].past.clock <= old(rules[i].past.clock) || rules[i].past.clock == now
      ensures rules[i].Now() == SweptOf(reg, i, old(rules[i].Now()), w, now)
    {
      hide EdgesOf, LatchOk, Own, From, Swept;
      var latch := rules[i];
      assert latch.past.history + [] == latch.past.history;
      if latch.rt.used {
        var out := latch.Sweep(w.armed(latch.rt.lastRule), now);
        OwnFrom(out, i);
        Emit(OfRule(i), out);
      }
    }

    /** What is active now. */
    ghost predicate IsActive(b: Source)
      reads rules, slots, mismatches, battery
    {
      match b
      case OfRule(i) => i < |rules| && rules[i].rt.used && rules[i].rt.active
      case OfNoData(slot) => slot < |slots| && slots[slot].AnyActive()
      case OfBattery => battery.low
      case OfMismatch(s) => s < |mismatches| && mismatches[s].active
    }

    /** Collect the bits of everything that is active. */
    method Mask() returns (mask: set<Source>)
      requires |rules| == RULES && |slots| == SLOTS && |mismatches| == W1_SLOTS
      ensures forall b :: b in mask <==> IsActive(b)
    {
      mask := if battery.low then {OfBattery} else {};
      var s := 0;
      while s < SLOTS
        invariant 0 <= s <= SLOTS
        invariant forall b :: b in mask <==> IsActive(b) && (b.OfBattery? || (b.OfNoData? && b.slot < s))
      {
        if slots[s].AnyActive() {
          mask := mask + {OfNoData(s)};
        }
        s := s + 1;
      }
      s := 0;
      while s < W1_SLOTS
        invariant 0 <= s <= W1_SLOTS
        invariant forall b :: b in mask <==> IsActive(b) && (b.OfBattery? || b.OfNoData? || (b.OfMismatch? && b.s < s))
      {
        if mismatches[s].active {
          mask := mask + {OfMismatch(s)};
        }
        s := s + 1;
      }
      var i := 0;
      while i < RULES
        invariant 0 <= i <= RULES
        invariant forall b :: b in mask <==> IsActive(b) && (b.OfRule? ==> b.i < i)
      {
        if rules[i].rt.used && rules[i].rt.active {
          mask := mask + {OfRule(i)};
        }
        i := i + 1;
      }
    }

    /** What a poll leaves: of every rule and of every watchdog. */
    twostate predicate AllTook(w: World, now: nat, later: nat)
      requires TableOk(w) && |rules| == RULES && |slots| == SLOTS && |mismatches| == W1_SLOTS
      reads rules, slots, mismatches, battery
    {
      && (forall i :: 0 <= i < RULES ==> rules[i].Now() == PolledAndSwept(reg, i, old(rules[i].Now()), w, now, later))
      && (forall s :: 0 <= s < SLOTS ==> NoDataTook(s, old(slots[s].latches), old(slots[s].owners), old(slots[s].typ), w, later))
      && (forall s :: 0 <= s < W1_SLOTS ==> mismatches[s].active == MismatchNow(w, s))
      && battery.low == LowNow(old(battery.low), w.voltage, w.threshold)
    }

    /** Everything `app_alarm_poll` evaluates, in its order. */
    method Evaluate(w: World, now: nat, later: nat)
      requires Valid() && WatchdogsValid() && TableOk(w) && now <= later && Before(later)
      modifies `queue, rules, slots, mismatches, battery
      ensures Valid() && WatchdogsValid() && Before(later) && old(queue) <= queue
      ensures AllTook(w, now, later) && OneEach()
    {
      hide EdgesOf, LatchOk, Tracks, NoDataSlot.Watching, Own, From, Polled, SweptOf, Engine.NoDataTook,
        Engine.Valid, Engine.WatchdogsValid, LowNow;
      Sizes();
      PollRules(w, later);
      PollWatchdogs(w, later);
      SweepRules(w, now, later);
    }

    /** One alarm, not two: no 1-Wire slot has both a mismatch and a no-data alarm. */
    ghost predicate OneEach()
      requires |slots| == SLOTS && |mismatches| == W1_SLOTS
      reads slots, mismatches
    {
      forall s :: 0 <= s < W1_SLOTS ==> !(mismatches[s].active && slots[s + 1].AnyActive())
    }

    lemma OneAlarm(w: World, s: nat)
      requires WatchdogsValid() && TableOk(w) && s < W1_SLOTS
      requires mismatches[s].active == MismatchNow(w, s) && slots[s + 1].typ == TypeOf(w, s + 1)
      ensures !(mismatches[s].active && slots[s + 1].AnyActive())
    {
      hide EdgesOf, Tracks, Watched;
      assert slots[s + 1].Watching(types);
    }

    method PollWatchdogs(w: World, now: nat)
      requires Valid() && WatchdogsValid() && TableOk(w)
      modifies `queue, slots, mismatches, battery
      ensures Valid() && WatchdogsValid() && old(queue) <= queue
      ensures forall s :: 0 <= s < SLOTS ==> NoDataTook(s, old(slots[s].latches), old(slots[s].owners), old(slots[s].typ), w, now)
      ensures forall s :: 0 <= s < W1_SLOTS ==> mismatches[s].active == MismatchNow(w, s)
      ensures OneEach()
      ensures battery.low == LowNow(old(battery.low), w.voltage, w.threshold)
    {
      hide EdgesOf, LatchOk, Tracks, NoDataSlot.Watching, Own, From, Engine.NoDataTook, LowNow;
      PollMismatches(w);
      PollNoData(w, now);
      forall s | 0 <= s < W1_SLOTS
        ensures !(mismatches[s].active && slots[s + 1].AnyActive())
      {
        OneAlarm(w, s);
      }
      PollBattery(w);
    }

    /** `app_alarm_poll`: evaluate everything, expire what has lapsed, and publish the active mask. The
        activation sequence moves exactly when an alarm is active that was not at the last poll. `now`
        is read before the locks are taken, the evaluations read the clock again. */
    method Poll(w: World, now: nat, later: nat) returns (any: bool)
      requires Valid() && WatchdogsValid() && TableOk(w) && now <= later && Before(later)
      modifies this, rules, slots, mismatches, battery
      ensures Valid() && WatchdogsValid() && Before(later) && old(queue) <= queue
      ensures AllTook(w, now, later) && OneEach()
      ensures ops == old(ops) + [PollOp(w, now, later)] && (old(Recorded()) ==> Recorded())
      ensures forall b :: b in activeMask <==> IsActive(b)
      ensures any <==> activeMask != {}
      ensures activationSeq == old(activationSeq) + if activeMask <= old(activeMask) then 0 else 1
    {
      hide EdgesOf, LatchOk, Tracks, NoDataSlot.Watching, PolledAndSwept, RunTrace, Engine.IsActive, Engine.Valid, Engine.WatchdogsValid, Engine.NoDataTook;
      Sizes();
      any := PollAll(w, now, later);
      ops := ops + [PollOp(w, now, later)];
      if old(Recorded()) {
        Record(PollOp(w, now, later));
      }
    }

    method PollAll(w: World, now: nat, later: nat) returns (any: bool)
      requires Valid() && WatchdogsValid() && TableOk(w) && now <= later && Before(later)
      modifies `queue, `activeMask, `activationSeq, rules, slots, mismatches, battery
      ensures Valid() && WatchdogsValid() && Before(later) && old(queue) <= queue
      ensures AllTook(w, now, later) && OneEach()
      ensures forall b :: b in activeMask <==> IsActive(b)
      ensures any <==> activeMask != {}
      ensures activationSeq == old(activationSeq) + if activeMask <= old(activeMask) then 0 else 1
    {
      hide EdgesOf, LatchOk, Tracks, NoDataSlot.Watching, Own, From, Engine.IsActive, Engine.AllTook, Engine.Valid,
        Engine.WatchdogsValid;
      Evaluate(w, now, later);
      Sizes();
      var mask := Mask();
      var newBits := mask - activeMask;
      assert forall b :: b in mask && b !in activeMask ==> b in newBits;
      if newBits != {} {
        activationSeq := activationSeq + 1;
      }
      activeMask := mask;
      any := mask != {};
    }

    lemma Sizes()
      requires Valid() && WatchdogsValid()
      ensures |rules| == RULES && |slots| == SLOTS && |mismatches| == W1_SLOTS
    {
    }

    /** In the queue, the edges of a rule alternate, each deactivate ending the activate before it, and
        the rule's latch is active iff the last edge is an activate, from the last time on that a
        transition rule was replaced; if there never was one, from the start. */
    lemma QueueAlternates(i: nat)
      requires Valid() && i < RULES && Pairs(reg, rules[i].rt)
      ensures rules[i].past.mark <= |EdgesOf(queue, OfRule(i))|
      ensures Alternating(EdgesOf(queue, OfRule(i)), rules[i].past.mark)
      ensures rules[i].rt.active <==> Open(EdgesOf(queue, OfRule(i)), rules[i].past.mark)
    {
      hide EdgesOf, Alternating, Open;
      assert rules[i].Valid();
    }

    /** Over any run of polls, events, edits and disables in which no transition rule is ever at index `i`,
        the edges of rule `i` in the queue alternate from the start. */
    lemma RunAlternates(i: nat)
      requires Valid() && Recorded() && i < RULES && forall k :: 0 <= k < |ops| ==> NoEdgeRule(reg, i, ops[k])
      ensures Alternating(EdgesOf(queue, OfRule(i)), 0) && (rules[i].rt.active <==> Open(EdgesOf(queue, OfRule(i)), 0))
    {
      hide EdgesOf, Alternating, Open;
      RunMark(reg, i, NewTrace(noRule), ops);
      assert rules[i].Now() == RunTrace(reg, i, NewTrace(noRule), ops);
      QueueAlternates(i);
    }

    /** So do those of every watchdog latch, from the start; a slot's no-data edges each belong to one of
        its latches. */
    lemma WatchdogsAlternate(s: nat, k: nat)
      requires WatchdogsValid()
      ensures Alternating(EdgesOf(queue, OfBattery), 0) && (battery.low <==> Open(EdgesOf(queue, OfBattery), 0))
      ensures s < W1_SLOTS ==>
                Alternating(EdgesOf(queue, OfMismatch(s)), 0) && (mismatches[s].active <==> Open(EdgesOf(queue, OfMismatch(s)), 0))
      ensures s < SLOTS && k < |slots[s].latches| ==>
                && |slots[s].owners| == |EdgesOf(queue, OfNoData(s))|
                && Alternating(Pick(EdgesOf(queue, OfNoData(s)), slots[s].owners, k), 0)
                && (slots[s].latches[k].active <==> Open(Pick(EdgesOf(queue, OfNoData(s)), slots[s].owners, k), 0))
    {
      hide EdgesOf, Alternating, Open, Pick;
      if s < SLOTS && k < |slots[s].latches| {
        assert slots[s].Watching(types);
        assert LatchTracks(slots[s].slot, slots[s].typ, slots[s].latches[k], slots[s].histories[k]);
      }
      if s < W1_SLOTS {
        assert mismatches[s].Valid();
      }
    }
  }

  /** Only edges of `b` were added. */
  ghost predicate OnlyOf(q: seq<Event>, q': seq<Event>, b: Source) {
    forall c :: c != b ==> EdgesOf(q', c) == EdgesOf(q, c)
  }

  /** Only edges of rules were added. */
  ghost predicate OnlyRules(q: seq<Event>, q': seq<Event>) {
    forall c: Source :: !c.OfRule? ==> EdgesOf(q', c) == EdgesOf(q, c)
  }

  function NewTrace(empty: Rule): Trace { Trace(FreshLatch(false, empty), Past([], 0, [], [], 0)) }

  lemma RunMore(reg: Registry, t: Trace, ops: seq<Op>, op: Op)
    requires RulesOk(reg, op.w) && forall k :: 0 <= k < |ops| ==> RulesOk(reg, ops[k].w)
    ensures forall k :: 0 <= k < |ops| + 1 ==> RulesOk(reg, (ops + [op])[k].w)
    ensures forall i: nat :: i < RULES ==> RunTrace(reg, i, t, ops + [op]) == OpTrace(reg, i, RunTrace(reg, i, t, ops), op)
  {
    assert (ops + [op])[..|ops|] == ops;
  }

  lemma OwnFrom(out: seq<Event>, i: nat)
    requires Own(out, i) && i < RULES
    ensures From(out, OfRule(i))
  {
  }

  lemma NoneOwn(i: nat)
    ensures Own([], i)
  {
  }

  lemma OneFrom(out: seq<Event>, b: Source)
    requires |out| <= 1 && (out != [] ==> SourceOf(out[0]) == b)
    ensures From(out, b)
  {
  }

  lemma NoDataFrom(s: nat, typ: nat, newType: nat, was: seq<NoDataLatch>, ls: seq<NoDataLatch>, out: seq<Event>)
    requires |was| == |ls|
    requires out == Changes(s, typ, was, Armed(typ, newType, was)) + Changes(s, newType, Armed(typ, newType, was), ls)
    ensures From(out, OfNoData(s))
  {
    hide Changes, Armed;
    ChangesFrom(s, typ, was, Armed(typ, newType, was));
    ChangesFrom(s, newType, Armed(typ, newType, was), ls);
  }
}
