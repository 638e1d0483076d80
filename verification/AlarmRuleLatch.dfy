/** The runtime latch of one alarm rule: what the rule's channel readings make of it, and which edges
    it queues. Readings, the clock and the sensor registry are inputs. */
module AlarmRuleLatch {
  import opened Bytes

  datatype Kind = Threshold | State | Rate

  datatype Channel = Channel(kind: Kind, momentary: bool)

  datatype Rule = Rule(slot: nat, channel: nat, sensorType: nat, enabled: bool, fromState: nat, toState: nat,
    lo: real, hi: real, dwell: real)
  {
    predicate Stillness() { fromState == 0 && toState == 0 }

    /** Hold and confirm time in ms. */
    function HoldMs(): nat { if dwell < 0.0 then 0 else (dwell * 1000.0).Floor }
  }

  /** A dwell in seconds is held for that many milliseconds, rounded down; a negative one not at all. */
  lemma HoldIs(r: Rule)
    ensures r.dwell >= 0.0 ==> r.HoldMs() as real <= r.dwell * 1000.0 < r.HoldMs() as real + 1.0
    ensures r.dwell <= 0.0 ==> r.HoldMs() == 0
  {
    if r.dwell == 0.0 {
      assert r.dwell * 1000.0 == 0.0;
    }
  }

  datatype AlarmType = NoType | Low | High | Trigger | NoData | Mismatch

  /** An edge as queued for the radio. */
  datatype Event = Event(rule: nat, slot: nat, channel: nat, sensorType: nat, active: bool, typ: AlarmType)

  const WATCHDOG_RULE: nat := 0xFF
  const BATTERY_RULE: nat := 0xFE

  /** The deactivate edge names what the activate edge named. */
  predicate SameAlarm(a: Event, b: Event) {
    a.rule == b.rule && a.slot == b.slot && a.channel == b.channel && a.sensorType == b.sensorType && a.typ == b.typ
  }

  /** From edge `from` on: an activate first, then strictly in turn, every deactivate for its activate. */
  ghost predicate Alternating(h: seq<Event>, from: nat) {
    && from <= |h|
    && (from < |h| ==> h[from].active)
    && (forall k :: from < k < |h| ==> h[k].active != h[k - 1].active && (!h[k].active ==> SameAlarm(h[k - 1], h[k])))
  }

  /** All edges are of rule `index`. */
  ghost predicate Own(es: seq<Event>, index: nat) {
    forall k :: 0 <= k < |es| ==> es[k].rule == index
  }

  /** The last edge is an activate that nothing has ended. */
  ghost predicate Open(h: seq<Event>, from: nat) {
    from < |h| && h[|h| - 1].active
  }

  lemma PushEvent(h: seq<Event>, from: nat, e: Event)
    requires Alternating(h, from) && (e.active <==> !Open(h, from)) && (!e.active ==> h != [] && SameAlarm(h[|h| - 1], e))
    ensures Alternating(h + [e], from) && (Open(h + [e], from) <==> e.active)
  {
  }

  lemma NoEdges(h: seq<Event>)
    ensures Alternating(h, |h|) && !Open(h, |h|)
  {
  }

  function Max0(x: real): real { if x >= 0.0 then x else 0.0 }

  function Level(cur: bool): nat { if cur then 1 else 0 }

  datatype Eval = Eval(at: nat, level: nat)

  /** The level has been `to` at every evaluation from the `k`-th on, which is the rule's confirm time
      before `due`, and for an edge rule it was `from` just before that. */
  ghost predicate Steady(evals: seq<Eval>, r: Rule, k: nat, due: nat) {
    && k < |evals| && evals[k].at + r.HoldMs() <= due
    && (forall m :: k <= m < |evals| ==> evals[m].level == r.toState)
    && (r.fromState != r.toState ==> k > 0 && evals[k - 1].level == r.fromState)
  }

  ghost predicate Confirmed(evals: seq<Eval>, r: Rule, t: nat) {
    exists k: nat :: Steady(evals, r, k, t)
  }

  ghost predicate Spaced(acts: seq<nat>, gap: nat) {
    forall j, k :: 0 <= j < k < |acts| ==> acts[j] + gap <= acts[k]
  }

  lemma ConfirmStart(evals: seq<Eval>, r: Rule, now: nat)
    requires r.fromState != r.toState ==> evals != [] && evals[|evals| - 1].level == r.fromState
    ensures Confirmed(evals + [Eval(now, r.toState)], r, now + r.HoldMs())
  {
    assert Steady(evals + [Eval(now, r.toState)], r, |evals|, now + r.HoldMs());
  }

  lemma ConfirmOn(evals: seq<Eval>, r: Rule, due: nat, now: nat, later: nat)
    requires Confirmed(evals, r, due) && due <= later
    ensures Confirmed(evals + [Eval(now, r.toState)], r, later)
  {
    var k: nat :| Steady(evals, r, k, due);
    assert Steady(evals + [Eval(now, r.toState)], r, k, later);
  }

  lemma SpacedPush(acts: seq<nat>, gap: nat, t: nat)
    requires Spaced(acts, gap) && (acts != [] ==> acts[|acts| - 1] + gap <= t)
    ensures Spaced(acts + [t], gap)
  {
  }

  lemma NoActs(gap: nat)
    ensures Spaced([], gap)
  {
  }

  /** `struct rstate`. */
  datatype Latch = Latch(
    used: bool,
    active: bool,
    typ: AlarmType,          // threshold: which bound latched
    prevState: nat,
    havePrevState: bool,
    prevCount: nat,
    havePrevCount: bool,
    windowStart: nat,
    oneshotExpiry: nat,      // 0 = none
    confirmDeadline: nat,    // 0 = none
    lastRule: Rule)
  {
    function EdgeType(): AlarmType { if typ != NoType then typ else Trigger }
  }

  function FreshLatch(used: bool, r: Rule): Latch {
    Latch(used, false, NoType, 0, false, 0, false, 0, 0, 0, r)
  }

  /** The limit a threshold latch is past. */
  function Side(l: Latch): AlarmType { if l.active then l.typ else NoType }

  /** An alarm limit with a deadband: outside [lo, hi] decides; inside, a latched alarm stays until the
      value is further in than the deadband. */
  function Hysteresis(side: AlarmType, r: Rule, v: real): AlarmType {
    if v < r.lo then Low
    else if v > r.hi then High
    else if side == Low && v <= r.lo + Max0(r.dwell) then Low
    else if side == High && v >= r.hi - Max0(r.dwell) then High
    else NoType
  }

  /** What has to be reported when the alarm changes from `a` to `b`. */
  function EdgesBetween(index: nat, r: Rule, a: AlarmType, b: AlarmType): seq<Event> {
    if a == b then []
    else (if a != NoType then [EventOf(index, r, false, a)] else []) + if b != NoType then [EventOf(index, r, true, b)] else []
  }

  function Window(r: Rule, reportMs: nat): nat { if r.dwell > 0.0 then r.HoldMs() else reportMs }

  /** The counter rose by at least `hi` since the window started. */
  predicate Over(l: Latch, r: Rule, cur: nat) {
    r.hi > 0.0 && cur as real >= l.prevCount as real + r.hi
  }

  /** A rate alarm starts as soon as the limit is reached, ends with the first whole window that falls
      short, and sits out a counter that went back. */
  predicate RateAlarm(l: Latch, r: Rule, cur: nat, now: nat, reportMs: nat) {
    && r.enabled && l.havePrevCount
    && if cur < l.prevCount then l.active
       else Over(l, r, cur) || (l.active && now < l.windowStart + Window(r, reportMs))
  }

  /** What happened to a latch: all its edges; how many of them are older than the last rule that
      fired on transitions; and, since the latch was reset or its rule disabled, the levels its rule
      was evaluated at and the times it activated. */
  datatype Past = Past(history: seq<Event>, mark: nat, evals: seq<Eval>, acts: seq<nat>, clock: nat)

  /** The sensor registry: the channel a rule's target names. */
  type Registry = (nat, nat, nat) -> Option<Channel>

  function ChannelOf(reg: Registry, r: Rule): Option<Channel> { reg(r.slot, r.channel, r.sensorType) }

  predicate IsKind(reg: Registry, r: Rule, k: Kind) { ChannelOf(reg, r).Some? && ChannelOf(reg, r).value.kind == k }

  predicate Momentary(reg: Registry, r: Rule) { ChannelOf(reg, r).Some? && ChannelOf(reg, r).value.momentary }

  /** What the rule cache guarantees of a used rule, and the registry of its channel. */
  predicate RuleOk(reg: Registry, r: Rule) {
    ChannelOf(reg, r).Some? && (Momentary(reg, r) ==> IsKind(reg, r, State)) && (IsKind(reg, r, State) ==> r.fromState <= 1 && r.toState <= 1)
  }

  /** A rule that fires on a transition; all others are states and end with an edge of their own. */
  predicate IsEdge(reg: Registry, r: Rule) { IsKind(reg, r, State) && r.fromState != r.toState }

  predicate Confirms(reg: Registry, r: Rule) { IsKind(reg, r, State) && !Momentary(reg, r) }

  function EventOf(index: nat, r: Rule, act: bool, t: AlarmType): Event {
    Event(index, r.slot, r.channel, r.sensorType, act, t)
  }

  predicate Pairs(reg: Registry, l: Latch) { !(l.used && IsEdge(reg, l.lastRule)) }

  /** Edges alternate, and the latch is active iff the last one was an activate. */
  ghost predicate Paired(reg: Registry, index: nat, l: Latch, g: Past) {
    && g.mark <= |g.history|
    && (Pairs(reg, l) ==>
          && Alternating(g.history, g.mark) && (l.active <==> Open(g.history, g.mark))
          && (l.active ==> Ends(g.history, EventOf(index, l.lastRule, false, l.EdgeType()))))
  }

  /** Deactivate edge `e` would end the last edge. */
  predicate Ends(h: seq<Event>, e: Event) { h != [] && SameAlarm(h[|h| - 1], e) }

  /** Which timers and types a latch may hold. */
  predicate Consistent(reg: Registry, l: Latch) {
    && (!l.used ==> l == FreshLatch(false, l.lastRule))
    && (l.used ==> RuleOk(reg, l.lastRule))
    && (l.typ != NoType ==> l.used && IsKind(reg, l.lastRule, Threshold))
    && (l.active && IsKind(reg, l.lastRule, Threshold) ==> l.typ == Low || l.typ == High)
    && (l.oneshotExpiry != 0 && !IsEdge(reg, l.lastRule) ==>
          IsKind(reg, l.lastRule, State) && Momentary(reg, l.lastRule) && l.lastRule.fromState == 1 && l.lastRule.toState == 1)
  }

  /** A running confirm time has seen nothing but the level it confirms. */
  ghost predicate Confirming(reg: Registry, l: Latch, g: Past) {
    && (l.used && Confirms(reg, l.lastRule) && l.confirmDeadline != 0 ==>
          && l.havePrevState && l.prevState == l.lastRule.toState && l.lastRule.HoldMs() > 0 && Confirmed(g.evals, l.lastRule, l.confirmDeadline))
    && (g.evals != [] ==> l.havePrevState && l.prevState == g.evals[|g.evals| - 1].level)
    && (l.havePrevState && l.used && Confirms(reg, l.lastRule) ==> g.evals != [])
  }

  /** Activations of an edge rule are at least its hold time apart, and the next will be. */
  ghost predicate Spacing(reg: Registry, l: Latch, g: Past) {
    l.used && IsEdge(reg, l.lastRule) ==>
      && Spaced(g.acts, l.lastRule.HoldMs())
      && (g.acts != [] ==> g.acts[|g.acts| - 1] <= g.clock && NextAct(reg, l, g.acts[|g.acts| - 1] + l.lastRule.HoldMs(), g.clock))
  }

  predicate NextAct(reg: Registry, l: Latch, earliest: nat, clock: nat) {
    if Momentary(reg, l.lastRule) then earliest <= clock || (l.active && l.oneshotExpiry == earliest)
    else l.confirmDeadline != 0 ==> earliest <= l.confirmDeadline
  }

  ghost predicate LatchOk(reg: Registry, index: nat, l: Latch, g: Past) {
    Paired(reg, index, l, g) && Consistent(reg, l) && Confirming(reg, l, g) && Spacing(reg, l, g)
  }

  /** When an evaluation of a sampled level may set this deadline, and start or end the alarm. */
  ghost predicate CanConfirm(reg: Registry, l: Latch, g: Past, lvl: nat, deadline: nat, fire: bool, end: bool, now: nat) {
    var r := l.lastRule;
    && (end ==> !fire && l.active && !IsEdge(reg, r))
    && (fire && !IsEdge(reg, r) ==> !l.active)
    && (deadline != 0 ==> lvl == r.toState && r.HoldMs() > 0 && Confirmed(g.evals + [Eval(now, lvl)], r, deadline))
    && (IsEdge(reg, r) && g.acts != [] && deadline != 0 ==> g.acts[|g.acts| - 1] + r.HoldMs() <= deadline)
    && (IsEdge(reg, r) && fire ==> deadline == 0 && (g.acts != [] ==> g.acts[|g.acts| - 1] + r.HoldMs() <= now))
  }

  lemma ConfirmKeeps(reg: Registry, index: nat, l: Latch, g: Past, lvl: nat, deadline: nat, fire: bool, end: bool, now: nat)
    requires LatchOk(reg, index, l, g) && l.used && Confirms(reg, l.lastRule) && g.clock <= now
    requires CanConfirm(reg, l, g, lvl, deadline, fire, end, now)
    ensures LatchOk(reg, index, Decided(l, lvl, deadline, fire, end, now), DecidedPast(index, l, g, lvl, fire, end, now))
  {
    ConfirmPairs(reg, index, l, g, lvl, deadline, fire, end, now);
    ConfirmSpaces(reg, index, l, g, lvl, deadline, fire, end, now);
    hide Paired, Spacing, Rule.HoldMs, Confirmed, Spaced;
  }

  /** The latch after such an evaluation, and what it has seen by then. */
  function Decided(l: Latch, lvl: nat, deadline: nat, fire: bool, end: bool, now: nat): Latch {
    var r := l.lastRule;
    l.(active := (l.active || fire) && !end, confirmDeadline := deadline, havePrevState := true, prevState := lvl,
       oneshotExpiry := if fire && r.fromState != r.toState then now + r.HoldMs() else l.oneshotExpiry)
  }

  function DecidedPast(index: nat, l: Latch, g: Past, lvl: nat, fire: bool, end: bool, now: nat): Past {
    Past(g.history + (if fire || end then [EventOf(index, l.lastRule, fire, Trigger)] else []), g.mark,
         g.evals + [Eval(now, lvl)], g.acts + (if fire then [now] else []), now)
  }

  lemma ConfirmPairs(reg: Registry, index: nat, l: Latch, g: Past, lvl: nat, deadline: nat, fire: bool, end: bool, now: nat)
    requires LatchOk(reg, index, l, g) && l.used && Confirms(reg, l.lastRule)
    requires CanConfirm(reg, l, g, lvl, deadline, fire, end, now)
    ensures Paired(reg, index, Decided(l, lvl, deadline, fire, end, now), DecidedPast(index, l, g, lvl, fire, end, now))
  {
    hide Alternating, Open, Rule.HoldMs, Confirmed, Spaced;
    if Pairs(reg, l) && (fire || end) {
      PushEvent(g.history, g.mark, EventOf(index, l.lastRule, fire, Trigger));
    }
    assert g.history + [] == g.history;
  }

  lemma ConfirmSpaces(reg: Registry, index: nat, l: Latch, g: Past, lvl: nat, deadline: nat, fire: bool, end: bool, now: nat)
    requires LatchOk(reg, index, l, g) && l.used && Confirms(reg, l.lastRule) && g.clock <= now
    requires CanConfirm(reg, l, g, lvl, deadline, fire, end, now)
    ensures Spacing(reg, Decided(l, lvl, deadline, fire, end, now), DecidedPast(index, l, g, lvl, fire, end, now))
  {
    hide Rule.HoldMs, Confirmed, Spaced, Paired;
    if fire && IsEdge(reg, l.lastRule) {
      SpacedPush(g.acts, l.lastRule.HoldMs(), now);
    }
    assert g.acts + [] == g.acts;
  }

  lemma LimitType(reg: Registry, index: nat, l: Latch, g: Past)
    requires LatchOk(reg, index, l, g)
    ensures l.active && IsKind(reg, l.lastRule, Threshold) ==> l.typ == Low || l.typ == High
  {
  }

  // ---- What a step makes of a latch ----------------------------------------------------------------

  /** The latch after a step, and the edges the step queues. */
  datatype Outcome = Outcome(latch: Latch, edges: seq<Event>)

  function Seen(l: Latch, level: nat): Latch { l.(havePrevState := true, prevState := level) }

  /** The stored rule is `r`: any change, or none left, ends the alarm and starts over. */
  function Synced(index: nat, l: Latch, r: Option<Rule>): Outcome {
    if l.used && r == Some(l.lastRule) then Outcome(l, [])
    else Outcome(FreshLatch(r.Some?, if r.Some? then r.value else l.lastRule),
                 if l.active then [EventOf(index, l.lastRule, false, l.EdgeType())] else [])
  }

  /** A threshold rule; a value that crosses to the other limit ends one alarm and starts another. */
  function Limited(index: nat, l: Latch, r: Rule, value: Option<real>): Outcome {
    var side := if r.enabled && value.Some? then Hysteresis(Side(l), r, value.value) else NoType;
    Outcome(l.(active := side != NoType, typ := if side == NoType then l.typ else side), EdgesBetween(index, r, Side(l), side))
  }

  /** The value is beyond limit `t`. */
  predicate Beyond(r: Rule, t: AlarmType, v: real) {
    if t == Low then v < r.lo else v > r.hi && v >= r.lo
  }

  /** An alarm at limit `t` outlasts the value: it is beyond the limit, or within its deadband and not beyond
      the other. */
  predicate Holds(r: Rule, t: AlarmType, v: real) {
    || Beyond(r, t, v)
    || if t == Low then v <= r.lo + Max0(r.dwell) && v <= r.hi else v >= r.hi - Max0(r.dwell) && v >= r.lo
  }

  /** The latch is in alarm at limit `t`. */
  predicate AlarmAt(l: Latch, t: AlarmType) { l.active && l.typ == t }

  /** One evaluation of limit `t`: in alarm afterwards exactly if the rule is enabled, there is a reading, and
      it is beyond the limit or an alarm at it outlasts the reading; and an edge goes out exactly if that is
      a change. */
  predicate LimitStep(index: nat, was: Latch, now: Latch, r: Rule, value: Option<real>, out: seq<Event>, t: AlarmType) {
    && (AlarmAt(now, t) <==>
          r.enabled && value.Some? && (Beyond(r, t, value.value) || (AlarmAt(was, t) && Holds(r, t, value.value))))
    && (EventOf(index, r, true, t) in out <==> AlarmAt(now, t) && !AlarmAt(was, t))
    && (EventOf(index, r, false, t) in out <==> AlarmAt(was, t) && !AlarmAt(now, t))
  }

  /** One evaluation of both limits: no other edge goes out, and an alarm ends before the other starts. */
  predicate LimitSteps(index: nat, was: Latch, now: Latch, r: Rule, value: Option<real>, out: seq<Event>) {
    && LimitStep(index, was, now, r, value, out, Low) && LimitStep(index, was, now, r, value, out, High)
    && (now.active ==> now.typ == Low || now.typ == High)
    && (forall e :: e in out ==> e == EventOf(index, r, e.active, e.typ) && (e.typ == Low || e.typ == High))
    && |out| <= 2 && (|out| == 2 ==> !out[0].active && out[1].active)
  }

  /** What the hysteresis comes to. */
  lemma LimitedIs(index: nat, l: Latch, r: Rule, value: Option<real>)
    requires l.active ==> l.typ == Low || l.typ == High
    ensures var o := Limited(index, l, r, value); LimitSteps(index, l, o.latch, r, value, o.edges)
  {
    var on, off := EventOf(index, r, true, Low), EventOf(index, r, false, Low);
    assert on.active && !off.active;
  }

  /** When a new counting window starts: at first, after the counter went back, with an alarm, and when
      the window is over. */
  predicate Restarts(l: Latch, r: Rule, cur: nat, now: nat, reportMs: nat) {
    || !r.enabled || !l.havePrevCount || cur < l.prevCount || (!l.active && Over(l, r, cur))
    || now >= l.windowStart + Window(r, reportMs)
  }

  function Counted(index: nat, l: Latch, r: Rule, cur: nat, now: nat, reportMs: nat): Outcome {
    var on := RateAlarm(l, r, cur, now, reportMs);
    var next := if Restarts(l, r, cur, now, reportMs) then l.(havePrevCount := true, prevCount := cur, windowStart := now) else l;
    Outcome(next.(active := on), EdgesBetween(index, r, if l.active then Trigger else NoType, if on then Trigger else NoType))
  }

  /** A state rule that is disabled or inert. */
  function Inert(index: nat, l: Latch, r: Rule, cur: bool): Outcome {
    Outcome(Seen(l.(active := false, oneshotExpiry := if l.active then 0 else l.oneshotExpiry, confirmDeadline := 0), Level(cur)),
            if l.active then [EventOf(index, r, false, Trigger)] else [])
  }

  /** Stillness: an event ends it, and its quiet time starts again. */
  function Stilled(index: nat, l: Latch, r: Rule, cur: bool, now: nat): Outcome {
    Outcome(Seen(if cur then l.(active := false, confirmDeadline := now + r.HoldMs()) else l, Level(cur)),
            if cur && l.active then [EventOf(index, r, false, Trigger)] else [])
  }

  function Lapsed(l: Latch, now: nat): bool { l.active && l.oneshotExpiry != 0 && now >= l.oneshotExpiry }

  /** A one-shot that may lapse: with an edge if the rule is a state. */
  function Expired(index: nat, l: Latch, r: Rule, now: nat): Outcome {
    if Lapsed(l, now)
    then Outcome(l.(active := false, oneshotExpiry := 0), if r.fromState == r.toState then [EventOf(index, r, false, Trigger)] else [])
    else Outcome(l, [])
  }

  /** The other momentary rules: an event starts or, for 1 -> 1, prolongs what the hold time ends. */
  function Pulsed(index: nat, l: Latch, r: Rule, cur: bool, now: nat): Outcome {
    var held := Expired(index, l, r, now);
    var fire := cur && !held.latch.active;
    Outcome(Seen(if fire || (cur && r.fromState == r.toState) then held.latch.(active := true, oneshotExpiry := now + r.HoldMs()) else held.latch, Level(cur)),
            held.edges + if fire then [EventOf(index, r, true, Trigger)] else [])
  }

  /** The level starts to be confirmed: a transition was seen, or the alarm is not on. */
  predicate Begins(l: Latch, r: Rule, lvl: nat) {
    lvl == r.toState && if r.fromState != r.toState then l.havePrevState && l.prevState == r.fromState else !l.active
  }

  predicate Fires(l: Latch, r: Rule, lvl: nat, now: nat) {
    && lvl == r.toState && (r.fromState != r.toState || !l.active)
    && if l.confirmDeadline == 0 then Begins(l, r, lvl) && r.HoldMs() == 0 else now >= l.confirmDeadline
  }

  /** When the level will be confirmed; 0 if it is not being confirmed. */
  function Due(l: Latch, r: Rule, lvl: nat, now: nat): nat {
    if lvl != r.toState || Fires(l, r, lvl, now) then 0
    else if l.confirmDeadline == 0 && Begins(l, r, lvl) then now + r.HoldMs()
    else l.confirmDeadline
  }

  /** A sampled level: an alarm on a transition is over when its hold time is, one on a level ends with
      the level. */
  function Levelled(index: nat, l: Latch, r: Rule, lvl: nat, now: nat): Outcome {
    var edge, fire := r.fromState != r.toState, Fires(l, r, lvl, now);
    var end := !edge && lvl != r.toState && l.active;
    Outcome(Seen(l.(active := (l.active || fire) && !end, confirmDeadline := Due(l, r, lvl, now),
                    oneshotExpiry := if fire && edge then now + r.HoldMs() else l.oneshotExpiry), lvl),
            if fire || end then [EventOf(index, r, fire, Trigger)] else [])
  }

  /** A state rule: the level `cur`, or the event `cur` of a momentary channel. */
  function Evaluated(reg: Registry, index: nat, l: Latch, r: Rule, cur: bool, now: nat): Outcome {
    if !r.enabled then Inert(index, l, r, cur)
    else if Momentary(reg, r) then (if r.Stillness() then Stilled(index, l, r, cur, now) else Pulsed(index, l, r, cur, now))
    else Levelled(index, l, r, Level(cur), now)
  }

  /** A stillness whose quiet time has passed is raised; one with no quiet time yet gets one. */
  function Quietened(reg: Registry, index: nat, l: Latch, armed: bool, now: nat): Outcome {
    var r := l.lastRule;
    if !(armed && Momentary(reg, r) && r.Stillness()) || l.active then Outcome(l, [])
    else if l.confirmDeadline == 0 then Outcome(l.(confirmDeadline := now + r.HoldMs()), [])
    else if now >= l.confirmDeadline then Outcome(l.(active := true, confirmDeadline := 0), [EventOf(index, r, true, Trigger)])
    else Outcome(l, [])
  }

  /** A one-shot whose hold time has passed ends; with an edge if the rule is a motion. */
  function Released(reg: Registry, index: nat, l: Latch, now: nat): Outcome {
    var r := l.lastRule;
    if l.oneshotExpiry == 0 || now < l.oneshotExpiry then Outcome(l, [])
    else Outcome(l.(active := false, oneshotExpiry := 0),
                 if l.active && Momentary(reg, r) && r.fromState == 1 && r.toState == 1 then [EventOf(index, r, false, Trigger)] else [])
  }

  /** The sweep. */
  function Swept(reg: Registry, index: nat, l: Latch, armed: bool, now: nat): Outcome {
    var q := Quietened(reg, index, l, armed, now);
    var e := Released(reg, index, q.latch, now);
    Outcome(e.latch, q.edges + e.edges)
  }

  /** Evaluating a sampled level keeps what is asked of a latch, and an activation of a rule with a confirm
      time follows a level that has held for that long. */
  lemma LevelledCan(reg: Registry, index: nat, l: Latch, g: Past, lvl: nat, now: nat)
    requires LatchOk(reg, index, l, g) && l.used && Confirms(reg, l.lastRule) && g.clock <= now
    ensures var r := l.lastRule; var end := r.fromState == r.toState && lvl != r.toState && l.active;
      && CanConfirm(reg, l, g, lvl, Due(l, r, lvl, now), Fires(l, r, lvl, now), end, now)
      && (Fires(l, r, lvl, now) && r.HoldMs() > 0 ==> Confirmed(g.evals + [Eval(now, lvl)], r, now))
  {
    hide Alternating, Open, Rule.HoldMs, Confirmed, Spaced;
    var r := l.lastRule;
    if lvl == r.toState {
      if l.confirmDeadline != 0 {
        ConfirmOn(g.evals, r, l.confirmDeadline, now, l.confirmDeadline);
        if now >= l.confirmDeadline {
          ConfirmOn(g.evals, r, l.confirmDeadline, now, now);
        }
      } else if Begins(l, r, lvl) {
        ConfirmStart(g.evals, r, now);
      }
    }
  }

  // ---- What a step adds to the past ----------------------------------------------------------------

  function Added(g: Past, out: seq<Event>): Past { g.(history := g.history + out) }

  /** The step started the alarm. */
  predicate Fired(out: seq<Event>) { out != [] && out[|out| - 1].active }

  /** A changed, new or cleared rule starts over; of a transition rule's edges nothing is asked later. */
  function AfterSync(reg: Registry, l: Latch, g: Past, r: Option<Rule>, out: seq<Event>): Past {
    if r == if l.used then Some(l.lastRule) else None then g
    else Past(g.history + out, if Pairs(reg, l) then g.mark else |g.history + out|, [], [], g.clock)
  }

  /** One evaluation at level `lvl`: it, and the activation it may be, are on record. */
  function AfterEval(g: Past, out: seq<Event>, lvl: nat, now: nat): Past {
    Past(g.history + out, g.mark, g.evals + [Eval(now, lvl)], g.acts + if Fired(out) then [now] else [], now)
  }

  /** A disabled rule starts over with the level it was evaluated at. */
  function AfterInert(g: Past, out: seq<Event>, lvl: nat, now: nat): Past {
    Past(g.history + out, g.mark, [Eval(now, lvl)], [], now)
  }

  function AfterState(g: Past, r: Rule, out: seq<Event>, lvl: nat, now: nat): Past {
    if r.enabled then AfterEval(g, out, lvl, now) else AfterInert(g, out, lvl, now)
  }

  function AfterSweep(g: Past, raised: bool, out: seq<Event>, now: nat): Past {
    Past(g.history + out, g.mark, g.evals, g.acts + if raised then [now] else [], if now > g.clock then now else g.clock)
  }

  /** A momentary rule has no confirm time to keep. */
  lemma SeenKeeps(reg: Registry, index: nat, l: Latch, g: Past, evals: seq<Eval>, level: nat)
    requires Paired(reg, index, l, g) && Consistent(reg, l) && Spacing(reg, l, g) && l.used && Momentary(reg, l.lastRule)
    requires evals != [] && evals[|evals| - 1].level == level
    ensures LatchOk(reg, index, Seen(l, level), g.(evals := evals))
  {
    hide Alternating, Open, Rule.HoldMs, Spaced, Confirmed;
  }

  /** A latch and its past. */
  datatype Trace = Trace(latch: Latch, past: Past)

  class RuleLatch {
    const index: nat
    const reg: Registry
    var rt: Latch
    ghost var past: Past

    constructor (i: nat, registry: Registry, empty: Rule)
      ensures Valid() && rt == FreshLatch(false, empty) && past == Past([], 0, [], [], 0) && index == i && reg == registry
    {
      index, reg := i, registry;
      rt := FreshLatch(false, empty);
      past := Past([], 0, [], [], 0);
    }

    ghost predicate Valid()
      reads this
    {
      LatchOk(reg, index, rt, past)
    }

    ghost function Now(): Trace
      reads this
    {
      Trace(rt, past)
    }

    /** The rule of this latch, or that rule found inert (`rt_sync_armed`). */
    predicate Same(rule: Rule)
      reads this
    {
      rule == rt.lastRule || rule == rt.lastRule.(enabled := false)
    }

    /** `rt_sync`: a rule that was cleared or changed at all ends its alarm and resets the latch. */
    method Sync(r: Option<Rule>) returns (out: seq<Event>)
      requires Valid() && (r.Some? ==> RuleOk(reg, r.value))
      modifies this
      ensures Valid() && Own(out, index) && past == AfterSync(reg, old(rt), old(past), r, out)
      ensures Outcome(rt, out) == Synced(index, old(rt), r) && past.history == old(past).history + out
    {
      hide Alternating, Open, Rule.HoldMs, Confirmed, Spaced, SameAlarm, RuleOk;
      out := [];
      assert past.history + [] == past.history;
      if (r.None? && rt.used) || (r.Some? && (!rt.used || rt.lastRule != r.value)) {
        if rt.active {
          out := [EventOf(index, rt.lastRule, false, rt.EdgeType())];
        }
        ghost var h := past.history + out;
        if Pairs(reg, rt) {
          if rt.active {
            PushEvent(past.history, past.mark, out[0]);
          }
          past := Past(h, past.mark, [], [], past.clock);
        } else {
          NoEdges(h);
          past := Past(h, |h|, [], [], past.clock);
        }
        rt := FreshLatch(r.Some?, if r.Some? then r.value else rt.lastRule);
        NoActs(rt.lastRule.HoldMs());
      }
    }

    /** Put one edge on record. */
    ghost function With(e: Event): Past
      reads this
    {
      past.(history := past.history + [e])
    }

    /** `eval_threshold`: latch outside [lo, hi], clear past the deadband. A reading that crosses to the
        other limit ends one alarm and starts the other at once. */
    method EvalThreshold(rule: Rule, value: Option<real>) returns (out: seq<Event>)
      requires Valid() && rt.used && IsKind(reg, rule, Threshold) && Same(rule)
      modifies this
      ensures Valid() && Own(out, index) && past == Added(old(past), out)
      ensures Outcome(rt, out) == Limited(index, old(rt), rule, value)
      ensures LimitSteps(index, old(rt), rt, rule, value, out)
    {
      hide LatchOk, Paired, Rule.HoldMs, LimitSteps;
      LimitType(reg, index, rt, past);
      LimitedIs(index, rt, rule, value);
      out := [];
      assert past.history + [] == past.history;
      if !rule.enabled || value.None? {
        if rt.active {
          out := EndLimit(rule);
        }
        return;
      }
      var v := value.value;
      var db := Max0(rule.dwell);
      var want := if v < rule.lo then Low else if v > rule.hi then High else NoType;
      if rt.active {
        if want == rt.typ {
          return;
        }
        var cleared := if rt.typ == High then v < rule.hi - db else v > rule.lo + db;
        if !cleared && want == NoType {
          return;
        }
        out := EndLimit(rule);
      }
      if want == NoType {
        return;
      }
      ghost var first, h := out, old(past).history;
      var fresh' := StartLimit(rule, want);
      out := out + fresh';
      assert (h + first) + fresh' == h + out;
    }

    /** The edges of a threshold latch. */
    method EndLimit(rule: Rule) returns (out: seq<Event>)
      requires Valid() && rt.used && IsKind(reg, rule, Threshold) && Same(rule) && rt.active
      modifies `rt, `past
      ensures Valid() && past == Added(old(past), out) && rt == old(rt).(active := false)
      ensures out == [EventOf(index, rule, false, old(rt).typ)]
    {
      hide Alternating, Open, Rule.HoldMs, Confirmed, Spaced;
      out := [EventOf(index, rule, false, rt.typ)];
      PushEvent(past.history, past.mark, out[0]);
      past := With(out[0]);
      rt := rt.(active := false);
    }

    method StartLimit(rule: Rule, want: AlarmType) returns (out: seq<Event>)
      requires Valid() && rt.used && IsKind(reg, rule, Threshold) && Same(rule) && !rt.active && want in {Low, High}
      modifies `rt, `past
      ensures Valid() && past == Added(old(past), out) && rt == old(rt).(active := true, typ := want)
      ensures out == [EventOf(index, rule, true, want)]
    {
      hide Alternating, Open, Rule.HoldMs, Confirmed, Spaced;
      out := [EventOf(index, rule, true, want)];
      PushEvent(past.history, past.mark, out[0]);
      past := With(out[0]);
      rt := rt.(active := true, typ := want);
    }

    /** `eval_count`: alarm when the counter rose by `hi` or more within one window. */
    method EvalCount(rule: Rule, cur: nat, now: nat, reportMs: nat) returns (out: seq<Event>)
      requires Valid() && rt.used && IsKind(reg, rule, Rate) && Same(rule)
      modifies this
      ensures Valid() && Own(out, index) && past == Added(old(past), out)
      ensures Outcome(rt, out) == Counted(index, old(rt), rule, cur, now, reportMs)
    {
      hide Alternating, Open, Rule.HoldMs, Confirmed, Spaced;
      out := [];
      assert past.history + [] == past.history;
      if !rt.havePrevCount || !rule.enabled {
        if rt.active {
          out := [EventOf(index, rule, false, Trigger)];
          PushEvent(past.history, past.mark, out[0]);
          past := With(out[0]);
        }
        rt := rt.(active := false, havePrevCount := true, prevCount := cur, windowStart := now);
        return;
      }
      if cur < rt.prevCount {
        rt := rt.(prevCount := cur, windowStart := now);
        return;
      }
      var closed := now >= rt.windowStart + Window(rule, reportMs);
      var delta := cur - rt.prevCount;
      var over := rule.hi > 0.0 && delta as real >= rule.hi;
      if !rt.active {
        if over {
          out := [EventOf(index, rule, true, Trigger)];
          PushEvent(past.history, past.mark, out[0]);
          past := With(out[0]);
          rt := rt.(active := true);
        } else if !closed {
          return;
        }
      } else {
        if !closed {
          return;
        }
        if !over {
          out := [EventOf(index, rule, false, Trigger)];
          PushEvent(past.history, past.mark, out[0]);
          past := With(out[0]);
          rt := rt.(active := false);
        }
      }
      rt := rt.(prevCount := cur, windowStart := now);
    }

    /** `eval_state` of a rule that is disabled or inert. */
    method DisableState(rule: Rule, cur: bool, now: nat) returns (out: seq<Event>)
      requires Valid() && rt.used && IsKind(reg, rule, State) && Same(rule) && past.clock <= now
      modifies this
      ensures Valid() && Own(out, index) && past == AfterInert(old(past), out, Level(cur), now)
      ensures Outcome(rt, out) == Inert(index, old(rt), rule, cur)
    {
      hide Alternating, Open, Rule.HoldMs, Confirmed, Spaced;
      out := if rt.active then [EventOf(index, rule, false, Trigger)] else [];
      if rt.active && Pairs(reg, rt) {
        PushEvent(past.history, past.mark, out[0]);
      }
      NoActs(rt.lastRule.HoldMs());
      assert past.history + [] == past.history;
      past := Past(past.history + out, past.mark, [Eval(now, Level(cur))], [], now);
      if rt.active {
        rt := rt.(active := false, oneshotExpiry := 0);
      }
      rt := rt.(confirmDeadline := 0, havePrevState := true, prevState := Level(cur));
    }

    /** `eval_state`, momentary 0 -> 0: an event ends the stillness and restarts its quiet time. */
    method EvalStillness(rule: Rule, cur: bool, now: nat) returns (out: seq<Event>)
      requires Valid() && rt.used && IsKind(reg, rule, State) && rule == rt.lastRule && past.clock <= now
      requires Momentary(reg, rule) && rule.Stillness()
      modifies this
      ensures Valid() && Own(out, index) && past == AfterEval(old(past), out, Level(cur), now)
      ensures Outcome(rt, out) == Stilled(index, old(rt), rule, cur, now)
    {
      hide Alternating, Open, Rule.HoldMs, Confirmed, Spaced;
      out := [];
      if cur {
        if rt.active {
          out := [EventOf(index, rule, false, Trigger)];
          PushEvent(past.history, past.mark, out[0]);
        }
        rt := rt.(confirmDeadline := now + rule.HoldMs(), active := false);
      }
      assert past.history + [] == past.history && past.acts + [] == past.acts;
      rt := rt.(havePrevState := true, prevState := Level(cur));
      past := Past(past.history + out, past.mark, past.evals + [Eval(now, Level(cur))], past.acts, now);
    }

    /** `eval_state` of the other momentary rules: 1 -> 1 lasts as long as events keep coming within
        the hold time, a transition is a one-shot that holds for that time. */
    method EvalMomentary(rule: Rule, cur: bool, now: nat) returns (out: seq<Event>)
      requires Valid() && rt.used && IsKind(reg, rule, State) && rule == rt.lastRule && past.clock <= now
      requires Momentary(reg, rule) && !rule.Stillness()
      modifies this
      ensures Valid() && Own(out, index) && past == AfterEval(old(past), out, Level(cur), now)
      ensures Outcome(rt, out) == Pulsed(index, old(rt), rule, cur, now)
    {
      hide Paired, Consistent, Confirming, Spacing, Rule.HoldMs;
      ghost var evals := past.evals + [Eval(now, Level(cur))];
      out := ExpireShot(rule, now);
      if cur {
        var fired := FireShot(rule, now);
        out := out + fired;
      } else {
        assert out + [] == out;
      }
      SeenKeeps(reg, index, rt, past, evals, Level(cur));
      rt := rt.(havePrevState := true, prevState := Level(cur));
      past := past.(evals := evals);
    }

    /** An event: start the alarm, or hold on to a motion. */
    method FireShot(rule: Rule, now: nat) returns (out: seq<Event>)
      requires Paired(reg, index, rt, past) && Consistent(reg, rt) && Spacing(reg, rt, past)
      requires rt.used && IsKind(reg, rule, State) && rule == rt.lastRule && past.clock == now
      requires Momentary(reg, rule) && !rule.Stillness()
      modifies this
      ensures Paired(reg, index, rt, past) && Consistent(reg, rt) && Spacing(reg, rt, past)
      ensures past == old(past).(history := old(past).history + out, acts := old(past).acts + if old(rt).active then [] else [now])
      ensures out == if old(rt).active then [] else [EventOf(index, rule, true, Trigger)]
      ensures rt == if old(rt).active && rule.fromState != rule.toState then old(rt) else old(rt).(active := true, oneshotExpiry := now + rule.HoldMs())
    {
      hide Alternating, Open, Rule.HoldMs, Spaced;
      out := [];
      assert past.history + [] == past.history && past.acts + [] == past.acts;
      if !rt.active {
        ghost var e := EventOf(index, rule, true, Trigger);
        if rule.fromState == rule.toState {
          PushEvent(past.history, past.mark, e);
        } else {
          SpacedPush(past.acts, rule.HoldMs(), now);
        }
        past := With(e).(acts := past.acts + [now]);
        out := [EventOf(index, rule, true, Trigger)];
        rt := rt.(active := true, oneshotExpiry := now + rule.HoldMs());
      } else if rule.fromState == rule.toState {
        rt := rt.(oneshotExpiry := now + rule.HoldMs());
      }
    }

    /** A lapsed one-shot ends; with an edge if the rule is a state. */
    method ExpireShot(rule: Rule, now: nat) returns (out: seq<Event>)
      requires Valid() && rt.used && IsKind(reg, rule, State) && rule == rt.lastRule && past.clock <= now
      requires Momentary(reg, rule) && !rule.Stillness()
      modifies this
      ensures Paired(reg, index, rt, past) && Consistent(reg, rt)
      ensures Own(out, index) && past == old(past).(history := old(past).history + out, clock := now)
      ensures Outcome(rt, out) == Expired(index, old(rt), rule, now)
      ensures Spacing(reg, rt, past) && (IsEdge(reg, rule) ==> out == [])
    {
      hide Alternating, Open, Rule.HoldMs, Confirming, Spaced;
      out := [];
      if rt.active && rt.oneshotExpiry != 0 && now >= rt.oneshotExpiry {
        if rule.fromState == rule.toState {
          out := [EventOf(index, rule, false, Trigger)];
          PushEvent(past.history, past.mark, out[0]);
        }
        rt := rt.(active := false, oneshotExpiry := 0);
      }
      assert past.history + [] == past.history;
      past := past.(history := past.history + out, clock := now);
    }

    /** Record one evaluation: the confirm deadline from now on, and whether the alarm starts or ends. */
    method Confirm(rule: Rule, lvl: nat, deadline: nat, fire: bool, end: bool, now: nat) returns (out: seq<Event>)
      requires Valid() && rt.used && Confirms(reg, rule) && rule == rt.lastRule && past.clock <= now
      requires CanConfirm(reg, rt, past, lvl, deadline, fire, end, now)
      modifies this
      ensures Valid() && Own(out, index) && past == AfterEval(old(past), out, lvl, now)
      ensures out == if fire || end then [EventOf(index, rule, fire, Trigger)] else []
      ensures rt == Seen(old(rt.(active := (rt.active || fire) && !end, confirmDeadline := deadline,
                                 oneshotExpiry := if fire && rule.fromState != rule.toState then now + rule.HoldMs() else rt.oneshotExpiry)), lvl)
    {
      hide LatchOk, Rule.HoldMs, Confirmed;
      out := if fire || end then [EventOf(index, rule, fire, Trigger)] else [];
      ConfirmKeeps(reg, index, rt, past, lvl, deadline, fire, end, now);
      past := Past(past.history + out, past.mark, past.evals + [Eval(now, lvl)], past.acts + if fire then [now] else [], now);
      if fire && rule.fromState != rule.toState {
        rt := rt.(oneshotExpiry := now + rule.HoldMs());
      }
      rt := rt.(active := (rt.active || fire) && !end, confirmDeadline := deadline, havePrevState := true, prevState := lvl);
    }

    /** `eval_state` of a sampled level, for a transition: it is confirmed, then held. */
    method EvalTransition(rule: Rule, lvl: nat, now: nat) returns (out: seq<Event>)
      requires Valid() && rt.used && Confirms(reg, rule) && rule == rt.lastRule && past.clock <= now && rule.fromState != rule.toState
      modifies this
      ensures Valid() && Own(out, index) && past == AfterEval(old(past), out, lvl, now)
      ensures Outcome(rt, out) == Levelled(index, old(rt), rule, lvl, now)
      ensures rule.HoldMs() > 0 && out != [] && out[0].active ==> Confirmed(past.evals, rule, now)
    {
      hide LatchOk, CanConfirm, Rule.HoldMs, Confirmed;
      var r := rt;
      LevelledCan(reg, index, r, past, lvl, now);
      var transition := r.havePrevState && r.prevState == rule.fromState && lvl == rule.toState;
      if transition && r.confirmDeadline == 0 {
        if rule.HoldMs() <= 0 {
          out := Confirm(rule, lvl, 0, true, false, now);
        } else {
          out := Confirm(rule, lvl, now + rule.HoldMs(), false, false, now);
        }
      } else if r.confirmDeadline != 0 && lvl != rule.toState {
        out := Confirm(rule, lvl, 0, false, false, now);
      } else if r.confirmDeadline != 0 && now >= r.confirmDeadline {
        out := Confirm(rule, lvl, 0, true, false, now);
      } else {
        out := Confirm(rule, lvl, r.confirmDeadline, false, false, now);
      }
    }

    /** `eval_state` of a sampled level, for a level: it is confirmed, and its alarm ends with it. */
    method EvalConfirmed(rule: Rule, lvl: nat, now: nat) returns (out: seq<Event>)
      requires Valid() && rt.used && Confirms(reg, rule) && rule == rt.lastRule && past.clock <= now && rule.fromState == rule.toState
      modifies this
      ensures Valid() && Own(out, index) && past == AfterEval(old(past), out, lvl, now)
      ensures Outcome(rt, out) == Levelled(index, old(rt), rule, lvl, now)
      ensures rule.HoldMs() > 0 && out != [] && out[0].active ==> Confirmed(past.evals, rule, now)
    {
      hide LatchOk, CanConfirm, Rule.HoldMs, Confirmed;
      var r := rt;
      LevelledCan(reg, index, r, past, lvl, now);
      NoHoldNoDeadline(reg, index, r, past);
      if lvl != rule.toState {
        out := Confirm(rule, lvl, 0, false, r.active, now);
      } else if !r.active && rule.HoldMs() <= 0 {
        out := Confirm(rule, lvl, r.confirmDeadline, true, false, now);
      } else if !r.active && r.confirmDeadline == 0 {
        out := Confirm(rule, lvl, now + rule.HoldMs(), false, false, now);
      } else if r.active || now < r.confirmDeadline {
        out := Confirm(rule, lvl, r.confirmDeadline, false, false, now);
      } else {
        out := Confirm(rule, lvl, 0, true, false, now);
      }
    }

    /** `eval_state`: one evaluation of a digital level, or one event of a momentary channel. An
        activation of a rule with a confirm time follows a level that has held for that long. */
    method EvalState(rule: Rule, cur: bool, now: nat) returns (out: seq<Event>)
      requires Valid() && rt.used && IsKind(reg, rule, State) && Same(rule) && past.clock <= now
      modifies this
      ensures Valid() && Own(out, index) && past == AfterState(old(past), rule, out, Level(cur), now)
      ensures Outcome(rt, out) == Evaluated(reg, index, old(rt), rule, cur, now)
      ensures Confirms(reg, rule) && rule.HoldMs() > 0 && out != [] && out[0].active ==> Confirmed(past.evals, rule, now)
    {
      hide LatchOk, Confirmed, Rule.HoldMs;
      if !rule.enabled {
        out := DisableState(rule, cur, now);
      } else {
        if Momentary(reg, rule) && rule.Stillness() {
          out := EvalStillness(rule, cur, now);
        } else if Momentary(reg, rule) {
          out := EvalMomentary(rule, cur, now);
        } else if rule.fromState != rule.toState {
          out := EvalTransition(rule, Level(cur), now);
        } else {
          out := EvalConfirmed(rule, Level(cur), now);
        }
      }
    }

    /** The sweep's first half: a stillness whose quiet time has passed. `armed` says whether the stored
        rule is. */
    method Quieten(armed: bool, now: nat) returns (out: seq<Event>)
      requires Valid() && rt.used
      modifies this
      ensures Valid() && Own(out, index)
      ensures past == old(past).(history := old(past).history + out, acts := old(past).acts + if out != [] then [now] else [])
      ensures Outcome(rt, out) == Quietened(reg, index, old(rt), armed, now)
    {
      hide Alternating, Open, Rule.HoldMs, Spaced, Confirmed;
      out := [];
      assert past.history + [] == past.history && past.acts + [] == past.acts;
      if armed && Momentary(reg, rt.lastRule) && rt.lastRule.Stillness() && !rt.active {
        if rt.confirmDeadline == 0 {
          rt := rt.(confirmDeadline := now + rt.lastRule.HoldMs());
        } else if now >= rt.confirmDeadline {
          out := [EventOf(index, rt.lastRule, true, Trigger)];
          PushEvent(past.history, past.mark, out[0]);
          past := With(out[0]).(acts := past.acts + [now]);
          rt := rt.(confirmDeadline := 0, active := true);
        }
      }
    }

    /** The sweep's second half: a one-shot whose hold time has passed. */
    method Release(now: nat) returns (out: seq<Event>)
      requires Valid() && rt.used && now <= past.clock
      modifies this
      ensures Valid() && Own(out, index) && past == old(past).(history := old(past).history + out)
      ensures Outcome(rt, out) == Released(reg, index, old(rt), now)
    {
      hide Alternating, Open, Rule.HoldMs, Spaced, Confirmed;
      out := [];
      assert past.history + [] == past.history;
      if rt.oneshotExpiry != 0 && now >= rt.oneshotExpiry {
        if rt.active && Momentary(reg, rt.lastRule) && rt.lastRule.fromState == 1 && rt.lastRule.toState == 1 {
          out := [EventOf(index, rt.lastRule, false, Trigger)];
          PushEvent(past.history, past.mark, out[0]);
          past := With(out[0]);
        }
        rt := rt.(active := false, oneshotExpiry := 0);
      }
    }

    /** The sweep of `app_alarm_poll`: raise a stillness whose quiet time has passed, end a one-shot
        whose hold time has. */
    method Sweep(armed: bool, now: nat) returns (out: seq<Event>)
      requires Valid() && rt.used
      modifies this
      ensures Valid() && Own(out, index) && past == AfterSweep(old(past), Quietened(reg, index, old(rt), armed, now).edges != [], out, now)
      ensures Outcome(rt, out) == Swept(reg, index, old(rt), armed, now)
    {
      hide LatchOk, Rule.HoldMs, Released;
      ClockOn(reg, index, rt, past, if now > past.clock then now else past.clock);
      past := past.(clock := if now > past.clock then now else past.clock);
      out := Quieten(armed, now);
      var ended := Release(now);
      out := out + ended;
    }
  }

  lemma NoHoldNoDeadline(reg: Registry, index: nat, l: Latch, g: Past)
    requires LatchOk(reg, index, l, g) && l.used && Confirms(reg, l.lastRule)
    ensures l.confirmDeadline != 0 ==> l.lastRule.HoldMs() > 0
  {
    hide Alternating, Open, Rule.HoldMs, Confirmed, Spaced;
  }

  lemma ClockOn(reg: Registry, index: nat, l: Latch, g: Past, now: nat)
    requires LatchOk(reg, index, l, g) && g.clock <= now
    ensures LatchOk(reg, index, l, g.(clock := now))
  {
    hide Alternating, Open, Rule.HoldMs, Spaced, Confirmed;
  }
}
