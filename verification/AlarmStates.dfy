/** Runs of one unchanged, armed state rule: exactly when its alarm is on and which edges it queues, in terms
    of the samples, events and sweeps alone. */
module AlarmStates {
  import opened Bytes
  import opened AlarmRuleLatch
  import opened AlarmRuns

  /** The edges that call `k` queues. */
  function Queued(reg: Registry, index: nat, r: Rule, cs: seq<Call>, k: nat): seq<Event>
    requires k < |cs|
  {
    EdgesAt(reg, index, Ran(reg, index, r, cs[..k]), cs[k])
  }

  function On(index: nat, r: Rule): seq<Event> { [EventOf(index, r, true, Trigger)] }

  function Off(index: nat, r: Rule): seq<Event> { [EventOf(index, r, false, Trigger)] }

  lemma RanNext(reg: Registry, index: nat, r: Rule, cs: seq<Call>)
    requires cs != []
    ensures Ran(reg, index, r, cs) == CallTrace(reg, index, Ran(reg, index, r, cs[..|cs| - 1]), cs[|cs| - 1])
    ensures Queued(reg, index, r, cs, |cs| - 1) == EdgesAt(reg, index, Ran(reg, index, r, cs[..|cs| - 1]), cs[|cs| - 1])
  {
  }

  // ---- Sampled levels ------------------------------------------------------------------------------

  /** The level has been the rule's since sample `b`, and was not before it. */
  ghost predicate Since(r: Rule, es: seq<Eval>, b: nat) {
    && b < |es| && (forall m :: b <= m < |es| ==> es[m].level == r.toState)
    && (b > 0 ==> es[b - 1].level != r.toState)
  }

  /** Some sample after `b` came when the confirm time from `b` on had passed. */
  ghost predicate Passed(r: Rule, es: seq<Eval>, b: nat) {
    exists j :: b < j < |es| && es[j].at >= es[b].at + r.HoldMs()
  }

  /** The level is the rule's, and confirmed. */
  ghost predicate LevelOn(r: Rule, es: seq<Eval>) {
    exists b: nat :: Since(r, es, b) && (r.HoldMs() == 0 || Passed(r, es, b))
  }

  /** One more sample. */
  lemma SinceNext(r: Rule, es: seq<Eval>, e: Eval, b: nat)
    ensures Since(r, es + [e], b) <==>
              e.level == r.toState && if b == |es| then es == [] || es[|es| - 1].level != r.toState else Since(r, es, b)
    ensures b < |es| ==> (Passed(r, es + [e], b) <==> Passed(r, es, b) || e.at >= es[b].at + r.HoldMs())
    ensures b == |es| ==> !Passed(r, es + [e], b)
  {
    hide Rule.HoldMs;
    var fs := es + [e];
    assert fs[|es|] == e;
    if b < |es| {
      assert forall m :: b <= m < |es| ==> fs[m] == es[m];
      if Passed(r, es, b) {
        var j :| b < j < |es| && es[j].at >= es[b].at + r.HoldMs();
        assert fs[j].at >= fs[b].at + r.HoldMs();
      }
      if e.at >= es[b].at + r.HoldMs() {
        assert fs[|es|].at >= fs[b].at + r.HoldMs();
      }
    }
  }

  /** The sample that `Since` is about, if there is one. */
  function Start(r: Rule, es: seq<Eval>): Option<nat> {
    if es == [] || es[|es| - 1].level != r.toState then None
    else if |es| == 1 || es[|es| - 2].level != r.toState then Some(|es| - 1)
    else Start(r, es[..|es| - 1])
  }

  lemma {:induction false} StartIs(r: Rule, es: seq<Eval>, b: nat)
    ensures Since(r, es, b) <==> Start(r, es) == Some(b)
  {
    if es != [] {
      var n := |es| - 1;
      SinceNext(r, es[..n], es[n], b);
      assert es[..n] + [es[n]] == es;
      StartIs(r, es[..n], b);
      if n > 0 && es[n].level == r.toState && es[n - 1].level == r.toState {
        assert es[..n][n - 1] == es[n - 1];
      }
    }
  }

  /** What the latch of a level rule holds of its samples. */
  ghost predicate LevelLatch(r: Rule, es: seq<Eval>, l: Latch) {
    && l.oneshotExpiry == 0
    && match Start(r, es)
       case None => !l.active && l.confirmDeadline == 0
       case Some(b) =>
         && b < |es| && (l.active <==> r.HoldMs() == 0 || Passed(r, es, b))
         && l.confirmDeadline == if l.active then 0 else es[b].at + r.HoldMs()
  }

  lemma LevelStep(index: nat, r: Rule, es: seq<Eval>, l: Latch, cur: bool, now: nat)
    requires LevelLatch(r, es, l) && r.fromState == r.toState
    ensures LevelLatch(r, es + [Eval(now, Level(cur))], Levelled(index, l, r, Level(cur), now).latch)
  {
    hide Passed, Rule.HoldMs;
    StartNext(r, es, Eval(now, Level(cur)));
    if Start(r, es).Some? {
      SinceNext(r, es, Eval(now, Level(cur)), Start(r, es).value);
    }
    SinceNext(r, es, Eval(now, Level(cur)), |es|);
  }

  lemma StartNext(r: Rule, es: seq<Eval>, e: Eval)
    ensures Start(r, es + [e]) ==
              if e.level != r.toState then None else if Start(r, es).Some? then Start(r, es) else Some(|es|)
  {
    var fs := es + [e];
    assert fs[..|es|] == es;
    assert |es| > 0 ==> fs[|es| - 1] == es[|es| - 1];
  }

  /** A level rule on a sampled channel. */
  predicate OfLevel(reg: Registry, r: Rule) { Sampled(reg, r) && r.fromState == r.toState }

  lemma {:induction false} LevelRun(reg: Registry, index: nat, r: Rule, cs: seq<Call>)
    requires OfLevel(reg, r)
    ensures var l := Ran(reg, index, r, cs).latch; l.lastRule == r && LevelLatch(r, Samples(cs), l)
  {
    hide LevelLatch, Levelled, Rule.HoldMs;
    if cs == [] {
      NewLevel(r);
    } else {
      var n := |cs| - 1;
      LevelRun(reg, index, r, cs[..n]);
      var l := Ran(reg, index, r, cs[..n]).latch;
      if cs[n].Sample? {
        LevelStep(index, r, Samples(cs[..n]), l, cs[n].cur, cs[n].now);
        LevelledRule(index, l, r, Level(cs[n].cur), cs[n].now);
      } else {
        LevelSwept(reg, index, r, Samples(cs[..n]), l, cs[n].armed, cs[n].now);
        assert Samples(cs[..n]) + [] == Samples(cs[..n]);
      }
    }
  }

  lemma NewLevel(r: Rule)
    ensures LevelLatch(r, [], FreshLatch(true, r))
  {
  }

  lemma LevelledRule(index: nat, l: Latch, r: Rule, lvl: nat, now: nat)
    ensures Levelled(index, l, r, lvl, now).latch.lastRule == l.lastRule
  {
  }

  lemma LevelSwept(reg: Registry, index: nat, r: Rule, es: seq<Eval>, l: Latch, armed: bool, now: nat)
    requires LevelLatch(r, es, l) && Confirms(reg, r) && l.lastRule == r
    ensures Swept(reg, index, l, armed, now) == Outcome(l, [])
  {
    hide Passed, Rule.HoldMs;
  }

  /** A level rule's alarm is on exactly while the level is the rule's and confirmed: with a confirm time, from
      the first sample on that comes when the level has been seen for that long. */
  lemma LevelIff(reg: Registry, index: nat, r: Rule, cs: seq<Call>)
    requires OfLevel(reg, r)
    ensures Ran(reg, index, r, cs).latch.active <==> LevelOn(r, Samples(cs))
  {
    hide Passed, Rule.HoldMs, Ran, Since;
    LevelRun(reg, index, r, cs);
    var es := Samples(cs);
    if Start(r, es).Some? {
      StartIs(r, es, Start(r, es).value);
    }
    forall b: nat | Since(r, es, b)
      ensures Start(r, es) == Some(b)
    {
      StartIs(r, es, b);
    }
  }

  /** Its edges are exactly the changes of that. */
  lemma LevelEdges(reg: Registry, index: nat, r: Rule, cs: seq<Call>, k: nat)
    requires OfLevel(reg, r) && k < |cs|
    ensures var was, now := LevelOn(r, Samples(cs[..k])), LevelOn(r, Samples(cs[..k + 1]));
      Queued(reg, index, r, cs, k) == if now && !was then On(index, r) else if was && !now then Off(index, r) else []
  {
    hide LevelOn, LevelLatch, Rule.HoldMs, Fires, Due, Ran;
    var c := cs[..k + 1];
    assert c[..k] == cs[..k] && c[k] == cs[k];
    LevelIff(reg, index, r, cs[..k]);
    LevelIff(reg, index, r, c);
    LevelRun(reg, index, r, cs[..k]);
    RanNext(reg, index, r, c);
    var l := Ran(reg, index, r, cs[..k]).latch;
    if cs[k].Sample? {
      LevelledEdges(index, l, r, Level(cs[k].cur), cs[k].now);
    } else {
      LevelSwept(reg, index, r, Samples(cs[..k]), l, cs[k].armed, cs[k].now);
    }
  }

  lemma LevelledEdges(index: nat, l: Latch, r: Rule, lvl: nat, now: nat)
    requires r.fromState == r.toState
    ensures var o := Levelled(index, l, r, lvl, now);
      o.edges == if o.latch.active && !l.active then On(index, r) else if l.active && !o.latch.active then Off(index, r) else []
  {
    hide Rule.HoldMs;
  }

  // ---- Transitions -----------------------------------------------------------------------------------

  /** A rule for a transition on a sampled channel. */
  predicate OfTransition(reg: Registry, r: Rule) { Sampled(reg, r) && r.fromState != r.toState }

  /** The last sample confirms a transition: the level became the rule's at a sample that is not the first,
      and the last sample is the first one, with a confirm time, that comes when that has passed. */
  ghost predicate Completes(r: Rule, es: seq<Eval>) {
    exists b: nat :: 0 < b && Since(r, es, b) &&
      if r.HoldMs() == 0 then b == |es| - 1 else Passed(r, es, b) && !Passed(r, es[..|es| - 1], b)
  }

  ghost predicate TransitionLatch(r: Rule, es: seq<Eval>, l: Latch) {
    && (l.havePrevState <==> es != []) && (es != [] ==> l.prevState == es[|es| - 1].level <= 1)
    && match Start(r, es)
       case None => l.confirmDeadline == 0
       case Some(b) =>
         b < |es| && l.confirmDeadline == if b == 0 || r.HoldMs() == 0 || Passed(r, es, b) then 0 else es[b].at + r.HoldMs()
  }

  lemma TransitionStep(index: nat, r: Rule, es: seq<Eval>, l: Latch, cur: bool, now: nat)
    requires TransitionLatch(r, es, l) && r.fromState != r.toState && r.fromState <= 1 && r.toState <= 1
    ensures var fs := es + [Eval(now, Level(cur))];
      TransitionLatch(r, fs, Levelled(index, l, r, Level(cur), now).latch) && (Fires(l, r, Level(cur), now) <==> Completes(r, fs))
  {
    hide Passed, Rule.HoldMs, Since;
    var e := Eval(now, Level(cur));
    var fs := es + [e];
    StartNext(r, es, e);
    if Start(r, es).Some? {
      SinceNext(r, es, e, Start(r, es).value);
    }
    SinceNext(r, es, e, |es|);
    assert fs[..|fs| - 1] == es;
    StartEnds(r, es);
    if Start(r, fs).Some? {
      StartIs(r, fs, Start(r, fs).value);
    }
    forall b: nat | Since(r, fs, b)
      ensures Start(r, fs) == Some(b)
    {
      StartIs(r, fs, b);
    }
    NotPassed(r, es, |es|);
  }

  lemma NotPassed(r: Rule, es: seq<Eval>, b: nat)
    requires b >= |es|
    ensures !Passed(r, es, b)
  {
  }

  lemma StartEnds(r: Rule, es: seq<Eval>)
    ensures Start(r, es).Some? <==> es != [] && es[|es| - 1].level == r.toState
  {
    if |es| > 1 && es[|es| - 1].level == r.toState && es[|es| - 2].level == r.toState {
      assert es[..|es| - 1][|es| - 2] == es[|es| - 2];
      StartEnds(r, es[..|es| - 1]);
    }
  }

  lemma {:induction false} TransitionRun(reg: Registry, index: nat, r: Rule, cs: seq<Call>)
    requires OfTransition(reg, r)
    ensures var l := Ran(reg, index, r, cs).latch; l.lastRule == r && TransitionLatch(r, Samples(cs), l)
  {
    hide TransitionLatch, Levelled, Rule.HoldMs, Fires;
    if cs == [] {
      NewTransition(r);
    } else {
      var n := |cs| - 1;
      TransitionRun(reg, index, r, cs[..n]);
      var l := Ran(reg, index, r, cs[..n]).latch;
      if cs[n].Sample? {
        TransitionStep(index, r, Samples(cs[..n]), l, cs[n].cur, cs[n].now);
        LevelledRule(index, l, r, Level(cs[n].cur), cs[n].now);
      } else {
        TransitionSwept(reg, index, r, Samples(cs[..n]), l, cs[n].armed, cs[n].now);
        assert Samples(cs[..n]) + [] == Samples(cs[..n]);
      }
    }
  }

  lemma NewTransition(r: Rule)
    ensures TransitionLatch(r, [], FreshLatch(true, r))
  {
  }

  lemma TransitionSwept(reg: Registry, index: nat, r: Rule, es: seq<Eval>, l: Latch, armed: bool, now: nat)
    requires TransitionLatch(r, es, l) && Confirms(reg, r) && l.lastRule == r
    ensures var o := Swept(reg, index, l, armed, now); o.latch.lastRule == r && TransitionLatch(r, es, o.latch) && o.edges == []
  {
    hide Passed, Rule.HoldMs;
  }

  /** A transition rule queues an activate exactly at the samples that confirm a transition, and nothing
      else. */
  lemma TransitionEdges(reg: Registry, index: nat, r: Rule, cs: seq<Call>, k: nat)
    requires OfTransition(reg, r) && k < |cs|
    ensures Queued(reg, index, r, cs, k) == if cs[k].Sample? && Completes(r, Samples(cs[..k + 1])) then On(index, r) else []
  {
    hide TransitionLatch, Completes, Rule.HoldMs, Fires, Due, Ran;
    var c := cs[..k + 1];
    assert c[..k] == cs[..k] && c[k] == cs[k];
    TransitionRun(reg, index, r, cs[..k]);
    var l := Ran(reg, index, r, cs[..k]).latch;
    if cs[k].Sample? {
      TransitionStep(index, r, Samples(cs[..k]), l, cs[k].cur, cs[k].now);
    } else {
      TransitionSwept(reg, index, r, Samples(cs[..k]), l, cs[k].armed, cs[k].now);
    }
  }

  // ---- Events of a momentary channel ------------------------------------------------------------------

  /** An enabled rule on a momentary channel, and calls after time 0. */
  predicate OfEvents(reg: Registry, r: Rule) { RuleOk(reg, r) && Momentary(reg, r) && r.enabled }

  predicate Awake(cs: seq<Call>) { forall k :: 0 <= k < |cs| ==> cs[k].now > 0 }

  predicate IsEvent(c: Call) { c.Sample? && c.cur }

  /** Call `b` was an event, the last, and every call since came before its hold time was over. */
  ghost predicate Holding(r: Rule, cs: seq<Call>, b: nat) {
    && b < |cs| && IsEvent(cs[b])
    && forall m :: b < m < |cs| ==> !IsEvent(cs[m]) && cs[m].now < cs[b].now + r.HoldMs()
  }

  ghost predicate Moving(r: Rule, cs: seq<Call>) { exists b: nat :: Holding(r, cs, b) }

  lemma HoldingNext(r: Rule, cs: seq<Call>, c: Call, b: nat)
    ensures Holding(r, cs + [c], b) <==>
              if b == |cs| then IsEvent(c) else Holding(r, cs, b) && !IsEvent(c) && c.now < cs[b].now + r.HoldMs()
  {
    hide Rule.HoldMs;
    var ds := cs + [c];
    assert ds[|cs|] == c;
    if b < |cs| {
      assert forall m :: b <= m < |cs| ==> ds[m] == cs[m];
    }
  }

  /** The hold time still runs at time `now`. */
  ghost predicate Outlasts(r: Rule, cs: seq<Call>, now: nat) {
    exists b: nat :: Holding(r, cs, b) && now < cs[b].now + r.HoldMs()
  }

  /** What the latch of a motion rule holds of the calls. */
  ghost predicate MotionLatch(r: Rule, cs: seq<Call>, l: Latch) {
    && (l.active <==> Moving(r, cs)) && (!l.active ==> l.oneshotExpiry == 0)
    && (forall b: nat :: Holding(r, cs, b) ==> l.oneshotExpiry == cs[b].now + r.HoldMs())
  }

  predicate OfMotion(reg: Registry, r: Rule) { OfEvents(reg, r) && r.fromState == 1 && r.toState == 1 }

  function EventStep(reg: Registry, index: nat, l: Latch, c: Call): Outcome {
    match c
    case Sample(cur, now) => Evaluated(reg, index, l, l.lastRule, cur, now)
    case Sweeping(armed, now) => Swept(reg, index, l, armed, now)
  }

  lemma MotionNext(reg: Registry, index: nat, r: Rule, cs: seq<Call>, l: Latch, c: Call)
    requires OfMotion(reg, r) && Awake(cs + [c]) && l.lastRule == r && MotionLatch(r, cs, l)
    ensures var o := EventStep(reg, index, l, c);
      var on := Outlasts(r, cs, c.now);
      && o.latch.lastRule == r && MotionLatch(r, cs + [c], o.latch)
      && o.edges == (if Moving(r, cs) && !on then Off(index, r) else []) + (if IsEvent(c) && !on then On(index, r) else [])
  {
    hide Holding, Rule.HoldMs;
    var ds := cs + [c];
    assert ds[|cs|] == c && c.now > 0;
    forall b: nat | Holding(r, cs, b)
      ensures b < |cs| && cs[b] == ds[b] && cs[b].now > 0
    {
      InRun(r, cs, b);
    }
    forall b: nat
      ensures Holding(r, ds, b) <==>
                if b == |cs| then IsEvent(c) else Holding(r, cs, b) && !IsEvent(c) && c.now < cs[b].now + r.HoldMs()
    {
      HoldingNext(r, cs, c, b);
    }
  }

  lemma InRun(r: Rule, cs: seq<Call>, b: nat)
    requires Holding(r, cs, b)
    ensures b < |cs|
  {
  }

  lemma {:induction false} MotionRun(reg: Registry, index: nat, r: Rule, cs: seq<Call>)
    requires OfMotion(reg, r) && Awake(cs)
    ensures var l := Ran(reg, index, r, cs).latch; l.lastRule == r && MotionLatch(r, cs, l)
  {
    hide MotionLatch, EventStep, Rule.HoldMs, Evaluated, Swept;
    if cs == [] {
      NewMotion(r);
    } else {
      var n := |cs| - 1;
      MotionRun(reg, index, r, cs[..n]);
      assert cs == cs[..n] + [cs[n]];
      MotionNext(reg, index, r, cs[..n], Ran(reg, index, r, cs[..n]).latch, cs[n]);
      StepIs(reg, index, Ran(reg, index, r, cs[..n]), cs[n]);
    }
  }

  lemma NewMotion(r: Rule)
    ensures MotionLatch(r, [], FreshLatch(true, r))
  {
  }

  lemma StepIs(reg: Registry, index: nat, t: Trace, c: Call)
    ensures EventStep(reg, index, t.latch, c) == Outcome(CallTrace(reg, index, t, c).latch, EdgesAt(reg, index, t, c))
  {
  }

  /** A motion is on exactly while the hold time of the last event runs; an event that finds it over queues
      the end, if that was not queued yet, and the next start, a sample or sweep that finds it over queues the
      end. */
  lemma MotionEdges(reg: Registry, index: nat, r: Rule, cs: seq<Call>, k: nat)
    requires OfMotion(reg, r) && Awake(cs) && k < |cs|
    ensures Ran(reg, index, r, cs).latch.active <==> Moving(r, cs)
    ensures var on := Outlasts(r, cs[..k], cs[k].now);
      Queued(reg, index, r, cs, k) ==
        (if Moving(r, cs[..k]) && !on then Off(index, r) else []) + (if IsEvent(cs[k]) && !on then On(index, r) else [])
  {
    hide Moving, Outlasts, EventStep, Rule.HoldMs, Ran;
    MotionRun(reg, index, r, cs);
    MotionRun(reg, index, r, cs[..k]);
    var t := Ran(reg, index, r, cs[..k]);
    MotionNext(reg, index, r, cs[..k], t.latch, cs[k]);
    StepIs(reg, index, t, cs[k]);
  }

  // ---- One-shots ----------------------------------------------------------------------------------------

  /** A transition rule on a momentary channel. */
  predicate OfShots(reg: Registry, r: Rule) { OfEvents(reg, r) && r.fromState != r.toState }

  /** Call `j` fired, and every later call up to before `k` came before its hold time was over. */
  ghost predicate ShotHolds(reg: Registry, index: nat, r: Rule, cs: seq<Call>, j: nat, k: nat)
    requires k <= |cs|
  {
    && j < k && Queued(reg, index, r, cs, j) != []
    && forall m :: j < m < k ==> cs[m].now < cs[j].now + r.HoldMs()
  }

  ghost predicate ShotLatch(reg: Registry, index: nat, r: Rule, cs: seq<Call>, k: nat, l: Latch)
    requires k <= |cs|
  {
    && l.lastRule == r && (!l.active ==> l.oneshotExpiry == 0)
    && (l.active ==> exists j: nat :: ShotHolds(reg, index, r, cs, j, k) && l.oneshotExpiry == cs[j].now + r.HoldMs())
    && (forall j: nat :: ShotHolds(reg, index, r, cs, j, k) ==> l.active && l.oneshotExpiry == cs[j].now + r.HoldMs())
  }

  lemma ShotStep(reg: Registry, index: nat, l: Latch, r: Rule, c: Call)
    requires OfShots(reg, r) && l.lastRule == r && (!l.active ==> l.oneshotExpiry == 0) && (l.active ==> l.oneshotExpiry > 0)
    ensures var o := EventStep(reg, index, l, c); var held := l.active && c.now < l.oneshotExpiry;
      && o.edges == (if IsEvent(c) && !held then On(index, r) else [])
      && o.latch.lastRule == r && (o.latch.active <==> held || IsEvent(c))
      && o.latch.oneshotExpiry == if held then l.oneshotExpiry else if IsEvent(c) then c.now + r.HoldMs() else 0
  {
    hide Rule.HoldMs;
  }

  lemma {:induction false} ShotRun(reg: Registry, index: nat, r: Rule, cs: seq<Call>, k: nat)
    requires OfShots(reg, r) && Awake(cs) && k <= |cs|
    ensures ShotLatch(reg, index, r, cs, k, Ran(reg, index, r, cs[..k]).latch)
    decreases k
  {
    hide EventStep, Rule.HoldMs, Ran, OfShots, Queued;
    if k == 0 {
      NewShot(reg, index, r, cs);
    } else {
      var n := k - 1;
      ShotRun(reg, index, r, cs, n);
      ShotNext(reg, index, r, cs, n);
    }
  }

  lemma NewShot(reg: Registry, index: nat, r: Rule, cs: seq<Call>)
    ensures ShotLatch(reg, index, r, cs, 0, Ran(reg, index, r, cs[..0]).latch)
  {
    assert cs[..0] == [];
  }

  lemma ShotCall(reg: Registry, index: nat, r: Rule, cs: seq<Call>, n: nat)
    requires OfShots(reg, r) && Awake(cs) && n < |cs| && ShotLatch(reg, index, r, cs, n, Ran(reg, index, r, cs[..n]).latch)
    ensures var l, m := Ran(reg, index, r, cs[..n]).latch, Ran(reg, index, r, cs[..n + 1]).latch;
      var held := l.active && cs[n].now < l.oneshotExpiry;
      && Queued(reg, index, r, cs, n) == (if IsEvent(cs[n]) && !held then On(index, r) else [])
      && m.lastRule == r && (m.active <==> held || IsEvent(cs[n]))
      && m.oneshotExpiry == if held then l.oneshotExpiry else if IsEvent(cs[n]) then cs[n].now + r.HoldMs() else 0
  {
    hide EventStep, Rule.HoldMs, OfShots, CallTrace, EdgesAt;
    var c := cs[..n + 1];
    assert c[..n] == cs[..n] && c[n] == cs[n];
    var t := Ran(reg, index, r, cs[..n]);
    ShotStep(reg, index, t.latch, r, cs[n]);
    StepIs(reg, index, t, cs[n]);
  }

  lemma ShotNext(reg: Registry, index: nat, r: Rule, cs: seq<Call>, n: nat)
    requires OfShots(reg, r) && Awake(cs) && n < |cs| && ShotLatch(reg, index, r, cs, n, Ran(reg, index, r, cs[..n]).latch)
    ensures ShotLatch(reg, index, r, cs, n + 1, Ran(reg, index, r, cs[..n + 1]).latch)
  {
    hide Rule.HoldMs, OfShots, Queued, Ran;
    ShotCall(reg, index, r, cs, n);
    var l, m := Ran(reg, index, r, cs[..n]).latch, Ran(reg, index, r, cs[..n + 1]).latch;
    forall j: nat
      ensures ShotHolds(reg, index, r, cs, j, n + 1) <==>
                if j == n then Queued(reg, index, r, cs, n) != []
                else ShotHolds(reg, index, r, cs, j, n) && cs[n].now < cs[j].now + r.HoldMs()
    {
    }
    if l.active && cs[n].now < l.oneshotExpiry {
      var j: nat :| ShotHolds(reg, index, r, cs, j, n) && l.oneshotExpiry == cs[j].now + r.HoldMs();
      assert ShotHolds(reg, index, r, cs, j, n + 1);
    } else if IsEvent(cs[n]) {
      assert ShotHolds(reg, index, r, cs, n, n + 1);
    }
  }

  /** A one-shot queues an activate at exactly the events that come when no earlier activate's hold time runs,
      and nothing else. */
  lemma ShotEdges(reg: Registry, index: nat, r: Rule, cs: seq<Call>, k: nat)
    requires OfShots(reg, r) && Awake(cs) && k < |cs|
    ensures Queued(reg, index, r, cs, k) ==
              if IsEvent(cs[k]) && !exists j: nat :: ShotHolds(reg, index, r, cs, j, k) && cs[k].now < cs[j].now + r.HoldMs()
              then On(index, r) else []
  {
    hide Rule.HoldMs, OfShots, Queued, Ran, ShotHolds;
    ShotRun(reg, index, r, cs, k);
    ShotCall(reg, index, r, cs, k);
  }

  // ---- Stillness ------------------------------------------------------------------------------------------

  predicate OfStillness(reg: Registry, r: Rule) { OfEvents(reg, r) && r.Stillness() }

  predicate IsSweep(c: Call) { c.Sweeping? && c.armed }

  /** The quiet time runs from call `b`: the last event, or before any event the first sweep of the armed rule. */
  ghost predicate QuietSince(cs: seq<Call>, b: nat) {
    && b < |cs| && (forall m :: b < m < |cs| ==> !IsEvent(cs[m]))
    && (IsEvent(cs[b]) || (IsSweep(cs[b]) && forall m :: 0 <= m < b ==> !IsEvent(cs[m]) && !IsSweep(cs[m])))
  }

  /** A sweep of the armed rule found the quiet time over. */
  ghost predicate QuietPassed(r: Rule, cs: seq<Call>, b: nat) {
    exists j :: b < j < |cs| && IsSweep(cs[j]) && cs[b].now + r.HoldMs() <= cs[j].now
  }

  ghost predicate Still(r: Rule, cs: seq<Call>) {
    exists b: nat :: QuietSince(cs, b) && QuietPassed(r, cs, b)
  }

  /** The call that `QuietSince` is about, if there is one. */
  function Base(cs: seq<Call>): Option<nat> {
    if cs == [] then None
    else if IsEvent(cs[|cs| - 1]) then Some(|cs| - 1)
    else if Base(cs[..|cs| - 1]).Some? then Base(cs[..|cs| - 1])
    else if IsSweep(cs[|cs| - 1]) then Some(|cs| - 1) else None
  }

  lemma BaseNext(cs: seq<Call>, c: Call)
    ensures Base(cs + [c]) == if IsEvent(c) then Some(|cs|) else if Base(cs).Some? then Base(cs) else if IsSweep(c) then Some(|cs|) else None
  {
    assert (cs + [c])[..|cs|] == cs;
  }

  lemma {:induction false} BaseIs(cs: seq<Call>, b: nat)
    ensures QuietSince(cs, b) <==> Base(cs) == Some(b)
    ensures Base(cs).None? <==> forall m :: 0 <= m < |cs| ==> !IsEvent(cs[m]) && !IsSweep(cs[m])
  {
    if cs != [] {
      var n := |cs| - 1;
      BaseIs(cs[..n], b);
      assert forall m :: 0 <= m < n ==> cs[..n][m] == cs[m];
      assert Base(cs).None? ==> !IsEvent(cs[n]) && !IsSweep(cs[n]);
    }
  }

  lemma PassedNext(r: Rule, cs: seq<Call>, c: Call, b: nat)
    ensures b < |cs| ==>
              (QuietPassed(r, cs + [c], b) <==> QuietPassed(r, cs, b) || (IsSweep(c) && cs[b].now + r.HoldMs() <= c.now))
    ensures b == |cs| ==> !QuietPassed(r, cs + [c], b)
  {
    hide Rule.HoldMs;
    var ds := cs + [c];
    assert ds[|cs|] == c;
    if b < |cs| && QuietPassed(r, cs, b) {
      var j :| b < j < |cs| && IsSweep(cs[j]) && cs[b].now + r.HoldMs() <= cs[j].now;
      assert ds[j] == cs[j] && IsSweep(ds[j]);
    }
  }

  /** What the latch of a stillness rule holds of the calls. */
  ghost predicate StillLatch(r: Rule, cs: seq<Call>, l: Latch) {
    && l.lastRule == r && l.oneshotExpiry == 0
    && match Base(cs)
       case None => !l.active && l.confirmDeadline == 0
       case Some(b) =>
         b < |cs| && (l.active <==> QuietPassed(r, cs, b)) && l.confirmDeadline == if l.active then 0 else cs[b].now + r.HoldMs()
  }

  lemma StillStep(reg: Registry, index: nat, r: Rule, cs: seq<Call>, l: Latch, c: Call)
    requires OfStillness(reg, r) && Awake(cs + [c]) && StillLatch(r, cs, l)
    ensures var o := EventStep(reg, index, l, c);
      && StillLatch(r, cs + [c], o.latch)
      && o.edges == if o.latch.active && !l.active then On(index, r) else if l.active && !o.latch.active then Off(index, r) else []
  {
    hide QuietPassed, Rule.HoldMs, Base;
    var ds := cs + [c];
    assert ds[|cs|] == c;
    BaseNext(cs, c);
    PassedNext(r, cs, c, |cs|);
    if Base(cs).Some? {
      PassedNext(r, cs, c, Base(cs).value);
      assert ds[Base(cs).value] == cs[Base(cs).value];
      assert ds[Base(cs).value].now > 0;
    }
  }

  lemma {:induction false} StillRun(reg: Registry, index: nat, r: Rule, cs: seq<Call>)
    requires OfStillness(reg, r) && Awake(cs)
    ensures StillLatch(r, cs, Ran(reg, index, r, cs).latch)
  {
    hide StillLatch, EventStep, Rule.HoldMs, Evaluated, Swept, OfStillness;
    if cs == [] {
      NewStill(r);
    } else {
      var n := |cs| - 1;
      StillRun(reg, index, r, cs[..n]);
      assert cs == cs[..n] + [cs[n]];
      StillStep(reg, index, r, cs[..n], Ran(reg, index, r, cs[..n]).latch, cs[n]);
      StepIs(reg, index, Ran(reg, index, r, cs[..n]), cs[n]);
    }
  }

  lemma NewStill(r: Rule)
    ensures StillLatch(r, [], FreshLatch(true, r))
  {
  }

  /** A stillness is on exactly if a sweep of the armed rule found the quiet time over that the last event
      started, or before any event the first such sweep. */
  lemma StillIff(reg: Registry, index: nat, r: Rule, cs: seq<Call>)
    requires OfStillness(reg, r) && Awake(cs)
    ensures Ran(reg, index, r, cs).latch.active <==> Still(r, cs)
  {
    hide QuietPassed, QuietSince, Rule.HoldMs, Ran, Base, OfStillness;
    StillRun(reg, index, r, cs);
    if Base(cs).Some? {
      BaseIs(cs, Base(cs).value);
    }
    forall b: nat | QuietSince(cs, b)
      ensures Base(cs) == Some(b)
    {
      BaseIs(cs, b);
    }
  }

  /** Its edges are exactly the changes of that. */
  lemma StillEdges(reg: Registry, index: nat, r: Rule, cs: seq<Call>, k: nat)
    requires OfStillness(reg, r) && Awake(cs) && k < |cs|
    ensures var was, now := Still(r, cs[..k]), Still(r, cs[..k + 1]);
      Queued(reg, index, r, cs, k) == if now && !was then On(index, r) else if was && !now then Off(index, r) else []
  {
    hide Still, StillLatch, Rule.HoldMs, EventStep, OfStillness, Ran, CallTrace, EdgesAt;
    var c := cs[..k + 1];
    assert c[..k] == cs[..k] && c[k] == cs[k] && c == cs[..k] + [cs[k]];
    StillIff(reg, index, r, cs[..k]);
    StillIff(reg, index, r, c);
    StillRun(reg, index, r, cs[..k]);
    var t := Ran(reg, index, r, cs[..k]);
    StillStep(reg, index, r, cs[..k], t.latch, cs[k]);
    StepIs(reg, index, t, cs[k]);
    RanNext(reg, index, r, c);
  }
}
