/** Runs of one unchanged, armed state rule on a sampled level: when it fires, in terms of the samples alone. */
module AlarmRuns {
  import opened Bytes
  import opened AlarmRuleLatch

  /** A sample of the level, by a poll or an event; or a sweep. */
  datatype Call = Sample(cur: bool, now: nat) | Sweeping(armed: bool, now: nat)

  function EdgesAt(reg: Registry, index: nat, t: Trace, c: Call): seq<Event> {
    match c
    case Sample(cur, now) => Evaluated(reg, index, t.latch, t.latch.lastRule, cur, now).edges
    case Sweeping(armed, now) => Swept(reg, index, t.latch, armed, now).edges
  }

  function CallTrace(reg: Registry, index: nat, t: Trace, c: Call): Trace {
    match c
    case Sample(cur, now) =>
      var o := Evaluated(reg, index, t.latch, t.latch.lastRule, cur, now);
      Trace(o.latch, AfterState(t.past, t.latch.lastRule, o.edges, Level(cur), now))
    case Sweeping(armed, now) =>
      var o := Swept(reg, index, t.latch, armed, now);
      Trace(o.latch, AfterSweep(t.past, Quietened(reg, index, t.latch, armed, now).edges != [], o.edges, now))
  }

  /** The latch of a rule new at index `index`. */
  function NewRule(r: Rule): Trace { Trace(FreshLatch(true, r), Past([], 0, [], [], 0)) }

  function Ran(reg: Registry, index: nat, r: Rule, cs: seq<Call>): Trace {
    if cs == [] then NewRule(r) else CallTrace(reg, index, Ran(reg, index, r, cs[..|cs| - 1]), cs[|cs| - 1])
  }

  /** Call `k` starts the alarm. */
  predicate FiresAt(reg: Registry, index: nat, r: Rule, cs: seq<Call>, k: nat)
    requires k < |cs|
  {
    Fired(EdgesAt(reg, index, Ran(reg, index, r, cs[..k]), cs[k]))
  }

  /** The samples, and when the alarm started. */
  function Samples(cs: seq<Call>): seq<Eval> {
    if cs == [] then []
    else Samples(cs[..|cs| - 1]) + if cs[|cs| - 1].Sample? then [Eval(cs[|cs| - 1].now, Level(cs[|cs| - 1].cur))] else []
  }

  function Starts(reg: Registry, index: nat, r: Rule, cs: seq<Call>): seq<nat> {
    if cs == [] then []
    else Starts(reg, index, r, cs[..|cs| - 1]) + if FiresAt(reg, index, r, cs, |cs| - 1) then [cs[|cs| - 1].now] else []
  }

  /** An armed state rule on a level that is sampled. */
  predicate Sampled(reg: Registry, r: Rule) { RuleOk(reg, r) && Confirms(reg, r) && r.enabled }

  /** The sweep reads its clock before the samples of the same poll do. */
  predicate InOrder(cs: seq<Call>) {
    forall j, k :: 0 <= j <= k < |cs| && cs[k].Sample? ==> cs[j].now <= cs[k].now
  }

  lemma OrderedFront(cs: seq<Call>)
    requires InOrder(cs) && cs != []
    ensures InOrder(cs[..|cs| - 1])
  {
  }

  lemma ReleaseKeeps(reg: Registry, index: nat, t: Trace, c: Call)
    requires LatchOk(reg, index, t.latch, t.past) && t.latch.used && Sampled(reg, t.latch.lastRule) && c.Sweeping?
    ensures var s := CallTrace(reg, index, t, c);
      && LatchOk(reg, index, s.latch, s.past) && s.latch.used && s.latch.lastRule == t.latch.lastRule
      && s.past.evals == t.past.evals && s.past.acts == t.past.acts && EdgesAt(reg, index, t, c) == []
      && s.past.clock == if c.now > t.past.clock then c.now else t.past.clock
  {
    hide Alternating, Open, Rule.HoldMs, Confirmed, Spaced;
    assert t.past.history + [] == t.past.history && t.past.acts + [] == t.past.acts;
  }

  lemma SampleKeeps(reg: Registry, index: nat, t: Trace, c: Call)
    requires LatchOk(reg, index, t.latch, t.past) && t.latch.used && Sampled(reg, t.latch.lastRule) && c.Sample? && t.past.clock <= c.now
    ensures var s := CallTrace(reg, index, t, c); var r := t.latch.lastRule;
      && LatchOk(reg, index, s.latch, s.past) && s.latch.used && s.latch.lastRule == r && s.past.clock == c.now
      && s.past.evals == t.past.evals + [Eval(c.now, Level(c.cur))]
      && s.past.acts == t.past.acts + (if Fired(EdgesAt(reg, index, t, c)) then [c.now] else [])
      && (Fired(EdgesAt(reg, index, t, c)) && r.HoldMs() > 0 ==> Confirmed(s.past.evals, r, c.now))
  {
    hide LatchOk, CanConfirm, Rule.HoldMs, Confirmed, Due;
    var r, lvl := t.latch.lastRule, Level(c.cur);
    var fire, end := Fires(t.latch, r, lvl, c.now), r.fromState == r.toState && lvl != r.toState && t.latch.active;
    LevelledCan(reg, index, t.latch, t.past, lvl, c.now);
    ConfirmKeeps(reg, index, t.latch, t.past, lvl, Due(t.latch, r, lvl, c.now), fire, end, c.now);
  }

  lemma {:induction false} RunKeeps(reg: Registry, index: nat, r: Rule, cs: seq<Call>)
    requires Sampled(reg, r) && InOrder(cs)
    ensures var t := Ran(reg, index, r, cs);
      && LatchOk(reg, index, t.latch, t.past) && t.latch.used && t.latch.lastRule == r
      && t.past.evals == Samples(cs) && t.past.acts == Starts(reg, index, r, cs)
      && (forall k :: 0 <= k < |cs| ==> cs[k].now <= t.past.clock)
      && (t.past.clock == 0 || exists k :: 0 <= k < |cs| && t.past.clock == cs[k].now)
  {
    hide LatchOk, CallTrace, EdgesAt;
    if cs == [] {
      NewOk(reg, index, r);
    } else {
      var n := |cs| - 1;
      OrderedFront(cs);
      RunKeeps(reg, index, r, cs[..n]);
      if cs[n].Sample? {
        SampleKeeps(reg, index, Ran(reg, index, r, cs[..n]), cs[n]);
      } else {
        ReleaseKeeps(reg, index, Ran(reg, index, r, cs[..n]), cs[n]);
      }
      assert forall k :: 0 <= k < n ==> cs[..n][k] == cs[k];
    }
  }

  lemma NewOk(reg: Registry, index: nat, r: Rule)
    requires Sampled(reg, r)
    ensures LatchOk(reg, index, NewRule(r).latch, NewRule(r).past)
  {
  }

  lemma ClockBelow(reg: Registry, index: nat, r: Rule, cs: seq<Call>, k: nat)
    requires Sampled(reg, r) && InOrder(cs) && k < |cs|
    ensures InOrder(cs[..k]) && (cs[k].Sample? ==> Ran(reg, index, r, cs[..k]).past.clock <= cs[k].now)
  {
    hide LatchOk;
    RunKeeps(reg, index, r, cs[..k]);
  }

  /** With a confirm time, the alarm starts only at a sample, and only after a sample, at least that time
      ago, from which on every sample saw the level confirmed; for a transition, the sample before it saw
      the level it came from. */
  lemma DwellHolds(reg: Registry, index: nat, r: Rule, cs: seq<Call>, k: nat)
    requires Sampled(reg, r) && InOrder(cs) && k < |cs| && FiresAt(reg, index, r, cs, k) && r.HoldMs() > 0
    ensures cs[k].Sample? && Confirmed(Samples(cs[..k + 1]), r, cs[k].now)
  {
    hide LatchOk, Rule.HoldMs, Confirmed, CallTrace, EdgesAt;
    ClockBelow(reg, index, r, cs, k);
    var t := Ran(reg, index, r, cs[..k]);
    RunKeeps(reg, index, r, cs[..k]);
    assert cs[..k + 1][..k] == cs[..k];
    if cs[k].Sample? {
      SampleKeeps(reg, index, t, cs[k]);
    } else {
      ReleaseKeeps(reg, index, t, cs[k]);
    }
  }

  /** A rule that fires on a transition starts again no sooner than its dwell after it last did. */
  lemma StartsApart(reg: Registry, index: nat, r: Rule, cs: seq<Call>, j: nat, k: nat)
    requires Sampled(reg, r) && InOrder(cs) && r.fromState != r.toState
    requires j < k < |cs| && FiresAt(reg, index, r, cs, j) && FiresAt(reg, index, r, cs, k)
    ensures cs[j].now + r.HoldMs() <= cs[k].now
  {
    hide Alternating, Open, Rule.HoldMs, Confirmed, FiresAt, Ran, Confirming, Paired;
    var m := k + 1;
    OrderedTo(cs, m);
    RunKeeps(reg, index, r, cs[..m]);
    assert cs[..m][..k] == cs[..k];
    StartAt(reg, index, r, cs[..m], k);
    StartAt(reg, index, r, cs[..m], j);
    SameFire(reg, index, r, cs, m, j);
    SameFire(reg, index, r, cs, m, k);
    var a, b := StartIndex(reg, index, r, cs[..m], j), StartIndex(reg, index, r, cs[..m], k);
    StartsRise(reg, index, r, cs[..m], j, k);
  }

  lemma OrderedTo(cs: seq<Call>, m: nat)
    requires InOrder(cs) && m <= |cs|
    ensures InOrder(cs[..m])
  {
  }

  lemma SameFire(reg: Registry, index: nat, r: Rule, cs: seq<Call>, m: nat, j: nat)
    requires j < m <= |cs|
    ensures FiresAt(reg, index, r, cs[..m], j) == FiresAt(reg, index, r, cs, j)
  {
    hide Ran;
    assert cs[..m][..j] == cs[..j];
  }

  /** How many starts there are before call `k`. */
  function StartIndex(reg: Registry, index: nat, r: Rule, cs: seq<Call>, k: nat): nat
    requires k <= |cs|
  {
    |Starts(reg, index, r, cs[..k])|
  }

  lemma {:induction false} StartAt(reg: Registry, index: nat, r: Rule, cs: seq<Call>, k: nat)
    requires k < |cs|
    ensures FiresAt(reg, index, r, cs, k) ==>
              StartIndex(reg, index, r, cs, k) < |Starts(reg, index, r, cs)| && Starts(reg, index, r, cs)[StartIndex(reg, index, r, cs, k)] == cs[k].now
    decreases |cs|
  {
    hide FiresAt;
    var n := |cs| - 1;
    if k < n {
      SameFire(reg, index, r, cs, n, k);
      StartAt(reg, index, r, cs[..n], k);
      assert cs[..n][..k] == cs[..k];
    }
  }

  lemma {:induction false} StartsRise(reg: Registry, index: nat, r: Rule, cs: seq<Call>, j: nat, k: nat)
    requires j < k <= |cs|
    ensures StartIndex(reg, index, r, cs, j) <= StartIndex(reg, index, r, cs, k)
    ensures FiresAt(reg, index, r, cs, j) ==> StartIndex(reg, index, r, cs, j) < StartIndex(reg, index, r, cs, k)
    decreases k
  {
    hide FiresAt;
    var n := k - 1;
    assert cs[..k][..n] == cs[..n];
    SameFire(reg, index, r, cs, k, n);
    if j < n {
      StartsRise(reg, index, r, cs, j, n);
    }
  }
}
