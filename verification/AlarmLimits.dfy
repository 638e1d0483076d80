/** Runs of one unchanged threshold rule on its readings: which limit it is in alarm at, and which edges it
    queues, in terms of the readings alone. */
module AlarmLimits {
  import opened Bytes
  import opened AlarmRuleLatch

  /** One evaluation: an inert rule counts as disabled, and there may be no reading. */
  datatype Reading = Reading(armed: bool, value: Option<real>)

  function RuleAt(r: Rule, c: Reading): Rule { if c.armed then r else r.(enabled := false) }

  /** The latch of rule `r`, new at index `index`, after these readings. */
  function Ran(index: nat, r: Rule, cs: seq<Reading>): Latch {
    if cs == [] then FreshLatch(true, r)
    else Limited(index, Ran(index, r, cs[..|cs| - 1]), RuleAt(r, cs[|cs| - 1]), cs[|cs| - 1].value).latch
  }

  /** The edges that reading `k` queues. */
  function EdgesAt(index: nat, r: Rule, cs: seq<Reading>, k: nat): seq<Event>
    requires k < |cs|
  {
    Limited(index, Ran(index, r, cs[..k]), RuleAt(r, cs[k]), cs[k].value).edges
  }

  predicate Trips(r: Rule, t: AlarmType, c: Reading) {
    r.enabled && c.armed && c.value.Some? && Beyond(r, t, c.value.value)
  }

  predicate Keeps(r: Rule, t: AlarmType, c: Reading) {
    r.enabled && c.armed && c.value.Some? && Holds(r, t, c.value.value)
  }

  /** Some reading was beyond the limit, and none since then was missing, disarmed, past the deadband or
      beyond the other limit. */
  ghost predicate Tripped(r: Rule, t: AlarmType, cs: seq<Reading>) {
    exists k :: 0 <= k < |cs| && TrippedAt(r, t, cs, k)
  }

  ghost predicate TrippedAt(r: Rule, t: AlarmType, cs: seq<Reading>, k: nat)
    requires k < |cs|
  {
    Trips(r, t, cs[k]) && forall m :: k <= m < |cs| ==> Keeps(r, t, cs[m])
  }

  /** One more reading. */
  lemma TrippedNext(r: Rule, t: AlarmType, cs: seq<Reading>)
    requires cs != []
    ensures var c := cs[|cs| - 1]; Tripped(r, t, cs) <==> Trips(r, t, c) || (Tripped(r, t, cs[..|cs| - 1]) && Keeps(r, t, c))
  {
    hide Holds, Beyond;
    var n := |cs| - 1;
    if Trips(r, t, cs[n]) {
      TripsKeeps(r, t, cs[n]);
      assert TrippedAt(r, t, cs, n);
    }
    if Tripped(r, t, cs) && !Trips(r, t, cs[n]) {
      var k :| 0 <= k < |cs| && TrippedAt(r, t, cs, k);
      assert TrippedAt(r, t, cs[..n], k);
    }
    if Tripped(r, t, cs[..n]) && Keeps(r, t, cs[n]) {
      var k :| 0 <= k < n && TrippedAt(r, t, cs[..n], k);
      assert forall m :: k <= m < n ==> cs[m] == cs[..n][m];
      assert TrippedAt(r, t, cs, k);
    }
  }

  lemma TripsKeeps(r: Rule, t: AlarmType, c: Reading)
    ensures Trips(r, t, c) ==> Keeps(r, t, c)
  {
  }

  /** After any readings the rule is in alarm at a limit exactly if the readings tripped it. */
  lemma {:induction false} AlarmIff(index: nat, r: Rule, cs: seq<Reading>)
    ensures var l := Ran(index, r, cs);
      && (l.active ==> l.typ == Low || l.typ == High)
      && (AlarmAt(l, Low) <==> Tripped(r, Low, cs)) && (AlarmAt(l, High) <==> Tripped(r, High, cs))
  {
    hide Holds, Beyond, Limited, Tripped;
    if cs == [] {
      NoneTripped(r);
    } else {
      var n := |cs| - 1;
      AlarmIff(index, r, cs[..n]);
      LimitedIs(index, Ran(index, r, cs[..n]), RuleAt(r, cs[n]), cs[n].value);
      SameLimits(r, cs[n]);
      TrippedNext(r, Low, cs);
      TrippedNext(r, High, cs);
    }
  }

  lemma NoneTripped(r: Rule)
    ensures !Tripped(r, Low, []) && !Tripped(r, High, [])
  {
  }

  lemma SameLimits(r: Rule, c: Reading)
    ensures forall t, v :: Beyond(RuleAt(r, c), t, v) == Beyond(r, t, v)
    ensures forall t, v :: Holds(RuleAt(r, c), t, v) == Holds(r, t, v)
  {
  }

  /** Which edges reading `k` queues: an activate for a limit that it trips and no reading before had, a
      deactivate for one that was tripped and that it does not keep, and no other. */
  lemma EdgesAre(index: nat, r: Rule, cs: seq<Reading>, k: nat, e: Event)
    requires k < |cs|
    ensures e in EdgesAt(index, r, cs, k) <==>
              && (e.typ == Low || e.typ == High) && e == EventOf(index, RuleAt(r, cs[k]), e.active, e.typ)
              && if e.active then Trips(r, e.typ, cs[k]) && !Tripped(r, e.typ, cs[..k])
                 else Tripped(r, e.typ, cs[..k]) && !Keeps(r, e.typ, cs[k])
  {
    hide Holds, Beyond, Limited, Tripped, Ran;
    AlarmIff(index, r, cs[..k]);
    var o := Limited(index, Ran(index, r, cs[..k]), RuleAt(r, cs[k]), cs[k].value);
    LimitedIs(index, Ran(index, r, cs[..k]), RuleAt(r, cs[k]), cs[k].value);
    SameLimits(r, cs[k]);
    TripsKeeps(r, e.typ, cs[k]);
    assert e in o.edges ==> e == EventOf(index, RuleAt(r, cs[k]), e.active, e.typ);
  }

  /** While a tripped limit is kept nothing is queued. */
  lemma KeptQuiet(index: nat, r: Rule, cs: seq<Reading>, k: nat, t: AlarmType)
    requires k < |cs| && (t == Low || t == High) && Tripped(r, t, cs[..k]) && Keeps(r, t, cs[k])
    ensures EdgesAt(index, r, cs, k) == []
  {
    hide Tripped, Ran, Limited, EventOf;
    AlarmIff(index, r, cs[..k]);
    if EdgesAt(index, r, cs, k) != [] {
      var e := EdgesAt(index, r, cs, k)[0];
      EdgesAre(index, r, cs, k, e);
    }
  }
}
