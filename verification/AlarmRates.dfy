/** Runs of one unchanged, armed rate rule on its counter: when it starts and ends an alarm, in terms of the
    counts alone. */
module AlarmRates {
  import opened Bytes
  import opened AlarmRuleLatch

  datatype Count = Count(cur: nat, now: nat)

  /** The latch of rule `r`, new at index `index`, after these counts. */
  function Ran(index: nat, r: Rule, cs: seq<Count>, reportMs: nat): Latch {
    if cs == [] then FreshLatch(true, r)
    else Counted(index, Ran(index, r, cs[..|cs| - 1], reportMs), r, cs[|cs| - 1].cur, cs[|cs| - 1].now, reportMs).latch
  }

  /** The edges that count `k` queues. */
  function EdgesAt(index: nat, r: Rule, cs: seq<Count>, k: nat, reportMs: nat): seq<Event>
    requires k < |cs|
  {
    Counted(index, Ran(index, r, cs[..k], reportMs), r, cs[k].cur, cs[k].now, reportMs).edges
  }

  /** A window that count `w` opened runs on through count `k` - 1: no count before is below the first, and
      none is as late as its end. */
  ghost predicate Runs(r: Rule, cs: seq<Count>, w: nat, k: nat, reportMs: nat) {
    && w < k <= |cs|
    && forall m :: w < m < k ==> cs[w].cur <= cs[m].cur && cs[m].now < cs[w].now + Window(r, reportMs)
  }

  /** The counter rose by the rule's limit from count `w` to `k`. */
  ghost predicate Rose(r: Rule, cs: seq<Count>, w: nat, k: nat)
    requires w < |cs| && k < |cs|
  {
    r.hi > 0.0 && cs[w].cur as real + r.hi <= cs[k].cur as real
  }

  /** The latch's window is the one that count `w` opened. */
  ghost predicate Opened(l: Latch, cs: seq<Count>, w: nat) {
    w < |cs| && l.havePrevCount && l.prevCount == cs[w].cur && l.windowStart == cs[w].now
  }

  lemma {:induction false} WindowOpen(index: nat, r: Rule, cs: seq<Count>, reportMs: nat) returns (w: nat)
    requires r.enabled && cs != []
    ensures Opened(Ran(index, r, cs, reportMs), cs, w) && Runs(r, cs, w, |cs|, reportMs)
  {
    hide Window;
    var n := |cs| - 1;
    w := n;
    if n > 0 {
      var l := Ran(index, r, cs[..n], reportMs);
      if !Restarts(l, r, cs[n].cur, cs[n].now, reportMs) {
        w := WindowOpen(index, r, cs[..n], reportMs);
        assert forall m :: 0 <= m < n ==> cs[..n][m] == cs[m];
      }
    }
  }

  /** At every count but the first a window runs. The alarm starts exactly if the counter rose by the limit in
      it; it ends exactly if the count is at the window's end or later, and the counter neither rose so much
      in it nor went back. Nothing else is queued. */
  lemma CountEdges(index: nat, r: Rule, cs: seq<Count>, k: nat, reportMs: nat) returns (w: nat)
    requires r.enabled && 0 < k < |cs|
    ensures Runs(r, cs, w, k, reportMs)
    ensures var on := Ran(index, r, cs[..k], reportMs).active; var out := EdgesAt(index, r, cs, k, reportMs);
      && (out == [EventOf(index, r, true, Trigger)] <==> !on && cs[w].cur <= cs[k].cur && Rose(r, cs, w, k))
      && (out == [EventOf(index, r, false, Trigger)] <==>
            on && cs[w].cur <= cs[k].cur && !Rose(r, cs, w, k) && cs[k].now >= cs[w].now + Window(r, reportMs))
      && |out| <= 1 && (out != [] ==> out[0] == EventOf(index, r, !on, Trigger))
  {
    hide Window, Ran;
    w := WindowOpen(index, r, cs[..k], reportMs);
    assert forall m :: 0 <= m < k ==> cs[..k][m] == cs[m];
    TriggerEdges(index, r);
  }

  lemma TriggerEdges(index: nat, r: Rule)
    ensures EdgesBetween(index, r, Trigger, NoType) == [EventOf(index, r, false, Trigger)]
    ensures EdgesBetween(index, r, NoType, Trigger) == [EventOf(index, r, true, Trigger)]
    ensures EventOf(index, r, false, Trigger) != EventOf(index, r, true, Trigger)
  {
    assert EventOf(index, r, true, Trigger).active;
  }

  /** The first count only opens a window. */
  lemma FirstCount(index: nat, r: Rule, cs: seq<Count>, reportMs: nat)
    requires cs != []
    ensures EdgesAt(index, r, cs, 0, reportMs) == []
  {
    assert cs[..0] == [];
  }
}
