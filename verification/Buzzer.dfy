/** The buzzer's stop protocol: callers and the playback thread as interleaved steps over a one-slot
    request queue and an abort flag. */
module Buzzer {
  import opened Bytes

  /** A request: its pattern is `commands` long over all repetitions; `repeats` asks for replays. */
  datatype Request = Request(id: nat, commands: nat, repeats: bool)

  /** Where the playback thread is. */
  datatype Pc =
    | Waiting(repeating: bool)                        // in k_msgq_get
    | Got(taken: Option<Request>, repeating: bool)    // it has returned, the abort flag is not yet consumed
    | Ready                                           // about to execute `active`
    | Check(k: nat)                                   // before command k, where the abort flag is read
    | Run(k: nat)                                     // about to run command k
    | Ended                                           // execute_request has returned
    | Resting(repeating: bool)                        // in the sleep after a playback

  datatype State = State(queue: Option<Request>, abort: bool, pc: Pc, active: Request)

  datatype Event =
    // callers
    | Put(r: Request)          // a request enters the empty queue
    | Discard                  // a caller that found the queue full removes what is in it
    | Off                      // app_buzzer_set(false)
    | Stop                     // kind 0: the flag is set and the queue purged with the scheduler locked
    // the playback thread
    | Take                     // the get returns a request
    | NoRequest                // the get returns without one: the repeat time is over, or a purge woke it
    | Consume(stale: bool)     // the flag is consumed, and what to do is decided
    | Begin
    | Next                     // between two commands
    | Command                  // one pattern command
    | Finish
    | Rest

  /** The step `e` takes, if it can happen. */
  function Step(s: State, e: Event): Option<State> {
    match e
    case Put(r) => if s.queue.None? then Some(s.(queue := Some(r))) else None
    case Discard => Some(s.(queue := None))
    case Off => Some(s.(abort := true))
    case Stop => Some(s.(abort := true, queue := None))
    case Take => if s.pc.Waiting? && s.queue.Some? then Some(s.(pc := Got(s.queue, s.pc.repeating), queue := None)) else None
    case NoRequest => if s.pc.Waiting? then Some(s.(pc := Got(None, s.pc.repeating))) else None
    case Consume(stale) =>
      if !s.pc.Got? then None
      else
        var repeating := s.pc.repeating && !s.abort;
        var t := s.(abort := false);
        if s.pc.taken.None? then Some(t.(pc := if repeating then Ready else Waiting(false)))
        else if stale then Some(t.(pc := Waiting(repeating)))
        else Some(t.(pc := Ready, active := s.pc.taken.value))
    case Begin => if s.pc.Ready? then Some(s.(pc := Check(0))) else None
    case Next =>
      if !s.pc.Check? then None
      else if s.pc.k >= s.active.commands || s.abort then Some(s.(pc := Ended))
      else Some(s.(pc := Run(s.pc.k)))
    case Command => if s.pc.Run? then Some(s.(pc := Check(s.pc.k + 1))) else None
    case Finish => if s.pc.Ended? then Some(s.(pc := Resting(!s.abort && s.active.repeats))) else None
    case Rest => if s.pc.Resting? then Some(s.(pc := Waiting(s.pc.repeating))) else None
  }

  /** A run: any interleaving of such steps. */
  ghost predicate IsRun(ss: seq<State>, es: seq<Event>) {
    |ss| == |es| + 1 && forall i {:trigger es[i]} :: 0 <= i < |es| ==> Step(ss[i], es[i]) == Some(ss[i + 1])
  }

  /** The thread starts to play a request it has just taken. */
  predicate PlaysNew(s: State, e: Event) {
    s.pc.Got? && s.pc.taken.Some? && e == Consume(false)
  }

  /** The thread decides to play `active` again. */
  predicate Replays(s: State, e: Event) {
    s.pc.Got? && s.pc.taken.None? && e.Consume? && s.pc.repeating && !s.abort
  }

  /** Commands run in the steps [i, j). */
  function Commands(es: seq<Event>, i: nat, j: nat): nat
    requires i <= j <= |es|
  {
    if i == j then 0 else Commands(es, i, j - 1) + if es[j - 1].Command? then 1 else 0
  }

  /** After a stop: the melody is over but for a command already decided on, and nothing is to be
      repeated; `n` commands have been run since. */
  ghost predicate Stopped(s: State, n: nat) {
    && (s.pc.Waiting? || s.pc.Got? || s.pc.Resting? ==> s.abort || !s.pc.repeating)
    && (s.pc.Ready? || s.pc.Check? || s.pc.Run? || s.pc.Ended? ==> s.abort)
    && n + (if s.pc.Run? then 1 else 0) <= 1
  }

  lemma {:induction false} StoppedStays(ss: seq<State>, es: seq<Event>, i: nat, j: nat)
    requires IsRun(ss, es) && i < j <= |es| && es[i] == Stop
    requires forall m :: i < m < j ==> !PlaysNew(ss[m], es[m])
    ensures Stopped(ss[j], Commands(es, i + 1, j))
  {
    hide Step, Stopped;
    assert Step(ss[j - 1], es[j - 1]) == Some(ss[j]);
    if j > i + 1 {
      StoppedStays(ss, es, i, j - 1);
      StoppedStep(ss[j - 1], es[j - 1], ss[j], Commands(es, i + 1, j - 1));
    } else {
      StopStep(ss[i], ss[j]);
    }
  }

  lemma StopStep(s: State, t: State)
    requires Step(s, Stop) == Some(t)
    ensures Stopped(t, 0)
  {
  }

  lemma StoppedStep(s: State, e: Event, t: State, n: nat)
    requires Step(s, e) == Some(t) && Stopped(s, n) && !PlaysNew(s, e)
    ensures Stopped(t, n + if e.Command? then 1 else 0)
  {
  }

  /** Once a stop completes, whatever the interleaving, the melody whose playback had begun runs at most
      one more command and does not replay, up to when the thread plays a request it takes anew. */
  lemma StopStops(ss: seq<State>, es: seq<Event>, i: nat, j: nat)
    requires IsRun(ss, es) && i < j <= |es| && es[i] == Stop
    requires forall m :: i < m < j ==> !PlaysNew(ss[m], es[m])
    ensures Commands(es, i + 1, j) <= 1
    ensures forall m :: i < m < j ==> !Replays(ss[m], es[m])
  {
    StoppedStays(ss, es, i, j);
    forall m | i < m < j
      ensures !Replays(ss[m], es[m])
    {
      StoppedStays(ss, es, i, m);
    }
  }

  /** What is in the queue after a stop was put there after it. */
  lemma {:induction false} QueuedAfterStop(ss: seq<State>, es: seq<Event>, i: nat, j: nat)
    requires IsRun(ss, es) && i < j <= |es| && es[i] == Stop && ss[j].queue.Some?
    ensures exists p :: i < p < j && es[p] == Put(ss[j].queue.value)
  {
    assert Step(ss[j - 1], es[j - 1]) == Some(ss[j]);
    if j > i + 1 && ss[j - 1].queue == ss[j].queue {
      QueuedAfterStop(ss, es, i, j - 1);
    }
  }

  /** A request taken from the queue and not yet begun is the one thing a stop misses: with any other
      thread position, the next request played after the stop was put after it. */
  lemma {:induction false} TakenAfterStop(ss: seq<State>, es: seq<Event>, i: nat, j: nat)
    requires IsRun(ss, es) && i < j <= |es| && es[i] == Stop && !(ss[i].pc.Got? && ss[i].pc.taken.Some?)
    requires ss[j].pc.Got? && ss[j].pc.taken.Some?
    ensures exists p :: i < p < j && es[p] == Put(ss[j].pc.taken.value)
  {
    assert Step(ss[j - 1], es[j - 1]) == Some(ss[j]);
    if es[j - 1] == Take {
      QueuedAfterStop(ss, es, i, j - 1);
    } else if j > i + 1 {
      TakenAfterStop(ss, es, i, j - 1);
    }
  }

  /** Requests like `r` that are in the queue, or taken and not yet decided on. */
  function Held(s: State, r: Request): nat {
    (if s.queue == Some(r) then 1 else 0) + if s.pc.Got? && s.pc.taken == Some(r) then 1 else 0
  }

  function Puts(es: seq<Event>, r: Request, j: nat): nat
    requires j <= |es|
  {
    if j == 0 then 0 else Puts(es, r, j - 1) + if es[j - 1] == Put(r) then 1 else 0
  }

  /** How often the thread began `r` anew, repeats apart. */
  function Plays(ss: seq<State>, es: seq<Event>, r: Request, j: nat): nat
    requires j <= |es| < |ss|
  {
    if j == 0 then 0
    else Plays(ss, es, r, j - 1) + if PlaysNew(ss[j - 1], es[j - 1]) && ss[j - 1].pc.taken == Some(r) then 1 else 0
  }

  /** Repeats apart, a request is played no more often than it was put. */
  lemma {:induction false} PlayedOnce(ss: seq<State>, es: seq<Event>, r: Request, j: nat)
    requires IsRun(ss, es) && j <= |es|
    ensures Plays(ss, es, r, j) + Held(ss[j], r) <= Puts(es, r, j) + Held(ss[0], r)
    ensures j < |es| && PlaysNew(ss[j], es[j]) ==> ss[j + 1].active == ss[j].pc.taken.value
  {
    if j < |es| {
      assert Step(ss[j], es[j]) == Some(ss[j + 1]);
    }
    if j > 0 {
      PlayedOnce(ss, es, r, j - 1);
      assert Step(ss[j - 1], es[j - 1]) == Some(ss[j]);
    }
  }

  /** That one request plays in full, after the stop: the thread consumes the stop's own flag. */
  lemma StopMisses(s: State, r: Request, repeating: bool)
    requires s.pc == Got(Some(r), repeating)
    ensures Step(s, Stop).Some?
    ensures var a := Step(s, Stop).value; Step(a, Consume(false)) == Some(State(None, false, Ready, r))
    ensures Step(State(None, false, Ready, r), Begin) == Some(State(None, false, Check(0), r))
    ensures forall k: nat :: k < r.commands ==>
              && Step(State(None, false, Check(k), r), Next) == Some(State(None, false, Run(k), r))
              && Step(State(None, false, Run(k), r), Command) == Some(State(None, false, Check(k + 1), r))
  {
  }

  /** Off flags raised before a request was taken do not touch it: unless one is raised after the take,
      its playback, and each replay of it, reads no abort. */
  lemma {:induction false} NotSuppressed(ss: seq<State>, es: seq<Event>, t: nat, m: nat)
    requires IsRun(ss, es) && t < m <= |es| && es[t] == Take
    requires forall p :: t < p < m ==> !es[p].Off? && !es[p].Stop?
    ensures !ss[m].abort || (ss[m].pc.Got? && ss[m].pc.taken == ss[t].queue)
  {
    assert Step(ss[m - 1], es[m - 1]) == Some(ss[m]);
    if m > t + 1 {
      NotSuppressed(ss, es, t, m - 1);
    }
  }

  /** So the request, once begun, runs all of its commands, and then again if it repeats. */
  lemma PlaysOut(ss: seq<State>, es: seq<Event>, t: nat, m: nat)
    requires IsRun(ss, es) && t < m < |es| && es[t] == Take
    requires forall p :: t < p < m ==> !es[p].Off? && !es[p].Stop?
    ensures es[m] == Next && ss[m + 1].pc.Ended? ==> ss[m].pc.k >= ss[m].active.commands
    ensures es[m] == Finish ==> ss[m + 1].pc.repeating == ss[m].active.repeats
    ensures es[m].Consume? && ss[m].pc.taken.None? && ss[m].pc.repeating ==> ss[m + 1].pc.Ready?
  {
    NotSuppressed(ss, es, t, m);
    assert Step(ss[m], es[m]) == Some(ss[m + 1]);
  }
}
