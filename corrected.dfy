/**
 A debounce scheduler without the deferred-delete race. A timer's expiry and
 its callback's delete stay separate steps, as they are with `time.AfterFunc`
 (the callback starts in its own goroutine after the timer expires). Two
 changes close the gap:

 - the event handler re-arms the stored timer only while `Stop` reports it
   still pending; a stored timer that has already expired is replaced by a
   fresh one (`Store` overwrites the entry);
 - the callback deletes with `CompareAndDelete(name, self)`, so it removes the
   entry only while the map still holds its own timer.

 Expiry is `Debounce.FireStep` unchanged.
 */
module Corrected {
  import opened Wrappers
  import opened Filter
  import opened Cli
  import opened Debounce

  /** Every armed timer is the one the map holds for its path. Between an
      expiry and its callback's delete the map may still hold the expired
      timer; that timer is no longer armed. */
  predicate Guarded(s: Sched) {
    && WellFormed(s)
    && forall i :: 0 <= i < |s.timers| && s.timers[i].armed ==>
         s.timers[i].path in s.entries && s.entries[s.timers[i].path] == i
  }

  /** Event handling with the re-arm guarded by `Stop`: reset the stored
      timer if it is still pending, otherwise store a fresh timer. */
  function GuardedEventStep(c: Config, s: Sched, e: Event, now: nat): (st: Step)
    requires WellFormed(s)
    ensures WellFormed(st.next)
  {
    if e.name != c.target then Step(s, Drop)
    else if !Passes(c.listenToAll, c.ops, e.op) then Step(s, Drop)
    else if c.timeout <= 0 then Step(s, RunNow(Command(c)))
    else if e.name in s.entries && s.timers[s.entries[e.name]].armed then
      var id := s.entries[e.name];
      Step(s.(timers := s.timers[id := s.timers[id].(deadline := now + c.timeout)]), Reset(id))
    else
      var id := |s.timers|;
      Step(s.(entries := s.entries[e.name := id], timers := s.timers + [Timer(e.name, true, now + c.timeout)]),
           Start(id))
  }

  /** The callback of expired timer `id` returns: its path's entry goes only
      if the map still holds this very timer. */
  function GuardedCompleteStep(s: Sched, id: nat): (r: Sched)
    requires WellFormed(s)
    requires id < |s.timers| && !s.timers[id].armed && s.timers[id].path in s.inFlight
    ensures WellFormed(r)
    ensures r.timers == s.timers
    ensures forall p :: p in r.entries ==> p in s.entries && r.entries[p] == s.entries[p]
    ensures forall p :: p in s.entries && s.entries[p] != id ==> p in r.entries
  {
    var p := s.timers[id].path;
    Sched(if p in s.entries && s.entries[p] == id then s.entries - {p} else s.entries,
          s.timers, s.inFlight - multiset{p})
  }

  /** One step of the system: an event reaching the loop, a timer expiring
      (its callback starts and runs the command), or a callback returning. */
  datatype Move = Arrive(event: Event, at: nat) | Expire(timer: nat, at: nat) | Finish(timer: nat)

  /** A `Finish` of a timer whose callback is not running does nothing. */
  function Apply(c: Config, s: Sched, m: Move): (r: Sched)
    requires WellFormed(s)
    ensures WellFormed(r)
  {
    match m
    case Arrive(e, t) => GuardedEventStep(c, s, e, t).next
    case Expire(id, t) => FireStep(c, s, id, t).next
    case Finish(id) =>
      if id < |s.timers| && !s.timers[id].armed && s.timers[id].path in s.inFlight
      then GuardedCompleteStep(s, id) else s
  }

  /** The state after the moves, in order. */
  function RunMoves(c: Config, s: Sched, ms: seq<Move>): (r: Sched)
    requires WellFormed(s)
    ensures WellFormed(r)
    decreases |ms|
  {
    if |ms| == 0 then s else Apply(c, RunMoves(c, s, ms[..|ms| - 1]), ms[|ms| - 1])
  }

  lemma RunMovesSnoc(c: Config, s: Sched, ms: seq<Move>, m: Move)
    requires WellFormed(s)
    ensures RunMoves(c, s, ms + [m]) == Apply(c, RunMoves(c, s, ms), m)
  {
    assert (ms + [m])[..|ms|] == ms;
  }

  /** The guard changes nothing while the stored timer is pending or the
      path has no entry: then the corrected handler does what the code does. */
  lemma GuardedAgreesUnlessExpired(c: Config, s: Sched, e: Event, now: nat)
    requires WellFormed(s)
    requires e.name !in s.entries || s.timers[s.entries[e.name]].armed
    ensures GuardedEventStep(c, s, e, now) == EventStep(c, s, e, now)
  {
  }

  lemma GuardedAtMostOneArmed(s: Sched)
    requires Guarded(s)
    ensures AtMostOneArmed(s)
  {
    forall i, j | 0 <= i < |s.timers| && 0 <= j < |s.timers| && s.timers[i].armed && s.timers[j].armed
      && s.timers[i].path == s.timers[j].path
      ensures i == j
    {
      assert s.entries[s.timers[i].path] == i;
      assert s.entries[s.timers[j].path] == j;
    }
  }

  lemma GuardedEventKeeps(c: Config, s: Sched, e: Event, now: nat)
    requires Guarded(s)
    ensures Guarded(GuardedEventStep(c, s, e, now).next)
  {
    var n := GuardedEventStep(c, s, e, now).next;
    if Qualifies(c, e) && c.timeout > 0 {
      forall i | 0 <= i < |n.timers| && n.timers[i].armed
        ensures n.timers[i].path in n.entries && n.entries[n.timers[i].path] == i
      {
        if i < |s.timers| && s.timers[i].armed {
          assert s.entries[s.timers[i].path] == i;
        }
      }
    }
  }

  lemma ExpireKeepsGuarded(c: Config, s: Sched, id: nat, now: nat)
    requires Guarded(s)
    ensures Guarded(FireStep(c, s, id, now).next)
  {
    var n := FireStep(c, s, id, now).next;
    forall i | 0 <= i < |n.timers| && n.timers[i].armed
      ensures n.timers[i].path in n.entries && n.entries[n.timers[i].path] == i
    {
      assert s.timers[i].armed;
    }
  }

  lemma FinishKeepsGuarded(s: Sched, id: nat)
    requires Guarded(s)
    requires id < |s.timers| && !s.timers[id].armed && s.timers[id].path in s.inFlight
    ensures Guarded(GuardedCompleteStep(s, id))
  {
    var r := GuardedCompleteStep(s, id);
    forall i | 0 <= i < |r.timers| && r.timers[i].armed
      ensures r.timers[i].path in r.entries && r.entries[r.timers[i].path] == i
    {
      assert s.entries[s.timers[i].path] == i;
    }
  }

  /** Whatever the interleaving of events, expiries and returning callbacks,
      each path has at most one armed timer. */
  lemma {:induction false} EveryInterleavingKeepsOneTimer(c: Config, s: Sched, ms: seq<Move>)
    requires Guarded(s)
    ensures Guarded(RunMoves(c, s, ms))
    ensures AtMostOneArmed(RunMoves(c, s, ms))
    decreases |ms|
  {
    if |ms| > 0 {
      EveryInterleavingKeepsOneTimer(c, s, ms[..|ms| - 1]);
      var prev := RunMoves(c, s, ms[..|ms| - 1]);
      match ms[|ms| - 1]
      case Arrive(e, t) => GuardedEventKeeps(c, prev, e, t);
      case Expire(id, t) => ExpireKeepsGuarded(c, prev, id, t);
      case Finish(id) =>
        if id < |prev.timers| && !prev.timers[id].armed && prev.timers[id].path in prev.inFlight {
          FinishKeepsGuarded(prev, id);
        }
    }
    GuardedAtMostOneArmed(RunMoves(c, s, ms));
  }

  /** The arrivals of `Debounce.DeferredDeleteRace` under the correction: the
      event at 150 finds the expired timer and stores a fresh one, the old
      callback's delete leaves it alone, and the event at 200 resets it. One
      timer is armed, due at 300. */
  lemma GuardedNoRace()
    ensures var c := Config("f", "make", [], [], true, 100);
      var e := Event("f", Write);
      var s := RunMoves(c, Initial, [Arrive(e, 0), Expire(0, 100), Arrive(e, 150), Finish(0), Arrive(e, 200)]);
      && !ArmedFor(s, "f", 0)
      && ArmedFor(s, "f", 1) && s.timers[1].deadline == 300
      && s.entries == map["f" := 1]
  {
    var c := Config("f", "make", [], [], true, 100);
    var e := Event("f", Write);
    var m0, m1, m2, m3, m4 := Arrive(e, 0), Expire(0, 100), Arrive(e, 150), Finish(0), Arrive(e, 200);
    var p1 := [] + [m0];
    var p2 := p1 + [m1];
    var p3 := p2 + [m2];
    var p4 := p3 + [m3];
    var p5 := p4 + [m4];
    assert p5 == [m0, m1, m2, m3, m4];
    RunMovesSnoc(c, Initial, [], m0);
    RunMovesSnoc(c, Initial, p1, m1);
    RunMovesSnoc(c, Initial, p2, m2);
    RunMovesSnoc(c, Initial, p3, m3);
    RunMovesSnoc(c, Initial, p4, m4);
    var s1 := RunMoves(c, Initial, p1);
    assert s1.timers == [Timer("f", true, 100)] && s1.entries == map["f" := 0];
    var s2 := RunMoves(c, Initial, p2);
    assert Due(s1, 0, 100);
    assert s2.timers == [Timer("f", false, 100)] && s2.entries == s1.entries && s2.inFlight == multiset{"f"};
    var s3 := RunMoves(c, Initial, p3);
    assert s3.timers == [Timer("f", false, 100), Timer("f", true, 250)] && s3.entries == map["f" := 1];
    var s4 := RunMoves(c, Initial, p4);
    assert s4.timers == s3.timers && s4.entries == map["f" := 1];
    var s5 := RunMoves(c, Initial, p5);
    assert s5.timers == [Timer("f", false, 100), Timer("f", true, 300)];
  }
}
