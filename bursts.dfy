/**
 Sequences of events through the scheduler: a burst of qualifying events
 closer together than the timeout leaves one armed timer, due a full timeout
 after the last event; without a positive timeout every qualifying event runs
 the command; events that do not qualify change nothing.
 */
module Bursts {
  import opened Wrappers
  import opened Filter
  import opened Cli
  import opened Debounce

  /** An event and the logical time it arrives. */
  datatype Timed = Timed(event: Event, at: nat)

  /** The state after a sequence of events, and what the loop did with each. */
  datatype Trace = Trace(final: Sched, actions: seq<Action>)

  /** Feeds the events to the loop one after another, no timer firing in
      between. */
  function Replay(c: Config, s: Sched, evs: seq<Timed>): (t: Trace)
    requires WellFormed(s)
    ensures WellFormed(t.final)
    ensures |t.actions| == |evs|
    decreases |evs|
  {
    if |evs| == 0 then Trace(s, [])
    else
      var prev := Replay(c, s, evs[..|evs| - 1]);
      var st := EventStep(c, prev.final, evs[|evs| - 1].event, evs[|evs| - 1].at);
      Trace(st.next, prev.actions + [st.action])
  }

  /** Path `p` has no map entry and no armed timer. */
  predicate Idle(s: Sched, p: string) {
    p !in s.entries && forall i :: 0 <= i < |s.timers| ==> !ArmedFor(s, p, i)
  }

  /** Path `p` has a map entry whose timer is armed with deadline `d`, and no
      other timer is armed for `p`. */
  predicate PendingAt(s: Sched, p: string, d: nat) {
    && p in s.entries
    && ArmedFor(s, p, s.entries[p])
    && s.timers[s.entries[p]].deadline == d
    && forall i :: 0 <= i < |s.timers| && ArmedFor(s, p, i) ==> i == s.entries[p]
  }

  /** No timer armed for `p` is due at time `t`. */
  predicate QuietAt(s: Sched, p: string, t: nat) {
    forall i :: 0 <= i < |s.timers| && ArmedFor(s, p, i) ==> s.timers[i].deadline > t
  }

  /** Every event qualifies, and each arrives no earlier than the one before
      it and less than a timeout after it. */
  predicate Burst(c: Config, evs: seq<Timed>) {
    && (forall k :: 0 <= k < |evs| ==> Qualifies(c, evs[k].event))
    && (forall k :: 0 < k < |evs| ==> evs[k - 1].at <= evs[k].at < evs[k - 1].at + c.timeout)
  }

  /** A qualifying event on an idle path starts a new timer, due a full
      timeout later, and it is the path's only armed timer. */
  lemma IdleStarts(c: Config, s: Sched, e: Event, now: nat)
    requires WellFormed(s) && Idle(s, c.target)
    requires Qualifies(c, e) && c.timeout > 0
    ensures var st := EventStep(c, s, e, now);
      && st.action == Start(|s.timers|)
      && st.next.entries[c.target] == |s.timers|
      && PendingAt(st.next, c.target, now + c.timeout)
  {
    var st := EventStep(c, s, e, now);
    forall i | 0 <= i < |st.next.timers| && ArmedFor(st.next, c.target, i)
      ensures i == |s.timers|
    {
      if i < |s.timers| {
        assert ArmedFor(s, c.target, i);
      }
    }
  }

  /** A qualifying event on a pending path resets the same timer to a full
      timeout from now; the map does not change. */
  lemma PendingResets(c: Config, s: Sched, e: Event, now: nat, d: nat)
    requires WellFormed(s) && PendingAt(s, c.target, d)
    requires Qualifies(c, e) && c.timeout > 0
    ensures var st := EventStep(c, s, e, now);
      && st.action == Reset(s.entries[c.target])
      && st.next.entries == s.entries
      && PendingAt(st.next, c.target, now + c.timeout)
  {
    var st := EventStep(c, s, e, now);
    forall i | 0 <= i < |st.next.timers| && ArmedFor(st.next, c.target, i)
      ensures i == s.entries[c.target]
    {
      if i != s.entries[c.target] {
        assert ArmedFor(s, c.target, i);
      }
    }
  }

  /** A burst on an idle path coalesces: the first event starts a timer,
      every later one resets that same timer, and at the end one timer is
      armed, due a full timeout after the last event. */
  lemma {:induction false} BurstCoalesces(c: Config, s: Sched, evs: seq<Timed>)
    requires WellFormed(s) && Idle(s, c.target)
    requires c.timeout > 0 && |evs| > 0 && Burst(c, evs)
    ensures var t := Replay(c, s, evs);
      && PendingAt(t.final, c.target, evs[|evs| - 1].at + c.timeout)
      && t.actions[0] == Start(t.final.entries[c.target])
      && (forall k :: 0 < k < |evs| ==> t.actions[k] == Reset(t.final.entries[c.target]))
    decreases |evs|
  {
    var n := |evs|;
    var init := evs[..n - 1];
    var prev := Replay(c, s, init);
    var e := evs[n - 1];
    if n == 1 {
      assert init == [];
      IdleStarts(c, s, e.event, e.at);
    } else {
      assert Burst(c, init);
      BurstCoalesces(c, s, init);
      PendingResets(c, prev.final, e.event, e.at, evs[n - 2].at + c.timeout);
      var t := Replay(c, s, evs);
      assert t.actions == prev.actions + [Reset(prev.final.entries[c.target])];
    }
  }

  /** During a burst the path's timer never comes due: at the arrival of
      each later event, no armed timer of the path has reached its deadline,
      so a firing attempt in between would run nothing. */
  lemma BurstStaysQuiet(c: Config, s: Sched, evs: seq<Timed>)
    requires WellFormed(s) && Idle(s, c.target)
    requires c.timeout > 0 && |evs| > 0 && Burst(c, evs)
    ensures forall k :: 0 < k < |evs| ==> QuietAt(Replay(c, s, evs[..k]).final, c.target, evs[k].at)
  {
    forall k | 0 < k < |evs|
      ensures QuietAt(Replay(c, s, evs[..k]).final, c.target, evs[k].at)
    {
      BurstPrefix(c, evs, k);
      BurstCoalesces(c, s, evs[..k]);
      assert evs[..k][k - 1] == evs[k - 1];
    }
  }

  /** Every non-empty prefix of a burst is a burst. */
  lemma BurstPrefix(c: Config, evs: seq<Timed>, k: nat)
    requires 0 < k <= |evs| && Burst(c, evs)
    ensures Burst(c, evs[..k])
  {
    var pre := evs[..k];
    assert forall j :: 0 <= j < |pre| ==> pre[j] == evs[j];
  }

  /** Without a positive timeout there is no coalescing: each qualifying event
      runs the configured command once, at once, and the scheduler's state
      stays as it was. */
  lemma {:induction false} ImmediateEveryEvent(c: Config, s: Sched, evs: seq<Timed>)
    requires WellFormed(s) && c.timeout <= 0
    requires forall k :: 0 <= k < |evs| ==> Qualifies(c, evs[k].event)
    ensures Replay(c, s, evs).final == s
    ensures forall k :: 0 <= k < |evs| ==> Replay(c, s, evs).actions[k] == RunNow(Command(c))
    decreases |evs|
  {
    if |evs| > 0 {
      var init := evs[..|evs| - 1];
      ImmediateEveryEvent(c, s, init);
      ImmediateRun(c, s, evs[|evs| - 1].event, evs[|evs| - 1].at);
    }
  }

  /** Events that do not qualify (another path in the same directory, or an
      operation the filter rejects) are all dropped and change nothing. */
  lemma {:induction false} DroppedChangeNothing(c: Config, s: Sched, evs: seq<Timed>)
    requires WellFormed(s)
    requires forall k :: 0 <= k < |evs| ==> !Qualifies(c, evs[k].event)
    ensures Replay(c, s, evs).final == s
    ensures forall k :: 0 <= k < |evs| ==> Replay(c, s, evs).actions[k] == Drop
    decreases |evs|
  {
    if |evs| > 0 {
      var init := evs[..|evs| - 1];
      DroppedChangeNothing(c, s, init);
      DropIffNotQualifying(c, s, evs[|evs| - 1].event, evs[|evs| - 1].at);
    }
  }

  /** The pending timer of a path runs the command once when its deadline
      comes; once the callback returns, the path is idle again, so no further
      run follows without a new event. */
  lemma PendingRunsOnce(c: Config, s: Sched, p: string, d: nat)
    requires WellFormed(s) && PendingAt(s, p, d)
    ensures var f := FireStep(c, s, s.entries[p], d);
      && f.run == Some(Command(c))
      && p in f.next.entries
      && Idle(CompleteStep(f.next, p), p)
  {
    var id := s.entries[p];
    var f := FireStep(c, s, id, d);
    var r := CompleteStep(f.next, p);
    assert Due(s, id, d);
    assert r.timers == s.timers[id := s.timers[id].(armed := false)];
    forall i | 0 <= i < |r.timers|
      ensures !ArmedFor(r, p, i)
    {
      if i != id {
        assert r.timers[i] == s.timers[i];
        assert !ArmedFor(s, p, i);
      }
    }
  }

  // ---------------------------------------------------------------------
  // Worked cases

  const Target := "/tmp/a.txt"

  function WriteAt(t: nat): Timed {
    Timed(Event(Target, Write), t)
  }

  /** `--write`, timeout 50, writes at 0 and 10: one timer, due at 60. It is
      due at 60 and fires then, since no event arrives between 10 and 80; a
      write at 80 after that run arms a fresh timer due at 130. */
  lemma WriteBurstThenLateWrite()
    ensures var c := Config(Target, "make", [], Selected(Flags(false, true, false, false, false)), false, 50);
      var t := Replay(c, Initial, [WriteAt(0), WriteAt(10)]);
      var f := FireStep(c, t.final, 0, 60);
      && PendingAt(t.final, Target, 60)
      && t.final.entries[Target] == 0
      && f.run == Some(Run("make", []))
      && Target in f.next.inFlight
      && PendingAt(EventStep(c, CompleteStep(f.next, Target), Event(Target, Write), 80).next, Target, 130)
  {
    var f := Flags(false, true, false, false, false);
    var c := Config(Target, "make", [], Selected(f), false, 50);
    assert Selected(f) == [Write];
    var evs := [WriteAt(0), WriteAt(10)];
    assert Burst(c, evs);
    BurstCoalesces(c, Initial, evs);
    var t := Replay(c, Initial, evs);
    assert t.actions[0] == Start(0);
    PendingRunsOnce(c, t.final, Target, 60);
    var s := CompleteStep(FireStep(c, t.final, 0, 60).next, Target);
    IdleStarts(c, s, Event(Target, Write), 80);
  }

  /** No kind flag: a create at 0 and a chmod at 5 both qualify, and with
      timeout 50 one timer is armed, due at 55. */
  lemma ListenToAllBurst()
    ensures var c := Config(Target, "make", [], Selected(Flags(false, false, false, false, false)), true, 50);
      var evs := [Timed(Event(Target, Create), 0), Timed(Event(Target, Chmod), 5)];
      PendingAt(Replay(c, Initial, evs).final, Target, 55)
  {
    var c := Config(Target, "make", [], Selected(Flags(false, false, false, false, false)), true, 50);
    var evs := [Timed(Event(Target, Create), 0), Timed(Event(Target, Chmod), 5)];
    assert Burst(c, evs);
    BurstCoalesces(c, Initial, evs);
  }

  /** `--remove` only: a write is dropped and nothing is scheduled. */
  lemma RemoveOnlyDropsWrite()
    ensures var c := Config(Target, "make", [], Selected(Flags(false, false, false, true, false)), false, 50);
      Replay(c, Initial, [WriteAt(0)]) == Trace(Initial, [Drop])
  {
    var c := Config(Target, "make", [], Selected(Flags(false, false, false, true, false)), false, 50);
    assert Selected(Flags(false, false, false, true, false)) == [Remove];
    DroppedChangeNothing(c, Initial, [WriteAt(0)]);
  }
}
