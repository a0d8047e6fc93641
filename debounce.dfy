/**
 The event path of `on` after start-up: the path match, the operation filter
 and the debounce scheduler, which keeps one timer per watched path in a
 shared map (`debounceMap`) and runs the configured command when a timer
 fires.

 Time is a logical clock in milliseconds. A timer made by `time.AfterFunc` is
 a `Timer` value: the event name its callback closes over, whether it is
 armed, and when it is due. The map holds, for each path, the index of the
 timer stored for it. Firing a timer starts its callback; the callback runs
 the command and, on its way out (a deferred call), deletes the map entry of
 its path. The two halves are separate steps (`FireStep`, `CompleteStep`)
 because events keep arriving while the command runs.
 */
module Debounce {
  import opened Wrappers
  import opened Filter
  import opened Cli

  /** A raw change notification: the path it concerns and its operation mask. */
  datatype Event = Event(name: string, op: Op)

  /** One execution of the external command: program and arguments. */
  datatype Run = Run(program: string, args: seq<string>)

  /** What the event loop does with one event. `Reset` and `Start` carry the
      index of the timer they re-arm or create. */
  datatype Action = Drop | RunNow(run: Run) | Reset(timer: nat) | Start(timer: nat)

  /** A timer made by `time.AfterFunc` for event name `path`. It is `armed`
      while its callback is scheduled and has not yet been started. */
  datatype Timer = Timer(path: string, armed: bool, deadline: nat)

  /** The scheduler's state: the debounce map (path to timer index), every
      timer made so far, and the paths whose callbacks are running the command
      and have not yet executed their deferred delete. */
  datatype Sched = Sched(entries: map<string, nat>, timers: seq<Timer>, inFlight: multiset<string>)

  datatype Step = Step(next: Sched, action: Action)

  datatype Firing = Firing(next: Sched, run: Option<Run>)

  const Initial: Sched := Sched(map[], [], multiset{})

  /** The command line every execution uses: the configured program and its
      arguments, exactly as given on the command line. */
  function Command(c: Config): (r: Run)
    ensures [r.program] + r.args == [c.program] + c.args
  {
    Run(c.program, c.args)
  }

  /** An event reaches the scheduler when its name is exactly the watched
      path and its operation passes the filter. */
  function Qualifies(c: Config, e: Event): (r: bool)
    ensures e.name != c.target ==> !r
    ensures e.name == c.target && c.listenToAll ==> r
    ensures e.name == c.target && !c.listenToAll ==> (r <==> e.op in c.ops)
  {
    e.name == c.target && Passes(c.listenToAll, c.ops, e.op)
  }

  /** Every map entry names a timer that was made for its own path. */
  predicate WellFormed(s: Sched) {
    forall p :: p in s.entries ==> s.entries[p] < |s.timers| && s.timers[s.entries[p]].path == p
  }

  /** Timer `i` is armed and waiting to run the command for path `p`. */
  predicate ArmedFor(s: Sched, p: string, i: nat) {
    i < |s.timers| && s.timers[i].armed && s.timers[i].path == p
  }

  /** No two armed timers wait on the same path. */
  predicate AtMostOneArmed(s: Sched) {
    forall i, j ::
      (0 <= i < |s.timers| && 0 <= j < |s.timers| && s.timers[i].armed && s.timers[j].armed
       && s.timers[i].path == s.timers[j].path) ==> i == j
  }

  /** The scheduler's intended invariant: the armed timers are exactly the
      ones the map holds, one per path. */
  predicate Tracked(s: Sched) {
    && WellFormed(s)
    && (forall p :: p in s.entries ==> s.timers[s.entries[p]].armed)
    && (forall i :: 0 <= i < |s.timers| && s.timers[i].armed ==>
          s.timers[i].path in s.entries && s.entries[s.timers[i].path] == i)
  }

  /** Timer `id` exists, is armed, and its deadline has come. */
  predicate Due(s: Sched, id: nat, now: nat) {
    id < |s.timers| && s.timers[id].armed && s.timers[id].deadline <= now
  }

  /** One event through the loop: path match, operation filter, then either
      an immediate run (timeout not positive), a reset of the stored timer, or
      a new timer stored under the event's name. */
  function EventStep(c: Config, s: Sched, e: Event, now: nat): (st: Step)
    requires WellFormed(s)
    ensures WellFormed(st.next)
  {
    if e.name != c.target then Step(s, Drop)
    else if !Passes(c.listenToAll, c.ops, e.op) then Step(s, Drop)
    else if c.timeout <= 0 then Step(s, RunNow(Command(c)))
    else if e.name in s.entries then
      var id := s.entries[e.name];
      Step(s.(timers := s.timers[id := s.timers[id].(armed := true, deadline := now + c.timeout)]), Reset(id))
    else
      var id := |s.timers|;
      Step(s.(entries := s.entries[e.name := id], timers := s.timers + [Timer(e.name, true, now + c.timeout)]),
           Start(id))
  }

  /** Timer `id` fires at `now` if it is due: its callback starts running the
      command, and the map entry stays until the callback returns. */
  function FireStep(c: Config, s: Sched, id: nat, now: nat): (f: Firing)
    requires WellFormed(s)
    ensures WellFormed(f.next)
  {
    if Due(s, id, now) then
      var t := s.timers[id];
      Firing(s.(timers := s.timers[id := t.(armed := false)], inFlight := s.inFlight + multiset{t.path}),
             Some(Command(c)))
    else
      Firing(s, None)
  }

  /** A running callback for `path` returns: its deferred delete removes
      whatever the map holds under `path`. */
  function CompleteStep(s: Sched, path: string): (r: Sched)
    requires WellFormed(s)
    requires path in s.inFlight
    ensures WellFormed(r)
  {
    Sched(s.entries - {path}, s.timers, s.inFlight - multiset{path})
  }

  // ---------------------------------------------------------------------
  // One event

  /** An event is dropped exactly when it does not qualify, and a dropped
      event changes nothing: no run, no map change. */
  lemma DropIffNotQualifying(c: Config, s: Sched, e: Event, now: nat)
    requires WellFormed(s)
    ensures EventStep(c, s, e, now).action == Drop <==> !Qualifies(c, e)
    ensures !Qualifies(c, e) ==> EventStep(c, s, e, now).next == s
  {
  }

  /** Without a positive timeout every qualifying event runs the configured
      command at once and leaves the scheduler as it was. */
  lemma ImmediateRun(c: Config, s: Sched, e: Event, now: nat)
    requires WellFormed(s)
    requires Qualifies(c, e) && c.timeout <= 0
    ensures EventStep(c, s, e, now) == Step(s, RunNow(Command(c)))
  {
  }

  /** With a positive timeout a qualifying event arms exactly one timer for
      its path, due a full timeout from now: the stored one if the map has an
      entry (reset, no entry added), a new one otherwise (one entry added).
      Other paths' entries, the other timers, and the running callbacks are
      untouched. */
  lemma ResetOrStart(c: Config, s: Sched, e: Event, now: nat)
    requires WellFormed(s)
    requires Qualifies(c, e) && c.timeout > 0
    ensures var st := EventStep(c, s, e, now);
      && e.name in st.next.entries
      && var id := st.next.entries[e.name];
      && st.next.timers[id] == Timer(e.name, true, now + c.timeout)
      && (e.name in s.entries ==>
            st.action == Reset(id) && st.next.entries == s.entries && |st.next.timers| == |s.timers|)
      && (e.name !in s.entries ==>
            && st.action == Start(id) && st.next.entries.Keys == s.entries.Keys + {e.name}
            && |st.next.entries| == |s.entries| + 1 && |st.next.timers| == |s.timers| + 1)
      && (forall p :: p in s.entries && p != e.name ==> p in st.next.entries && st.next.entries[p] == s.entries[p])
      && (forall i :: 0 <= i < |s.timers| && i != id ==> st.next.timers[i] == s.timers[i])
      && st.next.inFlight == s.inFlight
  {
    if e.name !in s.entries {
      var st := EventStep(c, s, e, now);
      assert st.next.entries.Keys == s.entries.Keys + {e.name};
      assert |s.entries.Keys + {e.name}| == |s.entries.Keys| + 1;
    }
  }

  // ---------------------------------------------------------------------
  // The intended invariant

  lemma InitialTracked()
    ensures Tracked(Initial) && AtMostOneArmed(Initial)
  {
  }

  /** The intended invariant gives at most one armed timer per path. */
  lemma TrackedAtMostOneArmed(s: Sched)
    requires Tracked(s)
    ensures AtMostOneArmed(s)
  {
    forall i, j | 0 <= i < |s.timers| && 0 <= j < |s.timers| && s.timers[i].armed && s.timers[j].armed
      && s.timers[i].path == s.timers[j].path
      ensures i == j
    {
      assert s.entries[s.timers[i].path] == i;
      assert s.entries[s.timers[j].path] == j;
    }
  }

  /** Events keep the intended invariant. */
  lemma EventKeepsTracked(c: Config, s: Sched, e: Event, now: nat)
    requires Tracked(s)
    ensures Tracked(EventStep(c, s, e, now).next)
  {
    var st := EventStep(c, s, e, now);
    if Qualifies(c, e) && c.timeout > 0 {
      var n := st.next;
      forall i | 0 <= i < |n.timers| && n.timers[i].armed
        ensures n.timers[i].path in n.entries && n.entries[n.timers[i].path] == i
      {
        if i < |s.timers| && s.timers[i].armed {
          assert s.entries[s.timers[i].path] == i;
        }
      }
    }
  }

  /** As written, a timer that fires while no event arrives during its run
      (fire, then the callback returns) also keeps the invariant. */
  lemma FireThenCompleteKeepsTracked(c: Config, s: Sched, id: nat, now: nat)
    requires Tracked(s)
    requires Due(s, id, now)
    ensures var f := FireStep(c, s, id, now);
      && f.run == Some(Command(c))
      && s.timers[id].path in f.next.inFlight
      && s.timers[id].path in f.next.entries
      && Tracked(CompleteStep(f.next, s.timers[id].path))
  {
    var f := FireStep(c, s, id, now);
    var p := s.timers[id].path;
    assert s.entries[p] == id;
    var r := CompleteStep(f.next, p);
    forall i | 0 <= i < |r.timers| && r.timers[i].armed
      ensures r.timers[i].path in r.entries && r.entries[r.timers[i].path] == i
    {
      assert i != id;
      assert s.timers[i].armed;
      assert s.entries[s.timers[i].path] == i;
    }
  }

  // ---------------------------------------------------------------------
  // The race in the deferred delete

  /** As written: the timer fires at 100, an event arrives at 150 while the
      command runs and re-arms the fired timer (the map still holds it), the
      callback returns and deletes the entry, and an event at 200 stores a
      second timer. Two armed timers now wait on the path, one due at 250 and
      one at 300, though the events at 150 and 200 are 50 apart with a
      timeout of 100. */
  lemma DeferredDeleteRace()
    ensures var c := Config("f", "make", [], [], true, 100);
      var e := Event("f", Write);
      var s1 := EventStep(c, Initial, e, 0).next;
      var s2 := FireStep(c, s1, 0, 100).next;
      var s3 := EventStep(c, s2, e, 150).next;
      var s4 := CompleteStep(s3, "f");
      var s5 := EventStep(c, s4, e, 200).next;
      && ArmedFor(s5, "f", 0) && s5.timers[0].deadline == 250
      && ArmedFor(s5, "f", 1) && s5.timers[1].deadline == 300
      && !AtMostOneArmed(s5)
  {
    var c := Config("f", "make", [], [], true, 100);
    var e := Event("f", Write);
    var s1 := EventStep(c, Initial, e, 0).next;
    assert s1.timers == [Timer("f", true, 100)] && s1.entries == map["f" := 0];
    var s2 := FireStep(c, s1, 0, 100).next;
    assert s2.timers == [Timer("f", false, 100)] && s2.entries == s1.entries;
    assert s2.inFlight == multiset{"f"};
    var s3 := EventStep(c, s2, e, 150).next;
    assert s3.timers == [Timer("f", true, 250)];
    var s4 := CompleteStep(s3, "f");
    assert s4.entries == map[];
    var s5 := EventStep(c, s4, e, 200).next;
    assert s5.timers == [Timer("f", true, 250), Timer("f", true, 300)];
  }
}
