/**
 The event loop's scheduler as the program keeps it: a debounce map and the
 timers it has made, updated in place by each event and by each timer
 callback. Every method is specified by the step function of the same name
 in `Debounce`, so the lemmas proved there hold of it.
 */
module EventLoop {
  import opened Wrappers
  import opened Filter
  import opened Cli
  import opened Debounce

  class Debouncer {
    const config: Config
    var entries: map<string, nat>
    var timers: seq<Timer>
    var inFlight: multiset<string>

    function State(): Sched
      reads this
    {
      Sched(entries, timers, inFlight)
    }

    ghost predicate Valid()
      reads this
    {
      WellFormed(State())
    }

    constructor (c: Config)
      ensures Valid()
      ensures config == c && State() == Initial
    {
      config := c;
      entries := map[];
      timers := [];
      inFlight := multiset{};
    }

    /** One event from the watcher: dropped unless its name is the watched
        path and its operation passes the filter; then run at once, or the
        stored timer reset, or a new timer stored. */
    method OnEvent(e: Event, now: nat) returns (a: Action)
      requires Valid()
      modifies this
      ensures Valid()
      ensures Step(State(), a) == EventStep(config, old(State()), e, now)
    {
      if e.name != config.target {
        return Drop;
      }
      var listed := ArrayHas(config.ops, e.op);
      if !config.listenToAll && !listed {
        return Drop;
      }
      if config.timeout <= 0 {
        return RunNow(Run(config.program, config.args));
      }
      if e.name in entries {
        var id := entries[e.name];
        timers := timers[id := timers[id].(armed := true, deadline := now + config.timeout)];
        return Reset(id);
      }
      var id := |timers|;
      timers := timers + [Timer(e.name, true, now + config.timeout)];
      entries := entries[e.name := id];
      return Start(id);
    }

    /** Timer `id` fires at `now` if it is due: its callback starts and runs
        the command; the map entry stays until `Complete`. */
    method Fire(id: nat, now: nat) returns (r: Option<Run>)
      requires Valid()
      modifies this
      ensures Valid()
      ensures Firing(State(), r) == FireStep(config, old(State()), id, now)
    {
      if id < |timers| && timers[id].armed && timers[id].deadline <= now {
        var path := timers[id].path;
        timers := timers[id := timers[id].(armed := false)];
        inFlight := inFlight + multiset{path};
        return Some(Run(config.program, config.args));
      }
      return None;
    }

    /** A callback's command has returned: the deferred delete of its path. */
    method Complete(path: string)
      requires Valid() && path in inFlight
      modifies this
      ensures Valid()
      ensures State() == CompleteStep(old(State()), path)
    {
      entries := entries - {path};
      inFlight := inFlight - multiset{path};
    }
  }

  /** The execution a firing attempt started, if any. */
  function Recorded(r: Option<Run>): seq<Run> {
    match r
    case None => []
    case Some(x) => [x]
  }

  /** A burst of two writes 10 apart with timeout 50, with a write to another
      file and a Write|Chmod event in between, leaves one timer. It is not due
      at 40 and runs the command once at 60, with the arguments as configured;
      after the callback returns, nothing is left to fire. `runs` records every
      execution in order. */
  method DebounceClient() returns (runs: seq<Run>)
    ensures runs == [Run("make", ["-C", "site"])]
  {
    runs := [];
    var c := Config("/tmp/a.txt", "make", ["-C", "site"], [Write], false, 50);
    var d := new Debouncer(c);
    var a := d.OnEvent(Event("/tmp/a.txt", Write), 0);
    assert a == Start(0);
    a := d.OnEvent(Event("/tmp/b.txt", Write), 5);
    assert a == Drop;
    a := d.OnEvent(Event("/tmp/a.txt", Write | Chmod), 8);
    assert a == Drop;
    a := d.OnEvent(Event("/tmp/a.txt", Write), 10);
    assert a == Reset(0);
    var r := d.Fire(0, 40);
    assert r == None;
    r := d.Fire(0, 60);
    runs := runs + Recorded(r);
    assert "/tmp/a.txt" in d.entries;
    d.Complete("/tmp/a.txt");
    assert d.entries == map[];
    r := d.Fire(0, 1000);
    runs := runs + Recorded(r);
  }
}
