# on: verified model of the event filter and debounce scheduler

`on` watches one file and runs a command when the file changes. It takes
`on [--create] [--write] [--rename] [--remove] [--chmod]
[--debounce-timeout=<duration>] <file> <cmd...>`. This Dafny project models
the decision logic of `main.go`:

- **Start-up** (`Cli.Setup`): with fewer than two positional arguments the
  program prints usage and stops before anything else is set up. Otherwise the
  first positional argument is the watched path and the rest is the command
  line, passed through unaltered. The five kind flags build the operations
  list in the order Create, Write, Rename, Remove, Chmod. An empty list turns
  on listen-to-all mode.
- **Operation filter** (`Filter`): fsnotify's `Op` is a 32-bit mask
  (`bv32`: Create 1, Write 2, Remove 4, Rename 8, Chmod 16). An event's
  operation passes when listen-to-all is on or when `ArrayHas` finds it in the
  list. `ArrayHas` compares with exact `==`, so a mask with several bits set,
  such as Write|Chmod, matches no listed kind and is dropped.
- **Path match and debounce** (`Debounce`, `EventLoop`): an event whose name
  is not exactly the watched path is dropped. If the timeout is not positive,
  the command runs at once and the debounce map is left alone. Otherwise the
  stored timer is reset to the full timeout, or a new timer is stored. A timer
  fires by running the command in its callback. The callback then deletes the
  path's map entry in a deferred call, so the entry is still present while the
  command runs.

Time is a logical clock of natural milliseconds. A `time.AfterFunc` timer is
a `Timer` value: the event name its callback closes over, whether it is armed,
and its deadline. The debounce map is a `map<string, nat>` from path to the
index of the timer stored for it. The scheduler's steps are pure functions
over this state (`EventStep`, `FireStep`, `CompleteStep`). The class
`EventLoop.Debouncer` holds the same state in mutable fields, and its methods
`OnEvent`, `Fire` and `Complete` are specified by those step functions. A
timer firing is split into two steps: `Fire` starts the callback and the
command, and `Complete` is the deferred delete once the command returns.
Events can arrive between the two steps, as they do in the program.

Two places where the code differs from how the tool is usually described;
the model follows the code:

- An event that arrives while a fired timer's command is still running finds
  the map entry still present. It therefore resets the timer that already
  fired, which Go's `Timer.Reset` documents as scheduling the callback to run
  again. It does not start a fresh timer. See "## Findings" for where this
  leads.
- With `--write`, a timeout of 50, and writes at 0, 10 and 80, the command
  runs at 60 as well as at 130, not only at 130. The gap from 10 to 80 is
  longer than the timeout, so the timer set at 10 is due at 60
  (`Bursts.WriteBurstThenLateWrite`).

## Model

| member | source | states |
|---|---|---|
| `Filter.ArrayHas` | main.go:34-43 | true iff some element equals the sought value exactly; false for an empty array |
| `Filter.BuildOps` | main.go:70-85 | the appended list equals the reference list of selected kinds (`Selected`) |
| `Filter.SelectedExactly` | main.go:70-85 | the list holds a kind iff its flag is set and holds nothing else; it is in the order Create, Write, Rename, Remove, Chmod, has no duplicates, and has at most five entries |
| `Filter.ListenToAllIffNoFlags` | main.go:89-92 | the list is empty (listen-to-all) iff no kind flag is set |
| `Filter.Passes` | main.go:118-120 | in listen-to-all mode every operation passes; otherwise an operation passes iff some listed operation equals it exactly |
| `Filter.PassesIff` | main.go:118-120 | an operation passes iff no flag is set or it equals a kind whose flag is set |
| `Filter.CombinedOpDropped` | main.go:118-120 | a mask with more than one bit set is dropped whenever some flag is set |
| `Filter.WriteChmodDropped` | main.go:118-120 | Write\|Chmod is dropped even with both `--write` and `--chmod` set |
| `Cli.Setup` | main.go:65-92 | usage exit iff fewer than two positional arguments; otherwise the target is the first argument, program plus arguments are exactly the rest, the ops list is `Selected`, and listen-to-all holds iff no flag is set |
| `Debounce.Qualifies` | main.go:113-120 | an event whose name is not the watched path never qualifies; one whose name is the path qualifies always in listen-to-all mode and otherwise iff its operation is listed |
| `Debounce.Command` | main.go:123 | every execution uses the configured program followed by its arguments unaltered (`Cli.Setup` makes these the positional arguments after the path) |
| `Debounce.EventStep` | main.go:113-146 | one event step keeps every map entry pointing at a timer made for its own path |
| `Debounce.FireStep` | main.go:143-145 | a due timer is disarmed, its callback is in flight, and the command runs; otherwise nothing changes; the map stays well formed |
| `Debounce.CompleteStep` | main.go:144 | the deferred delete removes the path's entry and keeps the map well formed |
| `Debounce.DropIffNotQualifying` | main.go:113-120 | an event is dropped iff its name is not the target or its operation fails the filter; a dropped event changes nothing |
| `Debounce.ImmediateRun` | main.go:122-125 | with timeout at most 0 a qualifying event runs the configured command at once and leaves the state unchanged |
| `Debounce.ResetOrStart` | main.go:127-146 | with timeout above 0 the path's timer is armed with deadline now + timeout; a present entry is reset with no entry added, and an absent one gets exactly one new entry; other keys, other timers and running callbacks are unchanged |
| `Debounce.InitialTracked` | main.go:31 | the empty map satisfies the one-armed-timer-per-path invariant |
| `Debounce.TrackedAtMostOneArmed` | main.go:31 | when the armed timers are exactly those in the map, no path has two armed timers |
| `Debounce.EventKeepsTracked` | main.go:127-146 | events preserve that invariant |
| `Debounce.FireThenCompleteKeepsTracked` | main.go:143-146 | when no event arrives during the run, a firing runs the command, keeps the entry present while the command runs, and restores the invariant after the deferred delete |
| `Debounce.DeferredDeleteRace` | main.go:137-146 | as written, an event during the run followed by one after the delete leaves two armed timers for one path |
| `Corrected.GuardedEventStep` | main.go:127-146 | corrected event step (re-arm only a pending timer, otherwise store a fresh one), keeping the map well formed |
| `Corrected.GuardedCompleteStep` | main.go:144 | corrected callback return: the entry goes only if the map still holds this timer; timers unchanged, no other entry removed, map well formed |
| `Corrected.GuardedAgreesUnlessExpired` | main.go:127-146 | the corrected event step equals the code's whenever the path has no entry or its stored timer is still pending |
| `Corrected.GuardedAtMostOneArmed` | main.go:31 | when every armed timer is the one the map holds for its path, no path has two armed timers |
| `Corrected.GuardedEventKeeps` | main.go:127-146 | corrected events preserve that invariant |
| `Corrected.ExpireKeepsGuarded` | main.go:143-145 | a timer expiring (callback starts) preserves it |
| `Corrected.FinishKeepsGuarded` | main.go:144 | a corrected callback return preserves it |
| `Corrected.EveryInterleavingKeepsOneTimer` | main.go:127-146 | any sequence of events, expiries and callback returns, in any order, keeps the invariant and so at most one armed timer per path |
| `Corrected.GuardedNoRace` | main.go:137-146 | the arrivals that break the code leave one armed timer under the correction, due a timeout after the last event, and the map holds it |
| `Bursts.Replay` | main.go:106-146 | feeding events in order keeps the map well formed and yields one action per event |
| `Bursts.IdleStarts` | main.go:142-146 | on an idle path a qualifying event starts a new timer, which is then the path's only armed one |
| `Bursts.PendingResets` | main.go:137-139 | on a pending path a qualifying event resets the same timer to now + timeout, and the map is unchanged |
| `Bursts.BurstCoalesces` | main.go:22-26 | a burst with every gap shorter than the timeout gives one Start and then Resets of the same timer, ending with one armed timer due at last event + timeout |
| `Bursts.BurstStaysQuiet` | main.go:127-139 | during such a burst no timer of the path is due when the next event arrives |
| `Bursts.ImmediateEveryEvent` | main.go:122-125 | with timeout at most 0 every qualifying event runs the command once and the state stays unchanged |
| `Bursts.DroppedChangeNothing` | main.go:113-120 | non-qualifying events are all dropped and change nothing |
| `Bursts.PendingRunsOnce` | main.go:143-146 | a pending timer runs the configured command at its deadline, the entry is present during the run, and afterwards the path is idle |
| `Bursts.WriteBurstThenLateWrite` | main.go:127-146 | `--write`, timeout 50, writes at 0 and 10: pending at 60, a run at 60, and a write at 80 arms a timer due at 130 |
| `Bursts.ListenToAllBurst` | main.go:89-92 | with no flags, a create at 0 and a chmod at 5 leave one timer due at 55 |
| `Bursts.RemoveOnlyDropsWrite` | main.go:118-120 | with `--remove` only, a write is dropped and nothing is scheduled |
| `EventLoop.Debouncer.constructor` | main.go:31 | the scheduler starts with an empty map |
| `EventLoop.Debouncer.OnEvent` | main.go:113-146 | the new state and the returned action are those of `EventStep`; the map stays well formed |
| `EventLoop.Debouncer.Fire` | main.go:143-145 | the new state and the returned run are those of `FireStep` |
| `EventLoop.Debouncer.Complete` | main.go:144 | the new state is that of `CompleteStep` |
| `EventLoop.DebounceClient` | main.go:113-146 | worked case on the class: two writes 10 apart with timeout 50, plus a write to another file and a Write\|Chmod event, give exactly one run, of the configured command line |

## Left out

- The fsnotify watcher, `watcher.Add` on the parent directory, the Events and
  Errors channels, the `select` loop, and the handling of closed channels and
  errors (main.go:94-111, 148-153). These are the OS notification service and
  channel I/O. The model takes events as inputs.
- Goroutines and `sync.Map` thread safety. Timer callbacks are separate steps
  (`Fire`, `Complete`) that can interleave with events in any order. Truly
  simultaneous map operations are not modelled.
- Which timer the Go runtime fires, and when. `Fire` is given the timer's
  index and the current time, and does nothing unless that timer is armed and
  due. The model does not force the clock to increase between steps.
- Process spawning and stdio wiring in `run` (main.go:53-59). An execution is
  a recorded `Run(program, args)`, and its discarded result has no effect.
- `flag.Parse` and the flag definitions (main.go:15-28, 63). Flag values and
  the timeout are inputs to `Cli.Setup`. `Debugf` output and the usage text
  are not modelled.
- The defensive type assertion at main.go:128-135. The model's map holds only
  timer indices, so that branch cannot occur.
- `time.Duration` is a 64-bit count of nanoseconds. The timeout is modelled as
  an unbounded integer of logical milliseconds, so `now + timeout` never
  overflows in the model.

## Findings

| source | as written | input that shows it | evidently intended | confidence | as-written member | corrected member |
|---|---|---|---|---|---|---|
| main.go:137-146 | The callback runs the command, then deletes the map entry (deferred). An event during the run finds the entry and resets the expired timer, which re-arms it. The delete then leaves that armed timer outside the map. | Timeout 100. Event at 0. The timer fires at 100 and the command is still running at 150 when an event arrives. The callback returns, then an event arrives at 200. Two timers are now armed for the path, due at 250 and 300, so a burst 50 apart runs the command twice. | At most one pending timer per path, and one run per quiet period. Re-arming the stored timer only when `Stop` reports it still pending, storing a fresh timer otherwise, and deleting in the callback with `CompareAndDelete(name, self)` gives this. | medium; not executed; depends on Go's documented behaviour that `Reset` re-schedules an `AfterFunc` callback that has already fired | `Debounce.DeferredDeleteRace` | `Corrected.EveryInterleavingKeepsOneTimer` |

`EventLoop.Debouncer` follows the code as written. The correction is the
module `Corrected`. A timer's expiry (`Debounce.FireStep`) and its callback's
return (`Corrected.GuardedCompleteStep`) stay separate steps there, and events
can arrive between them. `GuardedEventStep` resets the stored timer only while
it is still armed; otherwise it stores a fresh timer, overwriting the entry.
The callback removes the entry only when the map still holds its own timer.
`EveryInterleavingKeepsOneTimer` shows that every sequence of these three
steps keeps at most one armed timer per path. Deleting the entry before
running the command would not be enough. An event can arrive after the expiry
and before the callback deletes the entry, and that event would re-arm the
expired timer.
