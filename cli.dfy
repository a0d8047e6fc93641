/**
 Start-up of `on`: the positional-argument check, the operations list and the
 listen-to-all switch, and the split of the positional arguments into the
 watched path and the command line.
 */
module Cli {
  import opened Wrappers
  import opened Filter

  /** Everything the event loop reads, fixed at start-up. `timeout` is the
      debounce timeout in logical milliseconds; it may be zero or negative. */
  datatype Config = Config(
    target: string,
    program: string,
    args: seq<string>,
    ops: seq<Op>,
    listenToAll: bool,
    timeout: int)

  /** Start-up after flag parsing. `None` is the usage exit: fewer than two
      positional arguments, and nothing else is set up. Otherwise the first
      positional argument is the watched path and the rest, unaltered, is the
      command line. */
  method Setup(f: Flags, timeout: int, positional: seq<string>) returns (r: Option<Config>)
    ensures r.None? <==> |positional| < 2
    ensures r.Some? ==> r.value.target == positional[0]
    ensures r.Some? ==> [r.value.program] + r.value.args == positional[1..]
    ensures r.Some? ==> r.value.ops == Selected(f)
    ensures r.Some? ==> (r.value.listenToAll <==> NoFlags(f))
    ensures r.Some? ==> r.value.timeout == timeout
  {
    if |positional| < 2 {
      return None;
    }
    var ops := BuildOps(f);
    var listenToAll := false;
    if |ops| == 0 {
      listenToAll := true;
    }
    ListenToAllIffNoFlags(f);
    r := Some(Config(positional[0], positional[1], positional[2..], ops, listenToAll, timeout));
  }
}
