/** Running commands on many devices at once: rows are placed by index, so what comes out
    does not depend on who finishes first. */
module Batch {
  import opened Prelude

  datatype Reason =
    | NotInInventory(device: string) | ConnectFailed(text: string) | TransportError(text: string) | CommandTimeout | BatchTimeout

  datatype CommandOutcome = CommandOutcome(command: string, ok: bool, value: Option<string>, error: Option<Reason>)

  datatype RouterResult = RouterResult(router: string, commands: seq<CommandOutcome>)

  datatype Args = Args(
    devices: seq<string>, commands: seq<string>, maxConcurrentDevices: nat, batchTimeout: Option<nat>, capsOk: bool)

  datatype Error =
    | BadCaps | NoDevices | NoCommands | NoConcurrency | TooManyDevices | TooManyCommands
    | Denied(device: string, command: string)

  /** What a device would answer: whether it can be reached, and each command's reply. */
  datatype Answer = Output(text: string) | Fails(text: string) | Silent
  datatype Device = Device(unreachable: Option<string>, answers: nat -> Answer)

  // ----- one device -----

  function Failure(command: string, reason: Reason): CommandOutcome { CommandOutcome(command, false, None,
                                                                                     Some(reason)) }

  function AllFailed(device: string, commands: seq<string>, reason: Reason): RouterResult {
    RouterResult(device, seq(|commands|, k requires 0 <= k < |commands| => Failure(commands[k], reason)))
  }

  function Outcome(command: string, a: Answer): CommandOutcome {
    match a
    case Output(text) => CommandOutcome(command, true, Some(text), None)
    case Fails(text) => Failure(command, TransportError(text))
    case Silent => Failure(command, CommandTimeout)
  }

  function Row(name: string, commands: seq<string>, d: Device): RouterResult {
    if d.unreachable.Some? then AllFailed(name, commands, ConnectFailed(d.unreachable.value))
    else RouterResult(name, seq(|commands|, k requires 0 <= k < |commands| => Outcome(commands[k], d.answers(k))))
  }

  method RunDevice(name: string, commands: seq<string>, d: Device) returns (row: RouterResult)
    ensures row == Row(name, commands, d)
  {
    if d.unreachable.Some? { return AllFailed(name, commands, ConnectFailed(d.unreachable.value)); }
    var outs: seq<CommandOutcome> := [];
    for k := 0 to |commands|
      invariant outs == seq(k, j requires 0 <= j < k => Outcome(commands[j], d.answers(j)))
    {
      outs := outs + [Outcome(commands[k], d.answers(k))];
    }
    row := RouterResult(name, outs);
  }

  // ----- the table -----

  /** What is known before anything runs: rows of devices not in the inventory. */
  function Preflight(args: Args, inventory: set<string>): seq<Option<RouterResult>> {
    seq(|args.devices|, i requires 0 <= i < |args.devices| =>
      if args.devices[i] in inventory then None
      else Some(AllFailed(args.devices[i], args.commands, NotInInventory(args.devices[i]))))
  }

  /** The places of known devices. */
  function Known(args: Args, inventory: set<string>): set<nat> {
    set i: nat | i < |args.devices| && args.devices[i] in inventory
  }

  /** The table after these completions, in this order. */
  function Collected(args: Args, inventory: set<string>, world: nat -> Device,
                     completions: seq<nat>): seq<Option<RouterResult>>
    requires forall k :: 0 <= k < |completions| ==> completions[k] < |args.devices|
    ensures |Collected(args, inventory, world, completions)| == |args.devices|
  {
    if completions == [] then Preflight(args, inventory)
    else
      var i := completions[|completions| - 1];
      var earlier := Collected(args, inventory, world, completions[..|completions| - 1]);
      earlier[i := Some(Row(args.devices[i], args.commands, world(i)))]
  }

  function Processed(c: CommandOutcome, process: (string, string) -> string): CommandOutcome {
    if c.value.Some? then c.(value := Some(process(c.command, c.value.value))) else c
  }

  function ProcessedRow(r: RouterResult, process: (string, string) -> string): RouterResult {
    r.(commands := seq(|r.commands|, k requires 0 <= k < |r.commands| => Processed(r.commands[k], process)))
  }

  /** Row `i`, given which places finished. */
  function RowAt(args: Args, inventory: set<string>, world: nat -> Device, finished: set<nat>, i: nat): RouterResult
    requires i < |args.devices|
  {
    var name := args.devices[i];
    if i in finished then Row(name, args.commands, world(i))
    else if name !in inventory then AllFailed(name, args.commands, NotInInventory(name))
    else AllFailed(name, args.commands, BatchTimeout)
  }

  function Table(args: Args, inventory: set<string>, world: nat -> Device, finished: set<nat>,
                 process: (string, string) -> string): seq<RouterResult> {
    seq(|args.devices|, i requires 0 <= i < |args.devices| => ProcessedRow(RowAt(args, inventory, world, finished, i), process))
  }

  // ----- what the table is -----

  /** Row `i` is for device `i`, with one outcome for each command in order, and each
      outcome has exactly one of a value and an error. */
  lemma TableShape(args: Args, inventory: set<string>, world: nat -> Device, finished: set<nat>,
                   process: (string, string) -> string, i: nat, k: nat)
    requires i < |args.devices| && k < |args.commands|
    ensures var table := Table(args, inventory, world, finished, process);
            && |table| == |args.devices| && table[i].router == args.devices[i]
            && |table[i].commands| == |args.commands| && table[i].commands[k].command == args.commands[k]
            && (table[i].commands[k].value.Some? <==> table[i].commands[k].ok)
            && (table[i].commands[k].error.Some? <==> !table[i].commands[k].ok)
  {
    var row := RowAt(args, inventory, world, finished, i);
    assert Table(args, inventory, world, finished, process)[i] == ProcessedRow(row, process);
    RowAtShape(args, inventory, world, finished, i, k);
    assert ProcessedRow(row, process).commands[k] == Processed(row.commands[k], process);
  }

  lemma RowAtShape(args: Args, inventory: set<string>, world: nat -> Device, finished: set<nat>, i: nat, k: nat)
    requires i < |args.devices| && k < |args.commands|
    ensures var row := RowAt(args, inventory, world, finished, i);
            && row.router == args.devices[i] && |row.commands| == |args.commands| && row.commands[k].command == args.commands[k]
            && (row.commands[k].value.Some? <==> row.commands[k].ok) && (row.commands[k].error.Some? <==> !row.commands[k].ok)
  {
    var c, d := args.commands[k], world(i);
    assert Outcome(c, d.answers(k)).command == c;
    if i in finished && d.unreachable.None? {
      assert RowAt(args, inventory, world, finished, i).commands[k] == Outcome(c, d.answers(k));
    }
  }

  /** A value is a device's own processed output to this command, and only known devices
      that finished have any; anything else is an error with the reason there was. */
  lemma ValuesAreOutputs(args: Args, inventory: set<string>, world: nat -> Device, finished: set<nat>,
                         process: (string, string) -> string, i: nat, k: nat)
    requires i < |args.devices| && k < |args.commands| && finished <= Known(args, inventory)
    ensures var c := Table(args, inventory, world, finished, process)[i].commands[k];
            && (c.ok <==> i in finished && world(i).unreachable.None? && world(i).answers(k).Output?)
            && (c.ok ==> c.value == Some(process(args.commands[k], world(i).answers(k).text)))
            && (c.error == Some(BatchTimeout) <==> i !in finished && args.devices[i] in inventory)
            && (forall n :: c.error == Some(NotInInventory(n)) <==> args.devices[i] !in inventory && n == args.devices[i])
            && (forall t :: c.error == Some(ConnectFailed(t)) <==> i in finished && world(i).unreachable == Some(t))
            && (forall t :: c.error == Some(TransportError(t)) <==>
                            i in finished && world(i).unreachable.None? && world(i).answers(k) == Fails(t))
            && (c.error == Some(CommandTimeout) <==> i in finished && world(i).unreachable.None? && world(i).answers(k) == Silent)
  {
    var row := RowAt(args, inventory, world, finished, i);
    assert Table(args, inventory, world, finished, process)[i] == ProcessedRow(row, process);
    assert ProcessedRow(row, process).commands[k] == Processed(row.commands[k], process);
  }

  lemma {:induction false} CollectedAt(args: Args, inventory: set<string>, world: nat -> Device,
                                       completions: seq<nat>, i: nat)
    requires (forall k :: 0 <= k < |completions| ==> completions[k] < |args.devices|) && i < |args.devices|
    ensures Collected(args, inventory, world, completions)[i]
         == if i in completions then Some(Row(args.devices[i], args.commands, world(i))) else Preflight(args, inventory)[i]
    decreases |completions|
  {
    if completions != [] {
      var earlier, last := completions[..|completions| - 1], completions[|completions| - 1];
      assert completions == earlier + [last];
      CollectedAt(args, inventory, world, earlier, i);
    }
  }

  /** The order of completions does not matter, only which there were. */
  lemma OrderDoesNotMatter(args: Args, inventory: set<string>, world: nat -> Device, a: seq<nat>, b: seq<nat>)
    requires (forall k :: 0 <= k < |a| ==> a[k] < |args.devices|) && (forall k :: 0 <= k < |b| ==> b[k] < |args.devices|)
    requires forall j :: j in a <==> j in b
    ensures Collected(args, inventory, world, a) == Collected(args, inventory, world, b)
  {
    forall i | 0 <= i < |args.devices|
      ensures Collected(args, inventory, world, a)[i] == Collected(args, inventory, world, b)[i]
    {
      CollectedAt(args, inventory, world, a, i);
      CollectedAt(args, inventory, world, b, i);
    }
  }

  // ----- the batch -----

  /** What is checked before anything else; of several faults the first is reported. */
  function Validate(args: Args): (r: Option<Error>)
    ensures r.None? <==>
            args.capsOk && args.maxConcurrentDevices > 0 && 1 <= |args.devices| <= 100 && 1 <= |args.commands| <= 50
    ensures r == Some(BadCaps) <==> !args.capsOk
    ensures r == Some(NoDevices) ==> |args.devices| == 0
    ensures r == Some(NoCommands) ==> |args.commands| == 0 && |args.devices| > 0
    ensures r == Some(NoConcurrency) ==> args.maxConcurrentDevices == 0 && |args.devices| > 0 && |args.commands| > 0
    ensures r == Some(TooManyDevices) ==> |args.devices| > 100 && args.maxConcurrentDevices > 0
    ensures r == Some(TooManyCommands) ==> |args.commands| > 50 && 0 < |args.devices| <= 100
    ensures r.Some? ==> !r.value.Denied?
  {
    if !args.capsOk then Some(BadCaps)
    else if args.devices == [] then Some(NoDevices)
    else if args.commands == [] then Some(NoCommands)
    else if args.maxConcurrentDevices == 0 then Some(NoConcurrency)
    else if |args.devices| > 100 then Some(TooManyDevices)
    else if |args.commands| > 50 then Some(TooManyCommands)
    else None
  }

  /** No known device is denied any of these commands. */
  predicate Permitted(args: Args, inventory: set<string>, allowed: (string, string) -> bool) {
    forall d <- args.devices, c <- args.commands :: d in inventory ==> allowed(d, c)
  }

  method CheckPolicy(args: Args, inventory: set<string>, allowed: (string, string) -> bool)
    returns (denied: Option<Error>)
    ensures denied.None? <==> Permitted(args, inventory, allowed)
    ensures denied.Some? ==>
              exists d, c ::
                && d in args.devices && c in args.commands && d in inventory && !allowed(d, c)
                && denied.value == Denied(d, c)
  {
    for i := 0 to |args.devices|
      invariant forall j, k :: 0 <= j < i && 0 <= k < |args.commands| && args.devices[j] in inventory ==>
                                 allowed(args.devices[j], args.commands[k])
    {
      if args.devices[i] in inventory {
        for k := 0 to |args.commands|
          invariant forall n :: 0 <= n < k ==> allowed(args.devices[i], args.commands[n])
        {
          if !allowed(args.devices[i], args.commands[k]) {
            return Some(Denied(args.devices[i], args.commands[k]));
          }
        }
      }
    }
    return None;
  }

  /** What a run of the batch did: which sessions were opened, which tasks finished,
      which crashed, and the most devices at work at once. */
  datatype Trace = Trace(connected: set<nat>, finished: set<nat>, crashed: set<nat>, peak: nat)

  ghost predicate Ran(args: Args, known: set<nat>, t: Trace) {
    && t.finished <= t.connected <= known && t.crashed <= t.connected
    && t.peak <= args.maxConcurrentDevices
    && (args.batchTimeout.None? ==> t.finished + t.crashed == known)
  }

  /** Whatever the order in which permits are given and tasks finish, and whenever the
      batch times out: the answer is the table of the devices that finished. Nothing is
      opened unless every pair is allowed. */
  method HandleWithRunner(args: Args, inventory: set<string>, allowed: (string, string) -> bool,
                          world: nat -> Device, process: (string, string) -> string)
    returns (r: Result<seq<RouterResult>, Error>, t: Trace)
    ensures r.Err? ==> t.connected == {}
    ensures r.Ok? <==> Validate(args).None? && Permitted(args, inventory, allowed)
    ensures Validate(args).Some? ==> r == Err(Validate(args).value)
    ensures Validate(args).None? && r.Err? ==> r.error.Denied?
    ensures r.Ok? ==> Ran(args, Known(args, inventory), t) && r.value == Table(args, inventory, world, t.finished, process)
  {
    t := Trace({}, {}, {}, 0);
    if Validate(args).Some? { return Err(Validate(args).value), t; }
    var denied := CheckPolicy(args, inventory, allowed);
    if denied.Some? { return Err(denied.value), t; }
    var results: seq<Option<RouterResult>>;
    results, t := Collect(args, Known(args, inventory), Preflight(args, inventory), world);
    var rows := FillAndProcess(args, results, process);
    TableOf(args, inventory, world, t.finished, results, rows, process);
    r := Ok(rows);
  }

  /** Tasks wait for a permit, run, and are placed as they finish. */
  method Collect(args: Args, known: set<nat>, preflight: seq<Option<RouterResult>>, world: nat -> Device)
    returns (results: seq<Option<RouterResult>>, t: Trace)
    requires args.maxConcurrentDevices > 0 && |preflight| == |args.devices| && forall i :: i in known ==> i < |args.devices|
    ensures Ran(args, known, t) && PlacedRows(args, world, t.finished, preflight, results)
  {
    results := preflight;
    t := Trace({}, {}, {}, 0);
    var waiting, running := known, {};
    while waiting != {} || running != {}
      invariant Going(args, known, t, waiting, running)
      invariant PlacedRows(args, world, t.finished, preflight, results)
      decreases |waiting|, |running|
    {
      var timesOut: bool, start: bool := *, *;
      if args.batchTimeout.Some? && timesOut { break; }
      if waiting != {} && |running| < args.maxConcurrentDevices && (start || running == {}) {
        var i :| i in waiting;
        StartedOk(args, known, t, waiting, running, i);
        waiting, running, t := waiting - {i}, running + {i}, Started(t, i, |running| + 1);
      } else {
        var i :| i in running;
        var crashes: bool := *;
        ghost var before := t;
        EndedOk(args, known, t, waiting, running, i, crashes);
        running, t := running - {i}, Ended(t, i, crashes);
        if !crashes {
          var row := RunDevice(args.devices[i], args.commands, world(i));
          PlacedOne(args, world, before.finished, preflight, results, i);
          results := results[i := Some(row)];
        }
      }
    }
  }

  ghost predicate PlacedRows(args: Args, world: nat -> Device, finished: set<nat>,
                             preflight: seq<Option<RouterResult>>, results: seq<Option<RouterResult>>) {
    && |results| == |preflight| == |args.devices|
    && forall i :: 0 <= i < |results| ==>
                     results[i] == if i in finished then Some(Row(args.devices[i], args.commands, world(i))) else preflight[i]
  }

  lemma PlacedOne(args: Args, world: nat -> Device, finished: set<nat>, preflight: seq<Option<RouterResult>>,
                  results: seq<Option<RouterResult>>, i: nat)
    requires i < |args.devices| && PlacedRows(args, world, finished, preflight, results)
    ensures PlacedRows(args, world, finished + {i}, preflight, results[i := Some(Row(args.devices[i], args.commands, world(i)))])
  {}

  /** The tasks that wait, those that hold a permit, and what happened so far. */
  ghost predicate Going(args: Args, known: set<nat>, t: Trace, waiting: set<nat>, running: set<nat>) {
    && known == waiting + t.connected && waiting !! t.connected
    && t.connected == running + (t.finished + t.crashed) && running !! (t.finished + t.crashed)
    && |running| <= t.peak <= args.maxConcurrentDevices
  }

  /** A waiting task gets a permit and opens its session, `now` tasks being at work. */
  function Started(t: Trace, i: nat, now: nat): Trace {
    t.(connected := t.connected + {i}, peak := if now > t.peak then now else t.peak)
  }

  lemma StartedOk(args: Args, known: set<nat>, t: Trace, waiting: set<nat>, running: set<nat>, i: nat)
    requires Going(args, known, t, waiting, running) && i in waiting && |running| < args.maxConcurrentDevices
    ensures Going(args, known, Started(t, i, |running| + 1), waiting - {i}, running + {i})
    ensures |waiting - {i}| < |waiting| && |running + {i}| == |running| + 1
  {}

  /** A running task ends and gives its permit back. */
  function Ended(t: Trace, i: nat, crashes: bool): Trace {
    if crashes then t.(crashed := t.crashed + {i}) else t.(finished := t.finished + {i})
  }

  lemma EndedOk(args: Args, known: set<nat>, t: Trace, waiting: set<nat>, running: set<nat>, i: nat, crashes: bool)
    requires Going(args, known, t, waiting, running) && i in running
    ensures Going(args, known, Ended(t, i, crashes), waiting, running - {i})
    ensures |running - {i}| < |running| && i in known
  {
    assert i in t.connected;
    assert Ended(t, i, crashes).finished + Ended(t, i, crashes).crashed == t.finished + t.crashed + {i};
  }

  /** Rows still empty timed out; then every output is processed in place. */
  method FillAndProcess(args: Args, results: seq<Option<RouterResult>>, process: (string, string) -> string)
    returns (rows: seq<RouterResult>)
    requires |results| == |args.devices|
    ensures |rows| == |results|
    ensures forall i :: 0 <= i < |rows| ==> rows[i] == ProcessedRow(Filled(args, results, i), process)
  {
    rows := seq(|results|, i requires 0 <= i < |results| => Filled(args, results, i));
    for i := 0 to |rows|
      invariant |rows| == |results|
      invariant forall j :: 0 <= j < i ==> rows[j] == ProcessedRow(Filled(args, results, j), process)
      invariant forall j :: i <= j < |rows| ==> rows[j] == Filled(args, results, j)
    {
      var outs := rows[i].commands;
      for k := 0 to |outs|
        invariant |outs| == |rows[i].commands|
        invariant forall j :: 0 <= j < k ==> outs[j] == Processed(rows[i].commands[j], process)
        invariant forall j :: k <= j < |outs| ==> outs[j] == rows[i].commands[j]
      {
        if outs[k].value.Some? {
          outs := outs[k := outs[k].(value := Some(process(outs[k].command, outs[k].value.value)))];
        }
      }
      assert outs == ProcessedRow(rows[i], process).commands;
      rows := rows[i := rows[i].(commands := outs)];
    }
  }

  function Filled(args: Args, results: seq<Option<RouterResult>>, i: nat): RouterResult
    requires i < |results| == |args.devices|
  {
    if results[i].Some? then results[i].value else AllFailed(args.devices[i], args.commands, BatchTimeout)
  }

  lemma TableOf(args: Args, inventory: set<string>, world: nat -> Device, finished: set<nat>,
                results: seq<Option<RouterResult>>,
                rows: seq<RouterResult>, process: (string, string) -> string)
    requires PlacedRows(args, world, finished, Preflight(args, inventory), results) && |rows| == |results|
    requires forall i :: 0 <= i < |rows| ==> rows[i] == ProcessedRow(Filled(args, results, i), process)
    ensures rows == Table(args, inventory, world, finished, process)
  {
    forall i | 0 <= i < |rows| ensures Filled(args, results, i) == RowAt(args, inventory, world, finished, i) {}
  }
}
