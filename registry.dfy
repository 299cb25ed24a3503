/** The command registry (`CommandRegistry` in commands/registry.go): a map
    from command names to handlers, and the two ways of running a command
    string against it. `Execute` scans the string into a chain of commands and
    runs them in order, stopping at the first command that is not registered
    or whose handler reports an error. `ExecuteChain` first cuts the string at
    every `;`, quotes or not, and runs each trimmed piece through `Execute`.

    Handlers are pure functions here. What a Go handler changes as it runs
    (captured variables, the UI, the fields behind the context pointer) is the
    world `W` it receives and returns; the registry itself only threads it
    from one call to the next. */
module Registry {
  import opened Sequences
  import opened Strings
  import opened Tokenizer

  datatype Option<T> = None | Some(value: T)

  /** What every handler receives besides its arguments (commands/context.go);
      the logger is reduced to an opaque identifier. */
  datatype CommandContext = CommandContext(logger: nat, currentPage: string)

  /** What a handler returns: `nil`, or an error with its text. */
  datatype Status = Ok | Fail(cause: string)

  /** A handler: from the world before the call, the context and the
      arguments, to the world after the call and its status. */
  type CommandFunc<!W> = (W, CommandContext, seq<string>) -> (W, Status)

  /** The two errors `Execute` produces. */
  datatype ExecError = NotFound(name: string) | HandlerFailed(name: string, cause: string)

  /** The text of the error, as `fmt.Errorf` formats it. */
  function Message(e: ExecError): string
  {
    match e
    case NotFound(n) => "Command '" + n + "' not found"
    case HandlerFailed(n, c) => "Error executing command '" + n + "': " + c
  }

  /** One call of a handler: the command name and the arguments passed. */
  datatype Invocation = Invocation(name: string, args: seq<string>)

  /** Where a run ends: the error returned (if any), the world after it, and
      the calls made, in order. */
  datatype Outcome<W> = Outcome(err: Option<ExecError>, world: W, trace: seq<Invocation>)

  /** `next` ran after `o`, which ended without error. */
  function AndThen<W>(o: Outcome<W>, next: Outcome<W>): (r: Outcome<W>)
    ensures r.err == next.err && r.world == next.world
    ensures |r.trace| == |o.trace| + |next.trace| && r.trace[..|o.trace|] == o.trace
  {
    Outcome(next.err, next.world, o.trace + next.trace)
  }

  /** One command of a chain, run after the earlier ones ended in `o` without
      error: an empty command is skipped; otherwise the first token names the
      handler and the rest are its arguments. An unknown name stops the run
      before any call; a failing handler stops it after its call. */
  function RunCommand<W>(reg: map<string, CommandFunc<W>>, ctx: CommandContext, o: Outcome<W>, command: seq<string>): Outcome<W>
  {
    if command == [] then o
    else if command[0] !in reg then o.(err := Some(NotFound(command[0])))
    else
      var (w, status) := reg[command[0]](o.world, ctx, command[1..]);
      var trace := o.trace + [Invocation(command[0], command[1..])];
      if status.Fail? then Outcome(Some(HandlerFailed(command[0], status.cause)), w, trace)
      else Outcome(None, w, trace)
  }

  /** The loop of `Execute` over a parsed chain, from world `w`. */
  function Dispatch<W>(reg: map<string, CommandFunc<W>>, ctx: CommandContext, w: W, chain: seq<seq<string>>): Outcome<W>
    decreases |chain|
  {
    if chain == [] then Outcome(None, w, [])
    else
      var o := Dispatch(reg, ctx, w, chain[..|chain| - 1]);
      if o.err.Some? then o else RunCommand(reg, ctx, o, chain[|chain| - 1])
  }

  /** The loop of `ExecuteChain` over the `;`-pieces of its input: each
      piece is trimmed and run as a command string of its own. */
  function DispatchSegments<W>(reg: map<string, CommandFunc<W>>, ctx: CommandContext, w: W, segments: seq<string>): Outcome<W>
    decreases |segments|
  {
    if segments == [] then Outcome(None, w, [])
    else
      var o := DispatchSegments(reg, ctx, w, segments[..|segments| - 1]);
      if o.err.Some? then o
      else AndThen(o, Dispatch(reg, ctx, o.world, Parse(Trim(segments[|segments| - 1]))))
  }

  lemma DispatchSnoc<W>(reg: map<string, CommandFunc<W>>, ctx: CommandContext, w: W, chain: seq<seq<string>>, command: seq<string>)
    ensures var o := Dispatch(reg, ctx, w, chain);
      Dispatch(reg, ctx, w, chain + [command]) == if o.err.Some? then o else RunCommand(reg, ctx, o, command)
  {
    assert (chain + [command])[..|chain|] == chain;
  }

  lemma SegmentsSnoc<W>(reg: map<string, CommandFunc<W>>, ctx: CommandContext, w: W, segments: seq<string>, s: string)
    ensures var o := DispatchSegments(reg, ctx, w, segments);
      DispatchSegments(reg, ctx, w, segments + [s])
        == if o.err.Some? then o else AndThen(o, Dispatch(reg, ctx, o.world, Parse(Trim(s))))
  {
    assert (segments + [s])[..|segments|] == segments;
  }

  /** The piece at `i` runs after the pieces before it ended without error. */
  lemma SegmentStep<W>(reg: map<string, CommandFunc<W>>, ctx: CommandContext, w: W, pieces: seq<string>, i: nat)
    requires i < |pieces| && DispatchSegments(reg, ctx, w, pieces[..i]).err == None
    ensures var o := DispatchSegments(reg, ctx, w, pieces[..i]);
      DispatchSegments(reg, ctx, w, pieces[..i + 1]) == AndThen(o, Dispatch(reg, ctx, o.world, Parse(Trim(pieces[i]))))
  {
    assert pieces[..i + 1][..i] == pieces[..i];
  }

  /** Once a run has failed, later commands change nothing. */
  lemma {:induction false} DispatchErrorFinal<W>(reg: map<string, CommandFunc<W>>, ctx: CommandContext, w: W, a: seq<seq<string>>, b: seq<seq<string>>)
    requires Dispatch(reg, ctx, w, a).err.Some?
    ensures Dispatch(reg, ctx, w, a + b) == Dispatch(reg, ctx, w, a)
    decreases |b|
  {
    if b == [] {
      assert a + b == a;
    } else {
      DispatchErrorFinal(reg, ctx, w, a, b[..|b| - 1]);
      DispatchSnoc(reg, ctx, w, a + b[..|b| - 1], b[|b| - 1]);
      SnocLast(b);
      AppendSnoc(a, b[..|b| - 1], b[|b| - 1]);
    }
  }

  /** Once a piece has failed, later pieces are not run. */
  lemma {:induction false} SegmentsErrorFinal<W>(reg: map<string, CommandFunc<W>>, ctx: CommandContext, w: W, a: seq<string>, b: seq<string>)
    requires DispatchSegments(reg, ctx, w, a).err.Some?
    ensures DispatchSegments(reg, ctx, w, a + b) == DispatchSegments(reg, ctx, w, a)
    decreases |b|
  {
    if b == [] {
      assert a + b == a;
    } else {
      SegmentsErrorFinal(reg, ctx, w, a, b[..|b| - 1]);
      SegmentsSnoc(reg, ctx, w, a + b[..|b| - 1], b[|b| - 1]);
      SnocLast(b);
      AppendSnoc(a, b[..|b| - 1], b[|b| - 1]);
    }
  }

  // ---------------------------------------------------------------------------
  // What a run does

  /** The calls a chain asks for: one per non-empty command, named by its
      first token, with the remaining tokens as arguments. */
  function Plan(chain: seq<seq<string>>): (plan: seq<Invocation>)
    ensures |plan| <= |chain|
    decreases |chain|
  {
    if chain == [] then []
    else
      var c := chain[|chain| - 1];
      Plan(chain[..|chain| - 1]) + (if c == [] then [] else [Invocation(c[0], c[1..])])
  }

  lemma PlanSnoc(chain: seq<seq<string>>, c: seq<string>)
    ensures Plan(chain + [c]) == Plan(chain) + (if c == [] then [] else [Invocation(c[0], c[1..])])
  {
    assert (chain + [c])[..|chain|] == chain;
  }

  /** The plan is empty exactly when every command is, and each of its calls
      comes from a non-empty command: its first token names the call and the
      rest are the arguments. */
  lemma {:induction false} PlanCalls(chain: seq<seq<string>>)
    ensures Plan(chain) == [] <==> forall j :: 0 <= j < |chain| ==> chain[j] == []
    ensures forall k :: 0 <= k < |Plan(chain)| ==>
      exists j :: 0 <= j < |chain| && chain[j] != [] && Plan(chain)[k] == Invocation(chain[j][0], chain[j][1..])
    decreases |chain|
  {
    if chain != [] {
      var init, c := chain[..|chain| - 1], chain[|chain| - 1];
      SnocLast(chain);
      PlanCalls(init);
      PlanSnoc(init, c);
      assert forall j :: 0 <= j < |init| ==> chain[j] == init[j];
    }
  }

  /** The non-empty command at `j` is the plan's entry right after the calls
      of the commands before it. */
  lemma {:induction false} PlanEntry(chain: seq<seq<string>>, j: nat)
    requires j < |chain| && chain[j] != []
    ensures |Plan(chain[..j])| < |Plan(chain)|
    ensures Plan(chain)[|Plan(chain[..j])|] == Invocation(chain[j][0], chain[j][1..])
    decreases |chain|
  {
    var init := chain[..|chain| - 1];
    SnocLast(chain);
    PlanSnoc(init, chain[|chain| - 1]);
    if j < |chain| - 1 {
      PlanEntry(init, j);
      assert init[..j] == chain[..j];
    } else {
      assert chain[..j] == init;
    }
  }

  /** The handler named by the non-empty `command` exists and, called in
      world `w`, reports no error. */
  predicate Succeeds<W>(reg: map<string, CommandFunc<W>>, ctx: CommandContext, w: W, command: seq<string>)
    requires command != []
  {
    command[0] in reg && reg[command[0]](w, ctx, command[1..]).1.Ok?
  }

  /** The calls made are the first calls of the plan, in order, each to a
      registered name with the command's remaining tokens as arguments; all of
      the plan is carried out when no error is returned. A `NotFound` names
      the next planned call, whose name is not registered; a `HandlerFailed`
      names the last call made. */
  lemma {:induction false} DispatchFollowsPlan<W>(reg: map<string, CommandFunc<W>>, ctx: CommandContext, w: W, chain: seq<seq<string>>)
    ensures var o, plan := Dispatch(reg, ctx, w, chain), Plan(chain);
      && |o.trace| <= |plan| && o.trace == plan[..|o.trace|]
      && (forall i :: 0 <= i < |o.trace| ==> o.trace[i].name in reg)
      && (o.err == None ==> o.trace == plan)
      && (o.err.Some? && o.err.value.NotFound? ==>
            |o.trace| < |plan| && plan[|o.trace|].name == o.err.value.name && o.err.value.name !in reg)
      && (o.err.Some? && o.err.value.HandlerFailed? ==>
            |o.trace| > 0 && o.trace[|o.trace| - 1].name == o.err.value.name)
    decreases |chain|
  {
    if chain != [] {
      var init, c := chain[..|chain| - 1], chain[|chain| - 1];
      SnocLast(chain);
      DispatchFollowsPlan(reg, ctx, w, init);
      DispatchSnoc(reg, ctx, w, init, c);
      PlanSnoc(init, c);
      var o := Dispatch(reg, ctx, w, init);
      if o.err == None && c != [] && c[0] in reg {
        assert Plan(chain)[..|o.trace| + 1] == o.trace + [Invocation(c[0], c[1..])];
      }
    }
  }

  /** `Execute` succeeds exactly when every non-empty command names a
      registered handler that reports no error when called in the world left
      by the commands before it. */
  lemma {:induction false} DispatchSucceedsIff<W>(reg: map<string, CommandFunc<W>>, ctx: CommandContext, w: W, chain: seq<seq<string>>)
    ensures Dispatch(reg, ctx, w, chain).err == None <==>
      forall j :: 0 <= j < |chain| && chain[j] != [] ==> Succeeds(reg, ctx, Dispatch(reg, ctx, w, chain[..j]).world, chain[j])
    decreases |chain|
  {
    if chain != [] {
      var init, c := chain[..|chain| - 1], chain[|chain| - 1];
      SnocLast(chain);
      DispatchSucceedsIff(reg, ctx, w, init);
      DispatchSnoc(reg, ctx, w, init, c);
      assert forall j :: 0 <= j < |init| ==> chain[..j] == init[..j] && chain[j] == init[j];
      assert chain[..|init|] == init;
    }
  }

  /** The first command whose name is unknown ends the run with `NotFound`:
      nothing from it on is called, and the world keeps the effects of the
      commands before it. */
  lemma DispatchStopsAtUnknown<W>(reg: map<string, CommandFunc<W>>, ctx: CommandContext, w: W, chain: seq<seq<string>>, j: nat)
    requires j < |chain| && chain[j] != [] && chain[j][0] !in reg
    requires Dispatch(reg, ctx, w, chain[..j]).err == None
    ensures Dispatch(reg, ctx, w, chain)
         == Outcome(Some(NotFound(chain[j][0])), Dispatch(reg, ctx, w, chain[..j]).world, Plan(chain[..j]))
  {
    DispatchFollowsPlan(reg, ctx, w, chain[..j]);
    DispatchSnoc(reg, ctx, w, chain[..j], chain[j]);
    TakeSnoc(chain, j);
    DispatchErrorFinal(reg, ctx, w, chain[..j + 1], chain[j + 1..]);
    TakeDrop(chain, j + 1);
  }

  /** The first handler that reports an error ends the run with
      `HandlerFailed` wrapping its cause: it has been called, nothing after it
      is, and the world is the one that handler left (no rollback). */
  lemma DispatchStopsAtFailure<W>(reg: map<string, CommandFunc<W>>, ctx: CommandContext, w: W, chain: seq<seq<string>>, j: nat)
    requires j < |chain| && chain[j] != [] && chain[j][0] in reg
    requires Dispatch(reg, ctx, w, chain[..j]).err == None
    requires reg[chain[j][0]](Dispatch(reg, ctx, w, chain[..j]).world, ctx, chain[j][1..]).1.Fail?
    ensures var r := reg[chain[j][0]](Dispatch(reg, ctx, w, chain[..j]).world, ctx, chain[j][1..]);
      Dispatch(reg, ctx, w, chain)
        == Outcome(Some(HandlerFailed(chain[j][0], r.1.cause)), r.0, Plan(chain[..j + 1]))
  {
    DispatchFollowsPlan(reg, ctx, w, chain[..j]);
    DispatchSnoc(reg, ctx, w, chain[..j], chain[j]);
    TakeSnoc(chain, j);
    PlanSnoc(chain[..j], chain[j]);
    DispatchErrorFinal(reg, ctx, w, chain[..j + 1], chain[j + 1..]);
    TakeDrop(chain, j + 1);
  }

  /** Running `a` then `b` is running `a + b`: the second part starts in the
      world the first left and its calls follow the first's. */
  lemma {:induction false} DispatchAppend<W>(reg: map<string, CommandFunc<W>>, ctx: CommandContext, w: W, a: seq<seq<string>>, b: seq<seq<string>>)
    requires Dispatch(reg, ctx, w, a).err == None
    ensures var o := Dispatch(reg, ctx, w, a);
      Dispatch(reg, ctx, w, a + b) == AndThen(o, Dispatch(reg, ctx, o.world, b))
    decreases |b|
  {
    var o := Dispatch(reg, ctx, w, a);
    if b == [] {
      assert a + b == a;
      assert o.trace + [] == o.trace;
    } else {
      var init, c := b[..|b| - 1], b[|b| - 1];
      DispatchAppend(reg, ctx, w, a, init);
      DispatchSnoc(reg, ctx, w, a + init, c);
      DispatchSnoc(reg, ctx, o.world, init, c);
      SnocLast(b);
      AppendSnoc(a, init, c);
      var m := Dispatch(reg, ctx, o.world, init);
      if m.err == None && c != [] && c[0] in reg {
        AppendSnoc(o.trace, m.trace, Invocation(c[0], c[1..]));
      }
    }
  }

  // ---------------------------------------------------------------------------
  // ExecuteChain against Execute

  /** A piece without `;`, quotes or backslashes is read as at most one command. */
  lemma ParsePiece(x: string)
    requires Plain(x) && ';' !in x
    ensures Parse(x) == FlushCommand([], Words(x))
  {
    ParsePlain(x);
    SplitWithoutSeparator(x, ';');
    PlainCommandsSnoc([], x);
    var none: seq<string> := [];
    assert none + [x] == [x];
  }

  lemma {:induction false} SegmentsFollowPieces<W>(reg: map<string, CommandFunc<W>>, ctx: CommandContext, w: W, pieces: seq<string>)
    requires forall i :: 0 <= i < |pieces| ==> Plain(pieces[i]) && ';' !in pieces[i] && OnlyPlainSpaces(pieces[i])
    ensures DispatchSegments(reg, ctx, w, pieces) == Dispatch(reg, ctx, w, PlainCommands(pieces))
    decreases |pieces|
  {
    if pieces != [] {
      var init, x := pieces[..|pieces| - 1], pieces[|pieces| - 1];
      SnocLast(pieces);
      SegmentsFollowPieces(reg, ctx, w, init);
      SegmentsSnoc(reg, ctx, w, init, x);
      PlainCommandsSnoc(init, x);
      ParseTrim(x);
      ParsePiece(x);
      var pc, last := PlainCommands(init), FlushCommand([], Words(x));
      assert FlushCommand(pc, Words(x)) == pc + last;
      if Dispatch(reg, ctx, w, pc).err.Some? {
        DispatchErrorFinal(reg, ctx, w, pc, last);
      } else {
        DispatchAppend(reg, ctx, w, pc, last);
      }
    }
  }

  /** On input without quotes or backslashes, whose only white space is the
      plain space, cutting at every `;` first changes nothing: `ExecuteChain`
      makes the same calls, in the same worlds, and ends like `Execute`. */
  lemma ExecuteChainAgreesOnPlainInput<W>(reg: map<string, CommandFunc<W>>, ctx: CommandContext, w: W, s: string)
    requires Plain(s) && OnlyPlainSpaces(s)
    ensures DispatchSegments(reg, ctx, w, SplitOn(s, ';')) == Dispatch(reg, ctx, w, Parse(s))
  {
    var pieces := SplitOn(s, ';');
    SplitOnPieces(s, ';');
    forall i | 0 <= i < |pieces|
      ensures Plain(pieces[i]) && ';' !in pieces[i] && OnlyPlainSpaces(pieces[i])
    {
      assert forall c :: c in pieces[i] ==> c in s;
    }
    SegmentsFollowPieces(reg, ctx, w, pieces);
    ParsePlain(s);
  }

  /** Without a `;`, `ExecuteChain` is one `Execute` of the trimmed input. */
  lemma ChainWithoutSeparator<W>(reg: map<string, CommandFunc<W>>, ctx: CommandContext, w: W, s: string)
    requires ';' !in s
    ensures DispatchSegments(reg, ctx, w, SplitOn(s, ';')) == Dispatch(reg, ctx, w, Parse(Trim(s)))
  {
    SplitWithoutSeparator(s, ';');
    SegmentsSnoc(reg, ctx, w, [], s);
    var none: seq<string> := [];
    assert none + [s] == [s];
    var d := Dispatch(reg, ctx, w, Parse(Trim(s)));
    assert [] + d.trace == d.trace;
  }

  /** Every name in `names` exactly once. */
  predicate Distinct(names: seq<string>)
  {
    forall i, j :: 0 <= i < j < |names| ==> names[i] != names[j]
  }

  /** The registry of commands; the world type `W` is whatever its handlers change. */
  class CommandRegistry<W> {
    var commands: map<string, CommandFunc<W>>

    /** `NewRegistry`: no command registered. */
    constructor ()
      ensures commands == map[]
    {
      commands := map[];
    }

    /** Adds `fn` under `name`, replacing any handler already there. */
    method Register(name: string, fn: CommandFunc<W>)
      modifies this
      ensures commands == old(commands)[name := fn]
      ensures commands.Keys == old(commands).Keys + {name} && commands[name] == fn
      ensures forall n :: n in old(commands) && n != name ==> n in commands && commands[n] == old(commands)[n]
    {
      commands := commands[name := fn];
    }

    /** The registered names, each once, in whatever order the map yields them. */
    method List() returns (names: seq<string>)
      ensures |names| == |commands|
      ensures forall n :: n in names <==> n in commands
      ensures Distinct(names)
    {
      names := [];
      var rest := commands.Keys;
      while rest != {}
        invariant rest <= commands.Keys
        invariant forall n :: n in names <==> n in commands && n !in rest
        invariant Distinct(names)
        invariant |names| + |rest| == |commands.Keys|
        decreases |rest|
      {
        var k :| k in rest;
        names := names + [k];
        rest := rest - {k};
      }
    }

    /** Scans `commandStr` and runs its commands in order against world `w`,
        stopping at the first error. */
    method Execute(ctx: CommandContext, commandStr: string, w: W) returns (err: Option<ExecError>, w': W, ghost trace: seq<Invocation>)
      ensures err == Dispatch(commands, ctx, w, Parse(commandStr)).err
      ensures w' == Dispatch(commands, ctx, w, Parse(commandStr)).world
      ensures trace == Dispatch(commands, ctx, w, Parse(commandStr)).trace
    {
      var commandChains := ParseCommandChain(commandStr);
      w', trace := w, [];
      for i := 0 to |commandChains|
        invariant Outcome(None, w', trace) == Dispatch(commands, ctx, w, commandChains[..i])
      {
        var chain := commandChains[i];
        DispatchSnoc(commands, ctx, w, commandChains[..i], chain);
        TakeSnoc(commandChains, i);
        if |chain| == 0 {
          continue;
        }
        var commandName := chain[0];
        var args := chain[1..];
        if commandName in commands {
          var r := commands[commandName](w', ctx, args);
          w', trace := r.0, trace + [Invocation(commandName, args)];
          if r.1.Fail? {
            err := Some(HandlerFailed(commandName, r.1.cause));
            DispatchErrorFinal(commands, ctx, w, commandChains[..i + 1], commandChains[i + 1..]);
            TakeDrop(commandChains, i + 1);
            return;
          }
        } else {
          err := Some(NotFound(commandName));
          DispatchErrorFinal(commands, ctx, w, commandChains[..i + 1], commandChains[i + 1..]);
          TakeDrop(commandChains, i + 1);
          return;
        }
      }
      assert commandChains[..|commandChains|] == commandChains;
      err := None;
    }

    /** Cuts `commandChain` at every `;` and runs each trimmed piece through
        `Execute`, stopping at the first piece that fails. */
    method ExecuteChain(ctx: CommandContext, commandChain: string, w: W) returns (err: Option<ExecError>, w': W, ghost trace: seq<Invocation>)
      ensures err == DispatchSegments(commands, ctx, w, SplitOn(commandChain, ';')).err
      ensures w' == DispatchSegments(commands, ctx, w, SplitOn(commandChain, ';')).world
      ensures trace == DispatchSegments(commands, ctx, w, SplitOn(commandChain, ';')).trace
    {
      ghost var reg := commands;
      var pieces := SplitOn(commandChain, ';');
      w', trace := w, [];
      for i := 0 to |pieces|
        invariant commands == reg
        invariant Outcome(None, w', trace) == DispatchSegments(reg, ctx, w, pieces[..i])
      {
        var e, w2;
        ghost var t;
        e, w2, t := Execute(ctx, Trim(pieces[i]), w');
        SegmentStep(reg, ctx, w, pieces, i);
        w', trace := w2, trace + t;
        if e.Some? {
          err := e;
          SegmentsErrorFinal(reg, ctx, w, pieces[..i + 1], pieces[i + 1..]);
          TakeDrop(pieces, i + 1);
          return;
        }
      }
      assert pieces[..|pieces|] == pieces;
      err := None;
    }
  }
}
