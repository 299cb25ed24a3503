/** The registry on the scenarios of commands/registry_test.go. Handlers are
    left arbitrary except for what each scenario needs of them. */
module RegistryExamples {
  import opened Strings
  import opened Tokenizer
  import opened TokenizerExamples
  import opened Registry

  /** A bare name reads as one command without arguments. */
  lemma ParsesName(name: string)
    requires Bare(name)
    ensures Parse(name) == [[name]]
  {
    assert Writable([name]);
    ParsesWritten([[name]], name);
  }

  /** A word with one quoted argument, as the user types it. */
  function WithArgument(name: string, arg: string): string
  {
    name + " '" + arg + "'"
  }

  /** A bare name and one quoted argument read as one command with that argument. */
  lemma ParsesNameAndArgument(name: string, arg: string)
    requires Bare(name) && Quotable(arg)
    ensures Parse(WithArgument(name, arg)) == [[name, arg]]
  {
    var c := [name, arg];
    assert Writable(c);
    assert c[..1] == [name];
    assert Write(c) == name + Quote(arg);
    assert name + Quote(arg) == WithArgument(name, arg);
    ParsesWritten([c], WithArgument(name, arg));
  }

  /** A chain of one command is that command run from the start. */
  lemma DispatchOne<W>(reg: map<string, CommandFunc<W>>, ctx: CommandContext, w: W, cmd: seq<string>)
    ensures Dispatch(reg, ctx, w, [cmd]) == RunCommand(reg, ctx, Outcome(None, w, []), cmd)
  {
    DispatchSnoc(reg, ctx, w, [], cmd);
    var none: seq<seq<string>> := [];
    assert none + [cmd] == [cmd];
  }

  /** `Execute` of a registered bare name (as `Execute("log")`): the handler
      is called once, with no arguments, and the run ends as it does. */
  lemma ExecuteName<W>(reg: map<string, CommandFunc<W>>, ctx: CommandContext, w: W, name: string)
    requires Bare(name) && name in reg
    ensures var r := reg[name](w, ctx, []);
      Dispatch(reg, ctx, w, Parse(name))
        == Outcome(if r.1.Ok? then None else Some(HandlerFailed(name, r.1.cause)), r.0, [Invocation(name, [])])
  {
    ParsesName(name);
    DispatchOne(reg, ctx, w, [name]);
    assert [name][1..] == [];
  }

  /** `Execute` of a registered name with one quoted argument (as
      `Execute("log 'test message'")`): the handler is called once, with the
      quoted text as its single argument, and the run ends as it does. */
  lemma ExecuteNameAndArgument<W>(reg: map<string, CommandFunc<W>>, ctx: CommandContext, w: W, name: string, arg: string)
    requires Bare(name) && Quotable(arg) && name in reg
    ensures var r := reg[name](w, ctx, [arg]);
      Dispatch(reg, ctx, w, Parse(WithArgument(name, arg)))
        == Outcome(if r.1.Ok? then None else Some(HandlerFailed(name, r.1.cause)), r.0, [Invocation(name, [arg])])
  {
    ParsesNameAndArgument(name, arg);
    DispatchOne(reg, ctx, w, [name, arg]);
    assert [name, arg][1..] == [arg];
  }

  /** An unknown command is reported by name and nothing is called. */
  lemma NonexistentCommand<W>(reg: map<string, CommandFunc<W>>, ctx: CommandContext, w: W)
    requires "nonexistent" !in reg
    ensures Dispatch(reg, ctx, w, Parse("nonexistent")) == Outcome(Some(NotFound("nonexistent")), w, [])
    ensures Message(NotFound("nonexistent")) == "Command 'nonexistent' not found"
  {
    ParsesName("nonexistent");
    DispatchOne(reg, ctx, w, ["nonexistent"]);
    NotFoundMessage();
  }

  lemma NotFoundMessage()
    ensures Message(NotFound("nonexistent")) == "Command 'nonexistent' not found"
  {
  }

  // ExecuteChain on the chains of TestCommandChaining. Each scenario goes
  // through a lemma about any pieces without `;`, then fills in the text.

  lemma SplitTwo(x: string, y: string)
    requires ';' !in x && ';' !in y
    ensures SplitOn(x + [';'] + y, ';') == [x, y]
  {
    SplitWithoutSeparator(x, ';');
    SplitWithoutSeparator(y, ';');
    SplitAtSeparator(x, y, ';');
    assert [x] + [y] == [x, y];
  }

  lemma SplitThree(x: string, y: string, z: string)
    requires ';' !in x && ';' !in y && ';' !in z
    ensures SplitOn(x + [';'] + (y + [';'] + z), ';') == [x, y, z]
  {
    SplitTwo(y, z);
    SplitWithoutSeparator(x, ';');
    SplitAtSeparator(x, y + [';'] + z, ';');
    assert [x] + [y, z] == [x, y, z];
  }

  /** `ExecuteChain` on two pieces: the second runs only if the first succeeded. */
  lemma ExecuteChainOfTwo<W>(reg: map<string, CommandFunc<W>>, ctx: CommandContext, w: W, x: string, y: string)
    requires ';' !in x && ';' !in y
    ensures var o := AndThen(Outcome(None, w, []), Dispatch(reg, ctx, w, Parse(Trim(x))));
      DispatchSegments(reg, ctx, w, SplitOn(x + [';'] + y, ';'))
        == if o.err.Some? then o else AndThen(o, Dispatch(reg, ctx, o.world, Parse(Trim(y))))
  {
    SplitTwo(x, y);
    var none: seq<string> := [];
    SegmentsSnoc(reg, ctx, w, none, x);
    assert none + [x] == [x];
    SegmentsSnoc(reg, ctx, w, [x], y);
    assert [x] + [y] == [x, y];
  }

  /** `ExecuteChain` on three pieces: the third runs only if the first two succeeded. */
  lemma ExecuteChainOfThree<W>(reg: map<string, CommandFunc<W>>, ctx: CommandContext, w: W, x: string, y: string, z: string)
    requires ';' !in x && ';' !in y && ';' !in z
    ensures var o := DispatchSegments(reg, ctx, w, SplitOn(x + [';'] + y, ';'));
      DispatchSegments(reg, ctx, w, SplitOn(x + [';'] + (y + [';'] + z), ';'))
        == if o.err.Some? then o else AndThen(o, Dispatch(reg, ctx, o.world, Parse(Trim(z))))
  {
    SplitTwo(x, y);
    SplitThree(x, y, z);
    SegmentsSnoc(reg, ctx, w, [x, y], z);
    assert [x, y] + [z] == [x, y, z];
  }

  /** A name that trimming leaves alone: bare, not starting or ending with
      other white space. */
  predicate Word(s: string)
  {
    Bare(s) && !IsSpace(s[0]) && !IsSpace(s[|s| - 1])
  }

  /** Trimming leaves a word alone and takes a single leading space off. */
  lemma TrimWord(s: string)
    requires s != [] && !IsSpace(s[0]) && !IsSpace(s[|s| - 1])
    ensures Trim(s) == s && Trim([' '] + s) == s
  {
    TrimLeftNoop(s);
    TrimRightNoop(s);
    assert ([' '] + s)[1..] == s;
  }

  lemma WithArgumentPiece(name: string, arg: string)
    requires Word(name) && Quotable(arg) && ';' !in arg
    ensures ';' !in WithArgument(name, arg)
    ensures Trim(WithArgument(name, arg)) == WithArgument(name, arg)
  {
    var x := WithArgument(name, arg);
    assert x[0] == name[0] && x[|x| - 1] == '\'';
    TrimWord(x);
  }

  /** Commands joined by "; " are pieces joined by `;`, every piece after
      the first starting with a space. */
  lemma TwoPiecesText(x: string, y: string)
    ensures x + "; " + y == x + [';'] + ([' '] + y)
  {
  }

  lemma ThreePiecesText(x: string, y: string, z: string)
    ensures x + "; " + y + "; " + z == x + [';'] + (([' '] + y) + [';'] + ([' '] + z))
  {
    TwoPiecesText(x, y);
    TwoPiecesText(y, z);
    assert x + "; " + y + "; " + z == x + "; " + (y + "; " + z);
  }

  /** "first; second" through `ExecuteChain`, for any two registered words:
      both handlers run, in order, and the chain succeeds when both do. */
  lemma ChainRunsBoth<W>(reg: map<string, CommandFunc<W>>, ctx: CommandContext, w: W, a: string, b: string)
    requires Word(a) && Word(b) && a in reg && b in reg
    requires reg[a](w, ctx, []).1.Ok?
    requires reg[b](reg[a](w, ctx, []).0, ctx, []).1.Ok?
    ensures var r1 := reg[a](w, ctx, []);
      DispatchSegments(reg, ctx, w, SplitOn(a + "; " + b, ';'))
        == Outcome(None, reg[b](r1.0, ctx, []).0, [Invocation(a, []), Invocation(b, [])])
  {
    TwoPiecesText(a, b);
    TrimWord(a);
    TrimWord(b);
    ExecuteChainOfTwo(reg, ctx, w, a, [' '] + b);
    ExecuteName(reg, ctx, w, a);
    ExecuteName(reg, ctx, reg[a](w, ctx, []).0, b);
  }

  /** "log 'message'; first" through `ExecuteChain`, for any words and any
      argument without `;`: the first handler gets its quoted argument, then
      the second runs in the world the first left. */
  lemma ChainWithArgument<W>(reg: map<string, CommandFunc<W>>, ctx: CommandContext, w: W, name: string, arg: string, next: string)
    requires Word(name) && Quotable(arg) && ';' !in arg && Word(next) && name in reg && next in reg
    requires reg[name](w, ctx, [arg]).1.Ok?
    requires reg[next](reg[name](w, ctx, [arg]).0, ctx, []).1.Ok?
    ensures var r1 := reg[name](w, ctx, [arg]);
      DispatchSegments(reg, ctx, w, SplitOn(WithArgument(name, arg) + "; " + next, ';'))
        == Outcome(None, reg[next](r1.0, ctx, []).0, [Invocation(name, [arg]), Invocation(next, [])])
  {
    var x := WithArgument(name, arg);
    TwoPiecesText(x, next);
    WithArgumentPiece(name, arg);
    TrimWord(next);
    ExecuteChainOfTwo(reg, ctx, w, x, [' '] + next);
    ExecuteNameAndArgument(reg, ctx, w, name, arg);
    ExecuteName(reg, ctx, reg[name](w, ctx, [arg]).0, next);
  }

  /** "log 'message'; log 'wrong'; first" through `ExecuteChain`, for any
      words and arguments without `;`: the second call fails, its error is
      returned wrapped, and the third command is never run. */
  lemma ChainStopsAtFailingHandler<W>(reg: map<string, CommandFunc<W>>, ctx: CommandContext, w: W, name: string, good: string, bad: string, next: string)
    requires Word(name) && Quotable(good) && ';' !in good && Quotable(bad) && ';' !in bad && Word(next)
    requires name in reg
    requires reg[name](w, ctx, [good]).1.Ok?
    requires reg[name](reg[name](w, ctx, [good]).0, ctx, [bad]).1.Fail?
    ensures var r2 := reg[name](reg[name](w, ctx, [good]).0, ctx, [bad]);
      DispatchSegments(reg, ctx, w, SplitOn(WithArgument(name, good) + "; " + WithArgument(name, bad) + "; " + next, ';'))
        == Outcome(Some(HandlerFailed(name, r2.1.cause)), r2.0, [Invocation(name, [good]), Invocation(name, [bad])])
  {
    var x, y := WithArgument(name, good), WithArgument(name, bad);
    ThreePiecesText(x, y, next);
    WithArgumentPiece(name, good);
    WithArgumentPiece(name, bad);
    assert ';' !in [' '] + y;
    assert ';' !in [' '] + next;
    TrimWord(y);
    ExecuteChainOfTwo(reg, ctx, w, x, [' '] + y);
    ExecuteChainOfThree(reg, ctx, w, x, [' '] + y, [' '] + next);
    ExecuteNameAndArgument(reg, ctx, w, name, good);
    ExecuteNameAndArgument(reg, ctx, reg[name](w, ctx, [good]).0, name, bad);
  }

  lemma FirstNonexistentSecondPlain()
    ensures Plain("first; nonexistent; second") && OnlyPlainSpaces("first; nonexistent; second")
  {
  }

  lemma WriteFirstNonexistent()
    ensures WriteChain([["first"], ["nonexistent"]]) == "first; nonexistent"
  {
    var chain := [["first"], ["nonexistent"]];
    assert Writable(chain[0]) && Writable(chain[1]);
    assert chain[..1] == [["first"]];
  }

  lemma WriteFirstNonexistentSecond()
    ensures forall i :: 0 <= i < 3 ==> Writable([["first"], ["nonexistent"], ["second"]][i])
    ensures WriteChain([["first"], ["nonexistent"], ["second"]]) == "first; nonexistent; second"
  {
    var chain := [["first"], ["nonexistent"], ["second"]];
    assert Writable(chain[0]) && Writable(chain[1]) && Writable(chain[2]);
    assert chain[..2] == [["first"], ["nonexistent"]];
    WriteFirstNonexistent();
    assert WriteChain(chain) == "first; nonexistent" + "; " + "second";
  }

  lemma ParsesFirstNonexistentSecond()
    ensures Parse("first; nonexistent; second") == [["first"], ["nonexistent"], ["second"]]
  {
    WriteFirstNonexistentSecond();
    ParsesWritten([["first"], ["nonexistent"], ["second"]], "first; nonexistent; second");
  }

  /** `first` runs, the unknown name stops the run, `second` is never called. */
  lemma DispatchFirstNonexistentSecond<W>(reg: map<string, CommandFunc<W>>, ctx: CommandContext, w: W)
    requires "first" in reg && "nonexistent" !in reg
    requires reg["first"](w, ctx, []).1.Ok?
    ensures Dispatch(reg, ctx, w, [["first"], ["nonexistent"], ["second"]])
         == Outcome(Some(NotFound("nonexistent")), reg["first"](w, ctx, []).0, [Invocation("first", [])])
  {
    var chain := [["first"], ["nonexistent"], ["second"]];
    DispatchSnoc(reg, ctx, w, [], chain[0]);
    assert [] + [chain[0]] == chain[..1];
    PlanSnoc([], chain[0]);
    DispatchStopsAtUnknown(reg, ctx, w, chain, 1);
  }

  /** "first; nonexistent; second" through `ExecuteChain`: the same outcome
      as through `Execute`. */
  lemma ChainStopsAtNonexistent<W>(reg: map<string, CommandFunc<W>>, ctx: CommandContext, w: W)
    requires "first" in reg && "nonexistent" !in reg
    requires reg["first"](w, ctx, []).1.Ok?
    ensures DispatchSegments(reg, ctx, w, SplitOn("first; nonexistent; second", ';'))
         == Outcome(Some(NotFound("nonexistent")), reg["first"](w, ctx, []).0, [Invocation("first", [])])
  {
    FirstNonexistentSecondPlain();
    ExecuteChainAgreesOnPlainInput(reg, ctx, w, "first; nonexistent; second");
    ParsesFirstNonexistentSecond();
    DispatchFirstNonexistentSecond(reg, ctx, w);
  }

  /** `ExecuteChain` cuts inside quotes: where `Execute` passes the single
      argument "a;b", `ExecuteChain` runs "log 'a" and then "b'", so the
      handler gets "a" and "b" is looked up as a command of its own. */
  lemma SplitInsideQuotes()
    ensures Parse("log 'a;b'") == [["log", "a;b"]]
    ensures SplitOn("log 'a;b'", ';') == ["log 'a", "b'"]
    ensures Parse(Trim("log 'a")) == [["log", "a"]]
    ensures Parse(Trim("b'")) == [["b"]]
  {
    ParsesQuotedSemicolon();
    SplitsQuotedSemicolon();
    TrimLeftNoop("log 'a");
    TrimRightNoop("log 'a");
    TrimLeftNoop("b'");
    TrimRightNoop("b'");
    OpenQuoteRead();
    ClosingQuoteAlone();
  }

  lemma ParsesQuotedSemicolon()
    ensures Parse("log 'a;b'") == [["log", "a;b"]]
  {
    assert Writable(["log", "a;b"]);
    assert Write(["log", "a;b"]) == "log 'a;b'" by {
      assert ["log", "a;b"][..1] == ["log"];
    }
    ParsesWritten([["log", "a;b"]], "log 'a;b'");
  }

  lemma SplitsQuotedSemicolon()
    ensures SplitOn("log 'a;b'", ';') == ["log 'a", "b'"]
  {
    assert "log 'a;b'" == "log 'a" + [';'] + "b'";
    assert ';' !in "log 'a" && ';' !in "b'";
    SplitWithoutSeparator("log 'a", ';');
    SplitWithoutSeparator("b'", ';');
    SplitAtSeparator("log 'a", "b'", ';');
  }

  lemma OpenQuoteRead()
    ensures Parse("log 'a") == [["log", "a"]]
  {
    var c := ["log", "a"];
    var s := "log 'a";
    assert Writable(c);
    assert Write(c) == s + "'" by {
      assert c[..1] == ["log"];
    }
    RunWriteChain([c]);
    ScanSnoc(s, '\'');
    assert Scan(s + "'").token == "a";
    TrailingQuoteIgnored(s);
    ParsesWritten([c], s + "'");
  }

  lemma ClosingQuoteAlone()
    ensures Parse("b'") == [["b"]]
  {
    RunWord(Start, "b");
    assert Scan("b") == Scanner([], [], "b", false, false);
    assert FlushToken([], "b") == ["b"];
    TrailingQuoteIgnored("b");
  }

  /** Registering a name twice keeps the later handler. */
  method RegisterTwice<W>(f: CommandFunc<W>, g: CommandFunc<W>) returns (r: CommandRegistry<W>)
    ensures r.commands == map["log" := g]
  {
    r := new CommandRegistry();
    r.Register("log", f);
    r.Register("log", g);
  }

  /** `List` after two registrations returns both names, once each. */
  method ListAfterTwo<W>(f: CommandFunc<W>) returns (names: seq<string>)
    ensures |names| == 2 && "first" in names && "second" in names
  {
    var r := new CommandRegistry();
    r.Register("first", f);
    r.Register("second", f);
    names := r.List();
  }
}
