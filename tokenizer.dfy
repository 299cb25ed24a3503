/** The command-line scanner (`parseCommandChain` in commands/registry.go).
    One left-to-right pass over the characters turns a raw command string into
    a chain of commands, each a sequence of tokens. A backslash escapes the
    next character, a single quote toggles quoting, an unquoted `;` ends a
    command and an unquoted space ends a token. Empty tokens and empty
    commands are never emitted, and malformed input (an unterminated quote, a
    trailing backslash) is absorbed rather than rejected.

    `Step`, `Run` and `Parse` define the scanner as a function over its state;
    `ParseCommandChain` is the loop of the source, proved to compute `Parse`. */
module Tokenizer {
  import opened Sequences
  import opened Strings

  /** The scanner's state between two characters. */
  datatype Scanner = Scanner(
    commands: seq<seq<string>>,  // the completed commands
    command: seq<string>,        // the tokens of the command being built
    token: string,               // the token buffer
    inQuotes: bool,
    escapeNext: bool)

  const Start := Scanner([], [], [], false, false)

  /** Adds the buffer to the command when the buffer is not empty. */
  function FlushToken(command: seq<string>, token: string): seq<string>
  {
    if |token| > 0 then command + [token] else command
  }

  /** Adds the command to the chain when the command is not empty. */
  function FlushCommand(commands: seq<seq<string>>, command: seq<string>): seq<seq<string>>
  {
    if |command| > 0 then commands + [command] else commands
  }

  /** One iteration of the scanning loop, rules in the source's priority order. */
  function Step(st: Scanner, c: char): Scanner
  {
    if st.escapeNext then st.(token := st.token + [c], escapeNext := false)
    else if c == '\\' then st.(escapeNext := true)
    else if c == '\'' then st.(inQuotes := !st.inQuotes)
    else if c == ';' && !st.inQuotes then
      st.(commands := FlushCommand(st.commands, FlushToken(st.command, st.token)), command := [], token := [])
    else if c == ' ' && !st.inQuotes then
      st.(command := FlushToken(st.command, st.token), token := [])
    else st.(token := st.token + [c])
  }

  /** The state after reading all of `input`, left to right, starting from
      `st`: reading one more character is one more step. */
  function Run(st: Scanner, input: string): Scanner
    decreases |input|
  {
    if input == [] then st else Step(Run(st, input[..|input| - 1]), input[|input| - 1])
  }

  /** The state after reading `input` from the start. */
  function Scan(input: string): Scanner
  {
    Run(Start, input)
  }

  /** What the scanner returns at end of input: the pending buffer and the
      pending command are flushed, each only when not empty. */
  function Finish(st: Scanner): seq<seq<string>>
  {
    FlushCommand(st.commands, FlushToken(st.command, st.token))
  }

  /** The chain that `parseCommandChain` returns for `input`. */
  function Parse(input: string): seq<seq<string>>
  {
    Finish(Scan(input))
  }

  /** Reading `a` and then `b` is reading `a + b`. */
  lemma {:induction false} RunAppend(st: Scanner, a: string, b: string)
    ensures Run(st, a + b) == Run(Run(st, a), b)
    decreases |b|
  {
    if b == [] {
      assert a + b == a;
    } else {
      assert (a + b)[..|a + b| - 1] == a + b[..|b| - 1];
      RunAppend(st, a, b[..|b| - 1]);
    }
  }

  /** A run of characters that the scanner writes as they are, in a state
      that is not escaping, only grows the buffer. */
  lemma {:induction false} RunWord(st: Scanner, w: string)
    requires !st.escapeNext && '\\' !in w && '\'' !in w
    requires !st.inQuotes ==> ' ' !in w && ';' !in w
    ensures Run(st, w) == st.(token := st.token + w)
    decreases |w|
  {
    if w != [] {
      var p := w[..|w| - 1];
      assert forall c :: c in p ==> c in w;
      assert w[|w| - 1] in w;
      RunWord(st, p);
      assert st.token + p + [w[|w| - 1]] == st.token + w;
    }
  }

  lemma ScanSnoc(s: string, c: char)
    ensures Scan(s + [c]) == Step(Scan(s), c)
  {
    assert (s + [c])[..|s|] == s;
  }

  /** The scanning loop of the source. */
  method ParseCommandChain(input: string) returns (commands: seq<seq<string>>)
    ensures commands == Parse(input)
    ensures WellFormed(commands)
  {
    commands := [];
    var currentCommand: seq<string> := [];
    var current: string := [];
    var inQuotes, escapeNext := false, false;
    for i := 0 to |input|
      invariant Scanner(commands, currentCommand, current, inQuotes, escapeNext) == Scan(input[..i])
    {
      var c := input[i];
      ScanSnoc(input[..i], c);
      assert input[..i + 1] == input[..i] + [c];
      if escapeNext {
        current := current + [c];
        escapeNext := false;
      } else if c == '\\' {
        escapeNext := true;
      } else if c == '\'' {
        inQuotes := !inQuotes;
      } else if c == ';' && !inQuotes {
        if |current| > 0 {
          currentCommand := currentCommand + [current];
          current := [];
        }
        if |currentCommand| > 0 {
          commands := commands + [currentCommand];
          currentCommand := [];
        }
      } else if c == ' ' && !inQuotes {
        if |current| > 0 {
          currentCommand := currentCommand + [current];
          current := [];
        }
      } else {
        current := current + [c];
      }
    }
    assert input[..|input|] == input;
    if |current| > 0 {
      currentCommand := currentCommand + [current];
    }
    if |currentCommand| > 0 {
      commands := commands + [currentCommand];
    }
    ParseWellFormed(input);
  }

  // ---------------------------------------------------------------------------
  // No empty token, no empty command

  /** Every command is non-empty and every token is a non-empty string. */
  ghost predicate WellFormed(chain: seq<seq<string>>)
  {
    forall i :: 0 <= i < |chain| ==> chain[i] != [] && forall j :: 0 <= j < |chain[i]| ==> chain[i][j] != []
  }

  ghost predicate Sound(st: Scanner)
  {
    WellFormed(st.commands) && forall j :: 0 <= j < |st.command| ==> st.command[j] != []
  }

  lemma {:induction false} ScanSound(s: string)
    ensures Sound(Scan(s))
    decreases |s|
  {
    if s != [] {
      var p := s[..|s| - 1];
      ScanSound(p);
      ScanSnoc(p, s[|s| - 1]);
      assert s == p + [s[|s| - 1]];
    }
  }

  /** `parseCommandChain` never emits an empty command or an empty token. */
  lemma ParseWellFormed(s: string)
    ensures WellFormed(Parse(s))
  {
    ScanSound(s);
  }

  // ---------------------------------------------------------------------------
  // Which characters reach the tokens

  /** The character after `p` is escaped: `p` ends in a backslash that is not
      itself escaped. */
  ghost predicate EscapePending(p: string)
    decreases |p|
  {
    p != [] && p[|p| - 1] == '\\' && !EscapePending(p[..|p| - 1])
  }

  /** The character after `p` is inside quotes: `p` holds an odd number of
      unescaped single quotes. */
  ghost predicate QuoteOpen(p: string)
    decreases |p|
  {
    p != [] && (QuoteOpen(p[..|p| - 1]) != (p[|p| - 1] == '\'' && !EscapePending(p[..|p| - 1])))
  }

  /** The character `c`, read after `p`, is written into a token: it is
      escaped, or it is neither a backslash nor a quote nor an unquoted
      separator. */
  ghost predicate Kept(p: string, c: char)
  {
    EscapePending(p) || (c != '\\' && c != '\'' && (QuoteOpen(p) || (c != ' ' && c != ';')))
  }

  /** The characters of `s` that are kept, in input order. */
  ghost function KeptChars(s: string): string
    decreases |s|
  {
    if s == [] then []
    else
      var p := s[..|s| - 1];
      KeptChars(p) + (if Kept(p, s[|s| - 1]) then [s[|s| - 1]] else [])
  }

  /** The concatenation of the tokens of one command. */
  function Flat(tokens: seq<string>): string
    decreases |tokens|
  {
    if tokens == [] then [] else Flat(tokens[..|tokens| - 1]) + tokens[|tokens| - 1]
  }

  /** The concatenation of every token of a chain, in order. */
  function ChainText(chain: seq<seq<string>>): string
    decreases |chain|
  {
    if chain == [] then [] else ChainText(chain[..|chain| - 1]) + Flat(chain[|chain| - 1])
  }

  lemma FlatSnoc(tokens: seq<string>, t: string)
    ensures Flat(tokens + [t]) == Flat(tokens) + t
  {
    assert (tokens + [t])[..|tokens|] == tokens;
  }

  lemma ChainTextSnoc(chain: seq<seq<string>>, cmd: seq<string>)
    ensures ChainText(chain + [cmd]) == ChainText(chain) + Flat(cmd)
  {
    assert (chain + [cmd])[..|chain|] == chain;
  }

  ghost function Text(st: Scanner): string
  {
    ChainText(st.commands) + Flat(st.command) + st.token
  }

  /** The scanner's flags are the escape and quote state of what it has read,
      and everything it has written so far is exactly the kept characters. */
  ghost predicate Tracks(st: Scanner, p: string)
  {
    && st.escapeNext == EscapePending(p)
    && st.inQuotes == QuoteOpen(p)
    && Text(st) == KeptChars(p)
  }

  lemma FlushTokenText(command: seq<string>, token: string)
    ensures Flat(FlushToken(command, token)) == Flat(command) + token
  {
    FlatSnoc(command, token);
  }

  lemma FlushCommandText(commands: seq<seq<string>>, command: seq<string>)
    ensures ChainText(FlushCommand(commands, command)) == ChainText(commands) + Flat(command)
  {
    ChainTextSnoc(commands, command);
  }

  lemma UnfoldOne(p: string, c: char)
    ensures var q := p + [c];
      && EscapePending(q) == (c == '\\' && !EscapePending(p))
      && QuoteOpen(q) == (QuoteOpen(p) != (c == '\'' && !EscapePending(p)))
      && KeptChars(q) == KeptChars(p) + (if Kept(p, c) then [c] else [])
  {
    var q := p + [c];
    assert q[..|q| - 1] == p;
  }

  /** What one step adds to the text written so far. */
  lemma StepText(st: Scanner, c: char)
    ensures Text(Step(st, c)) == Text(st) + (if Ordinary(st, c) then [c] else [])
  {
    if !st.escapeNext && c == ';' && !st.inQuotes {
      FlushTokenText(st.command, st.token);
      FlushCommandText(st.commands, FlushToken(st.command, st.token));
    } else if !st.escapeNext && c == ' ' && !st.inQuotes && c != '\\' && c != '\'' {
      FlushTokenText(st.command, st.token);
    }
  }

  /** The step writes `c` into the buffer. */
  predicate Ordinary(st: Scanner, c: char)
  {
    st.escapeNext || (c != '\\' && c != '\'' && (st.inQuotes || (c != ' ' && c != ';')))
  }

  /** How one step moves the two flags. */
  lemma StepFlags(st: Scanner, c: char)
    ensures Step(st, c).escapeNext == (c == '\\' && !st.escapeNext)
    ensures Step(st, c).inQuotes == (st.inQuotes != (c == '\'' && !st.escapeNext))
  {
  }

  lemma StepTracks(st: Scanner, p: string, c: char)
    requires Tracks(st, p)
    ensures Tracks(Step(st, c), p + [c])
  {
    UnfoldOne(p, c);
    StepText(st, c);
    StepFlags(st, c);
    assert Ordinary(st, c) == Kept(p, c);
    var added := if Kept(p, c) then [c] else [];
    assert Text(Step(st, c)) == Text(st) + added;
    assert KeptChars(p + [c]) == KeptChars(p) + added;
  }

  lemma {:induction false} ScanTracks(s: string)
    ensures Tracks(Scan(s), s)
    decreases |s|
  {
    if s != [] {
      var p := s[..|s| - 1];
      ScanTracks(p);
      ScanSnoc(p, s[|s| - 1]);
      StepTracks(Scan(p), p, s[|s| - 1]);
      assert s == p + [s[|s| - 1]];
    }
  }

  /** The tokens of the chain, read in order, are exactly the kept characters
      of the input: escaped characters and ordinary characters, and nothing
      else. An unescaped quote or backslash is never written. */
  lemma ParseText(s: string)
    ensures ChainText(Parse(s)) == KeptChars(s)
  {
    ScanTracks(s);
    var st := Scan(s);
    FlushTokenText(st.command, st.token);
    FlushCommandText(st.commands, FlushToken(st.command, st.token));
  }

  lemma {:induction false} KeptCharsFromInput(s: string)
    ensures |KeptChars(s)| <= |s|
    ensures multiset(KeptChars(s)) <= multiset(s)
    ensures '\\' !in s ==> '\\' !in KeptChars(s) && '\'' !in KeptChars(s)
    decreases |s|
  {
    if s != [] {
      var p, c := s[..|s| - 1], s[|s| - 1];
      assert s == p + [c];
      assert '\\' !in s ==> '\\' !in p;
      KeptCharsFromInput(p);
      assert '\\' !in s ==> !EscapePending(p);
    }
  }

  /** Every token character comes from the input, so all tokens together are
      no longer than the input; and an input without a backslash yields no
      token holding a quote or a backslash. */
  lemma ParseTakesFromInput(s: string)
    ensures |ChainText(Parse(s))| <= |s|
    ensures multiset(ChainText(Parse(s))) <= multiset(s)
    ensures '\\' !in s ==> '\\' !in ChainText(Parse(s)) && '\'' !in ChainText(Parse(s))
  {
    ParseText(s);
    KeptCharsFromInput(s);
  }

  // ---------------------------------------------------------------------------
  // Input without quotes or backslashes

  /** A string with neither a backslash nor a single quote. */
  predicate Plain(s: string)
  {
    '\\' !in s && '\'' !in s
  }

  /** The non-empty strings of `ts`, in order. */
  function NonEmpty(ts: seq<string>): seq<string>
    decreases |ts|
  {
    if ts == [] then []
    else NonEmpty(ts[..|ts| - 1]) + (if ts[|ts| - 1] == [] then [] else [ts[|ts| - 1]])
  }

  /** The non-empty space-delimited runs of `s`. */
  function Words(s: string): seq<string>
  {
    NonEmpty(SplitOn(s, ' '))
  }

  /** The words of each piece, pieces without words dropped. */
  function PlainCommands(pieces: seq<string>): seq<seq<string>>
    decreases |pieces|
  {
    if pieces == [] then []
    else
      var w := Words(pieces[|pieces| - 1]);
      PlainCommands(pieces[..|pieces| - 1]) + (if w == [] then [] else [w])
  }

  /** The reading of a plain command string: split at every `;`, split each
      piece at every space, drop empty runs and empty commands. */
  function PlainParse(s: string): seq<seq<string>>
  {
    PlainCommands(SplitOn(s, ';'))
  }

  lemma NonEmptySnoc(ts: seq<string>, t: string)
    ensures NonEmpty(ts + [t]) == NonEmpty(ts) + (if t == [] then [] else [t])
  {
    assert (ts + [t])[..|ts|] == ts;
  }

  lemma PlainCommandsSnoc(pieces: seq<string>, piece: string)
    ensures PlainCommands(pieces + [piece]) == FlushCommand(PlainCommands(pieces), Words(piece))
  {
    assert (pieces + [piece])[..|pieces|] == pieces;
  }

  /** The scanner's state after a plain prefix `p`, described by the pieces
      of `p`: the completed commands are the words of all `;`-pieces but the
      last, the current command holds the completed words of the last piece,
      and the buffer holds its last, unfinished run. */
  ghost predicate Mirrors(st: Scanner, p: string)
  {
    var pieces := SplitOn(p, ';');
    var runs := SplitOn(pieces[|pieces| - 1], ' ');
    && st.commands == PlainCommands(pieces[..|pieces| - 1])
    && st.command == NonEmpty(runs[..|runs| - 1])
    && st.token == runs[|runs| - 1]
    && !st.inQuotes && !st.escapeNext
  }

  /** Flushing the buffer into the current command gives the words of the
      last piece. */
  lemma WordsOfLastPiece(st: Scanner, p: string)
    requires Mirrors(st, p)
    ensures var pieces := SplitOn(p, ';');
      FlushToken(st.command, st.token) == Words(pieces[|pieces| - 1])
  {
    var pieces := SplitOn(p, ';');
    var runs := SplitOn(pieces[|pieces| - 1], ' ');
    assert runs == runs[..|runs| - 1] + [runs[|runs| - 1]];
    NonEmptySnoc(runs[..|runs| - 1], runs[|runs| - 1]);
  }

  lemma StepMirrors(st: Scanner, p: string, c: char)
    requires Mirrors(st, p) && c != '\\' && c != '\''
    ensures Mirrors(Step(st, c), p + [c])
  {
    var q := p + [c];
    assert q[..|q| - 1] == p;
    var pieces := SplitOn(p, ';');
    var last := pieces[|pieces| - 1];
    var runs := SplitOn(last, ' ');
    if c == ';' {
      var pieces' := SplitOn(q, ';');
      assert pieces' == pieces + [[]];
      assert pieces'[..|pieces'| - 1] == pieces;
      assert pieces == pieces[..|pieces| - 1] + [last];
      WordsOfLastPiece(st, p);
      PlainCommandsSnoc(pieces[..|pieces| - 1], last);
    } else {
      var pieces' := SplitOn(q, ';');
      assert pieces' == pieces[..|pieces| - 1] + [last + [c]];
      assert pieces'[..|pieces'| - 1] == pieces[..|pieces| - 1];
      var last' := last + [c];
      assert last'[..|last'| - 1] == last;
      var runs' := SplitOn(last', ' ');
      if c == ' ' {
        assert runs' == runs + [[]];
        assert runs == runs[..|runs| - 1] + [runs[|runs| - 1]];
        NonEmptySnoc(runs[..|runs| - 1], runs[|runs| - 1]);
      } else {
        assert runs' == runs[..|runs| - 1] + [runs[|runs| - 1] + [c]];
        assert runs'[..|runs'| - 1] == runs[..|runs| - 1];
      }
    }
  }

  lemma {:induction false} ScanMirrors(s: string)
    requires Plain(s)
    ensures Mirrors(Scan(s), s)
    decreases |s|
  {
    if s != [] {
      var p, c := s[..|s| - 1], s[|s| - 1];
      assert s == p + [c];
      assert Plain(p);
      ScanMirrors(p);
      ScanSnoc(p, c);
      StepMirrors(Scan(p), p, c);
    }
  }

  /** Without quotes and backslashes, the commands are the `;`-delimited
      pieces and the tokens are exactly the non-empty space-delimited runs of
      each piece, in input order. */
  lemma ParsePlain(s: string)
    requires Plain(s)
    ensures Parse(s) == PlainParse(s)
  {
    ScanMirrors(s);
    var pieces := SplitOn(s, ';');
    var last := pieces[|pieces| - 1];
    assert pieces == pieces[..|pieces| - 1] + [last];
    WordsOfLastPiece(Scan(s), s);
    PlainCommandsSnoc(pieces[..|pieces| - 1], last);
  }

  /** No token of `chain` holds a space or a semicolon. */
  ghost predicate NoSeparators(chain: seq<seq<string>>)
  {
    forall i, j :: 0 <= i < |chain| && 0 <= j < |chain[i]| ==> ' ' !in chain[i][j] && ';' !in chain[i][j]
  }

  ghost predicate Unbroken(st: Scanner)
  {
    && NoSeparators(st.commands)
    && (forall j :: 0 <= j < |st.command| ==> ' ' !in st.command[j] && ';' !in st.command[j])
    && ' ' !in st.token && ';' !in st.token
    && !st.inQuotes && !st.escapeNext
  }

  lemma {:induction false} ScanUnbroken(s: string)
    requires Plain(s)
    ensures Unbroken(Scan(s))
    decreases |s|
  {
    if s != [] {
      var p, c := s[..|s| - 1], s[|s| - 1];
      assert s == p + [c];
      assert Plain(p);
      ScanUnbroken(p);
      ScanSnoc(p, c);
    }
  }

  /** Without quotes and backslashes, no token holds a space or a semicolon. */
  lemma ParsePlainNoSeparators(s: string)
    requires Plain(s)
    ensures NoSeparators(Parse(s))
  {
    ScanUnbroken(s);
  }

  // Writing commands back as text: a name, then each argument in quotes,
  // commands joined by "; " (the form every input in commands/registry_test.go
  // has). Parsing such a text gives the commands back.

  /** A token the scanner reads unquoted: no quote, backslash, space or semicolon. */
  predicate Bare(w: string)
  {
    w != [] && '\\' !in w && '\'' !in w && ' ' !in w && ';' !in w
  }

  /** A token the scanner reads inside quotes: no quote and no backslash. */
  predicate Quotable(a: string)
  {
    a != [] && '\\' !in a && '\'' !in a
  }

  /** A command that can be written as text: a bare name, quotable arguments. */
  predicate Writable(cmd: seq<string>)
  {
    |cmd| >= 1 && Bare(cmd[0]) && forall i :: 1 <= i < |cmd| ==> Quotable(cmd[i])
  }

  function Quote(a: string): string
  {
    " '" + a + "'"
  }

  /** The name followed by the quoted arguments. */
  function Write(cmd: seq<string>): string
    requires |cmd| >= 1
    decreases |cmd|
  {
    if |cmd| == 1 then cmd[0] else Write(cmd[..|cmd| - 1]) + Quote(cmd[|cmd| - 1])
  }

  /** The commands written one after the other, separated by "; ". */
  function WriteChain(chain: seq<seq<string>>): string
    requires forall i :: 0 <= i < |chain| ==> Writable(chain[i])
    decreases |chain|
  {
    if chain == [] then []
    else
      assert Writable(chain[|chain| - 1]);
      if |chain| == 1 then Write(chain[0])
      else WriteChain(chain[..|chain| - 1]) + "; " + Write(chain[|chain| - 1])
  }

  /** A space and a quoted argument flush the buffer and leave the argument in it. */
  lemma RunQuote(st: Scanner, a: string)
    requires !st.escapeNext && !st.inQuotes && '\\' !in a && '\'' !in a
    ensures Run(st, Quote(a)) == st.(command := FlushToken(st.command, st.token), token := a)
  {
    var open := st.(command := FlushToken(st.command, st.token), token := [], inQuotes := true);
    assert Run(st, " '") == open by {
      assert " '"[..1] == " ";
      assert Run(st, " ") == Step(st, ' ');
    }
    RunWord(open, a);
    RunAppend(st, " '", a);
    RunAppend(st, " '" + a, "'");
  }

  /** "; " outside quotes closes the pending command. */
  lemma RunSeparator(st: Scanner)
    requires !st.escapeNext && !st.inQuotes
    ensures Run(st, "; ") == st.(commands := FlushCommand(st.commands, FlushToken(st.command, st.token)), command := [], token := [])
  {
    assert "; "[..1] == ";";
    assert Run(st, ";") == Step(st, ';');
  }

  /** Reading a written command from an empty buffer: all tokens but the last
      join the command, the last one waits in the buffer. */
  lemma {:induction false} RunWrite(st: Scanner, cmd: seq<string>)
    requires Writable(cmd) && st.token == [] && !st.inQuotes && !st.escapeNext
    ensures Run(st, Write(cmd)) == st.(command := st.command + cmd[..|cmd| - 1], token := cmd[|cmd| - 1])
    decreases |cmd|
  {
    if |cmd| == 1 {
      RunWord(st, cmd[0]);
      assert st.token + cmd[0] == cmd[0];
      assert st.command + cmd[..0] == st.command;
    } else {
      var init, a := cmd[..|cmd| - 1], cmd[|cmd| - 1];
      assert Writable(init) by {
        forall i | 1 <= i < |init| ensures Quotable(init[i]) { assert init[i] == cmd[i]; }
      }
      RunWrite(st, init);
      var mid := st.(command := st.command + init[..|init| - 1], token := init[|init| - 1]);
      RunQuote(mid, a);
      RunAppend(st, Write(init), Quote(a));
      assert Quotable(cmd[|init|]);
      SnocLast(init);
      AppendSnoc(st.command, init[..|init| - 1], init[|init| - 1]);
    }
  }

  /** The state after a written chain: the commands but the last are complete. */
  lemma {:induction false} RunWriteChain(chain: seq<seq<string>>)
    requires |chain| >= 1 && forall i :: 0 <= i < |chain| ==> Writable(chain[i])
    ensures var last := chain[|chain| - 1];
      Run(Start, WriteChain(chain)) == Scanner(chain[..|chain| - 1], last[..|last| - 1], last[|last| - 1], false, false)
    decreases |chain|
  {
    var last := chain[|chain| - 1];
    if |chain| == 1 {
      RunWrite(Start, last);
    } else {
      var init := chain[..|chain| - 1];
      assert forall i :: 0 <= i < |init| ==> Writable(init[i]) by {
        forall i | 0 <= i < |init| ensures Writable(init[i]) { assert init[i] == chain[i]; }
      }
      RunWriteChain(init);
      var prev := init[|init| - 1];
      var s1 := Scanner(init[..|init| - 1], prev[..|prev| - 1], prev[|prev| - 1], false, false);
      var s2 := Scanner(init, [], [], false, false);
      RunSeparator(s1);
      SnocLast(prev);
      SnocLast(init);
      assert Run(s1, "; ") == s2;
      RunAppend(Start, WriteChain(init), "; ");
      RunWrite(s2, last);
      RunAppend(Start, WriteChain(init) + "; ", Write(last));
    }
  }

  /** Round trip: parsing the written chain gives the chain back. */
  lemma {:induction false} ParseWriteChain(chain: seq<seq<string>>)
    requires forall i :: 0 <= i < |chain| ==> Writable(chain[i])
    ensures Parse(WriteChain(chain)) == chain
  {
    if chain == [] {
      assert WriteChain(chain) == [];
    } else {
      RunWriteChain(chain);
      var last := chain[|chain| - 1];
      var st := Scanner(chain[..|chain| - 1], last[..|last| - 1], last[|last| - 1], false, false);
      assert Scan(WriteChain(chain)) == st;
      SnocLast(last);
      assert FlushToken(st.command, st.token) == last;
      SnocLast(chain);
    }
  }

  // Malformed input is absorbed: nothing pending at the end of the input
  // other than a buffer or a command is reported.

  /** A backslash at the very end escapes nothing and is dropped. */
  lemma TrailingBackslashIgnored(s: string)
    requires !Scan(s).escapeNext
    ensures Parse(s + "\\") == Parse(s)
  {
    ScanSnoc(s, '\\');
  }

  /** A quote at the very end only toggles the quoting state, which the end of
      input ignores: an unterminated quote is as good as one closed at the end. */
  lemma TrailingQuoteIgnored(s: string)
    requires !Scan(s).escapeNext
    ensures Parse(s + "'") == Parse(s)
  {
    ScanSnoc(s, '\'');
  }

  /** An empty pair of quotes adds no token: the buffer is only ever flushed
      when it is not empty. */
  lemma {:induction false} EmptyQuotesVanish(p: string, r: string)
    requires !Scan(p).escapeNext
    ensures Parse(p + "''" + r) == Parse(p + r)
  {
    ScanSnoc(p, '\'');
    ScanSnoc(p + "'", '\'');
    assert p + "'" + "'" == p + "''";
    assert Scan(p + "''") == Scan(p);
    RunAppend(Start, p + "''", r);
    RunAppend(Start, p, r);
  }

  /** Each character of `w`, preceded by a backslash. */
  function Escape(w: string): (e: string)
    ensures |e| == 2 * |w|
    decreases |w|
  {
    if w == [] then [] else Escape(w[..|w| - 1]) + ['\\', w[|w| - 1]]
  }

  /** Escaped characters are written to the buffer whatever they are. */
  lemma {:induction false} RunEscape(st: Scanner, w: string)
    requires !st.escapeNext
    ensures Run(st, Escape(w)) == st.(token := st.token + w)
    decreases |w|
  {
    if w == [] {
      assert st.token + w == st.token;
    } else {
      var p, c := w[..|w| - 1], w[|w| - 1];
      RunEscape(st, p);
      var mid := st.(token := st.token + p);
      assert Run(mid, ['\\', c]) == mid.(token := mid.token + [c]) by {
        assert ['\\', c][..1] == ['\\'];
        assert Run(mid, ['\\']) == Step(mid, '\\');
      }
      RunAppend(st, Escape(p), ['\\', c]);
      assert st.token + p + [c] == st.token + w;
    }
  }

  /** Any non-empty text, fully escaped, is read as one command of one token. */
  lemma ParseEscape(w: string)
    requires w != []
    ensures Parse(Escape(w)) == [[w]]
  {
    RunEscape(Start, w);
    assert Start.token + w == w;
    assert Scan(Escape(w)) == Scanner([], [], w, false, false);
    assert FlushToken([], w) == [w];
  }

  // Spaces around a command string

  /** Nothing but plain spaces. */
  predicate Spaces(p: string)
  {
    forall i :: 0 <= i < |p| ==> p[i] == ' '
  }

  /** Spaces alone leave the scanner where it started. */
  lemma {:induction false} RunSpaces(p: string)
    requires Spaces(p)
    ensures Run(Start, p) == Start
    decreases |p|
  {
    if p != [] {
      RunSpaces(p[..|p| - 1]);
    }
  }

  /** Leading spaces change nothing. */
  lemma LeadingSpacesIgnored(p: string, s: string)
    requires Spaces(p)
    ensures Parse(p + s) == Parse(s)
  {
    RunSpaces(p);
    RunAppend(Start, p, s);
  }

  /** Trailing spaces outside quotes change nothing. */
  lemma {:induction false} TrailingSpacesIgnored(s: string, q: string)
    requires !Scan(s).inQuotes && !Scan(s).escapeNext
    requires Spaces(q)
    ensures Parse(s + q) == Parse(s)
    ensures !Scan(s + q).inQuotes && !Scan(s + q).escapeNext
    decreases |q|
  {
    if q == [] {
      assert s + q == s;
    } else {
      var init := q[..|q| - 1];
      TrailingSpacesIgnored(s, init);
      ScanSnoc(s + init, ' ');
      assert s + init + [' '] == s + q;
    }
  }

  /** The only white space in `s`, if any, is the plain space. */
  predicate OnlyPlainSpaces(s: string)
  {
    forall c :: c in s && IsSpace(c) ==> c == ' '
  }

  /** Without quotes or backslashes, and with no white space but the plain
      space, trimming the input does not change how it parses. */
  lemma ParseTrim(s: string)
    requires Plain(s) && OnlyPlainSpaces(s)
    ensures Parse(Trim(s)) == Parse(s)
  {
    var r := Trim(s);
    var lo := |s| - |TrimLeft(s)|;
    TrimCuts(s);
    var head, tail := s[..lo], s[lo + |r|..];
    assert s == head + r + tail;
    assert Spaces(head) by {
      forall i | 0 <= i < |head| ensures head[i] == ' ' { assert s[i] in s; }
    }
    assert Spaces(tail) by {
      forall i | 0 <= i < |tail| ensures tail[i] == ' ' { assert s[lo + |r| + i] in s; }
    }
    assert Plain(head + r) by {
      assert forall c :: c in head + r ==> c in s;
    }
    ScanUnbroken(head + r);
    TrailingSpacesIgnored(head + r, tail);
    LeadingSpacesIgnored(head, r);
  }
}
