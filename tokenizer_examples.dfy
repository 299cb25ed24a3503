/** The scanner on the inputs that commands/registry_test.go checks, and on
    the malformed input it absorbs instead of rejecting. Each test input is a
    chain written out as `WriteChain` writes it, so the round trip
    `ParseWriteChain` gives its expected value; the text of each command is
    computed in a lemma of its own to keep every proof small. */
module TokenizerExamples {
  import opened Tokenizer

  /** A text that is a written chain parses to that chain. */
  lemma ParsesWritten(chain: seq<seq<string>>, text: string)
    requires forall i :: 0 <= i < |chain| ==> Writable(chain[i])
    requires WriteChain(chain) == text
    ensures Parse(text) == chain
  {
    ParseWriteChain(chain);
  }

  lemma WriteLogHelloWorld()
    ensures Write(["log", "hello world"]) == "log 'hello world'"
  {
    assert ["log", "hello world"][..1] == ["log"];
  }

  lemma WriteLogMessage()
    ensures Write(["log", "message"]) == "log 'message'"
  {
    assert ["log", "message"][..1] == ["log"];
  }

  lemma WriteAdd()
    ensures Write(["add", "file.txt", "destination"]) == "add 'file.txt' 'destination'"
  {
    var c := ["add", "file.txt", "destination"];
    assert c[..2] == ["add", "file.txt"] && c[..2][..1] == ["add"];
  }

  lemma WriteMove()
    ensures Write(["move", "file.txt"]) == "move 'file.txt'"
  {
    assert ["move", "file.txt"][..1] == ["move"];
  }

  lemma ParsesSingleName()
    ensures Parse("log") == [["log"]]
  {
    assert Writable(["log"]);
    ParsesWritten([["log"]], "log");
  }

  lemma ParsesQuotedArgument()
    ensures Parse("log 'hello world'") == [["log", "hello world"]]
  {
    var c := ["log", "hello world"];
    assert Writable(c);
    WriteLogHelloWorld();
    ParsesWritten([c], "log 'hello world'");
  }

  lemma ParsesSeveralQuotedArguments()
    ensures Parse("add 'file.txt' 'destination'") == [["add", "file.txt", "destination"]]
  {
    var c := ["add", "file.txt", "destination"];
    assert Writable(c);
    WriteAdd();
    ParsesWritten([c], "add 'file.txt' 'destination'");
  }

  lemma ParsesChain()
    ensures Parse("log 'message'; first; second") == [["log", "message"], ["first"], ["second"]]
  {
    var chain := [["log", "message"], ["first"], ["second"]];
    assert Writable(chain[0]) && Writable(chain[1]) && Writable(chain[2]);
    assert chain[..2] == [["log", "message"], ["first"]] && chain[..2][..1] == [["log", "message"]];
    WriteLogMessage();
    assert "log 'message'" + "; " + "first" + "; " + "second" == "log 'message'; first; second";
    ParsesWritten(chain, "log 'message'; first; second");
  }

  lemma ParsesChainWithoutArguments()
    ensures Parse("first; second") == [["first"], ["second"]]
  {
    var chain := [["first"], ["second"]];
    assert Writable(chain[0]) && Writable(chain[1]);
    assert chain[..1] == [["first"]];
    assert "first" + "; " + "second" == "first; second";
    ParsesWritten(chain, "first; second");
  }

  lemma ParsesChainWithQuotedArguments()
    ensures Parse("add 'file.txt' 'destination'; move 'file.txt'")
         == [["add", "file.txt", "destination"], ["move", "file.txt"]]
  {
    var chain := [["add", "file.txt", "destination"], ["move", "file.txt"]];
    assert Writable(chain[0]) && Writable(chain[1]);
    assert chain[..1] == [["add", "file.txt", "destination"]];
    WriteAdd();
    WriteMove();
    assert "add 'file.txt' 'destination'" + "; " + "move 'file.txt'"
        == "add 'file.txt' 'destination'; move 'file.txt'";
    ParsesWritten(chain, "add 'file.txt' 'destination'; move 'file.txt'");
  }

  lemma ParsesEmptyInput()
    ensures Parse("") == []
  {
  }

  /** Only spaces and separators: nothing to run. */
  lemma ParsesOnlySeparators()
    ensures Parse(" ; ") == []
  {
    assert " ; "[..2] == " ;";
    assert " ;"[..1] == " ";
    assert Run(Start, " ") == Start;
    assert Run(Start, " ;") == Start;
  }

  /** A quoted empty string yields no token. */
  lemma QuotedEmptyStringVanishes()
    ensures Parse("a ''") == [["a"]]
  {
    RunWord(Start, "a");
    assert Scan("a") == Scanner([], [], "a", false, false);
    assert FlushToken([], "a") == ["a"];
    ScanSnoc("a", ' ');
    assert "a" + [' '] == "a ";
    assert Scan("a ") == Scanner([], ["a"], [], false, false);
    EmptyQuotesVanish("a ", "");
    assert "a " + "''" + "" == "a ''" && "a " + "" == "a ";
  }

  /** A trailing lone backslash is dropped. */
  lemma TrailingBackslashDropped()
    ensures Parse("a\\") == [["a"]]
  {
    RunWord(Start, "a");
    assert Scan("a") == Scanner([], [], "a", false, false);
    assert FlushToken([], "a") == ["a"];
    TrailingBackslashIgnored("a");
  }

  /** An unterminated quote reads the rest of the input literally. */
  lemma UnterminatedQuoteIsLiteral()
    ensures Parse("log 'a b; c") == [["log", "a b; c"]]
  {
    var c := ["log", "a b; c"];
    var s := "log 'a b; c";
    assert Writable(c);
    WriteLogSpaced();
    assert s + "'" == Write(c);
    RunWriteChain([c]);
    ScanSnoc(s, '\'');
    assert Scan(s + "'").token == "a b; c";
    assert !Scan(s).escapeNext;
    TrailingQuoteIgnored(s);
    ParsesWritten([c], s + "'");
  }

  lemma WriteLogSpaced()
    ensures Write(["log", "a b; c"]) == "log 'a b; c'"
  {
    assert ["log", "a b; c"][..1] == ["log"];
  }

  /** An escaped quote, space or separator is an ordinary character. */
  lemma EscapesAreLiteral()
    ensures Parse("\\'\\ \\;") == [["' ;"]]
  {
    assert "' ;"[..2] == "' " && "' "[..1] == "'";
    assert Escape("' ;") == "\\'\\ \\;";
    ParseEscape("' ;");
  }
}
