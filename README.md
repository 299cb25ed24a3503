# stmps command core in Dafny

A model of the command core of stmps (`commands/registry.go`). The core is
three parts:

- **Scanner** (`parseCommandChain`). It turns a raw command string into a
  chain of commands, each a list of tokens:
  - a backslash escapes the next character;
  - a single quote toggles quoting;
  - an unquoted `;` ends a command and an unquoted space ends a token;
  - empty tokens and empty commands are never emitted;
  - an unterminated quote or a trailing backslash is absorbed, not rejected.
- **Registry** (`CommandRegistry`). It maps command names to handlers, with
  `NewRegistry`, `Register` and `List`.
- **Two executors.**
  - `Execute` scans a string and runs its commands in order. It stops at the
    first unknown name (`Command '<name>' not found`) or at the first handler
    that fails (`Error executing command '<name>': <cause>`).
  - `ExecuteChain` first cuts its input at every `;`, whether quoted or not,
    and runs each trimmed piece through `Execute`.

The Dafny files, one module each:

- `seqs.dfy` (`Sequences`): small sequence identities that the other proofs
  use.
- `strings.dfy` (`Strings`): the two Go library calls the core relies on.
  - `strings.Split` on one character is `SplitOn`, with `Join`.
  - `strings.TrimSpace` is `Trim`, using Go's `unicode.IsSpace` set.
- `tokenizer.dfy` (`Tokenizer`): the scanner.
  - `Step` is one iteration of the scanning loop.
  - `Run`/`Scan` read a whole string, and `Parse` adds the flush at the end
    of input.
  - `ParseCommandChain` is the source's loop, proved to compute `Parse`.
  - The lemmas state what the scanner does to any input.
- `tokenizer_examples.dfy` (`TokenizerExamples`): the scanner on the inputs
  of `commands/registry_test.go` and on malformed input.
- `registry.dfy` (`Registry`): the registry and its executors.
  - The class `CommandRegistry` has the handler map as its field.
  - `Dispatch` specifies the loop of `Execute` over a parsed chain.
  - `DispatchSegments` specifies the loop of `ExecuteChain` over the
    `;`-pieces.
  - The lemmas state what a run does: which handlers are called, with which
    arguments, in which world, and how the run ends.
- `registry_examples.dfy` (`RegistryExamples`): the registry scenarios of
  `commands/registry_test.go`, stated for any registry and any handlers that
  behave as each scenario needs.

Handlers are pure function values `(W, CommandContext, seq<string>) -> (W, Status)`:
- `W` is the world a handler may change. In Go that is the captured
  variables, the UI and the fields behind the context pointer.
- The registry threads `W` from one call to the next.
- A ghost `trace` records every call made, as a (name, arguments) pair.

A few behaviours of the code differ from what a reader might expect; the
model follows the code:

- **Quoted empty string.** One could expect `a ''` to give the command `a`
  with one empty argument. The code gives `[["a"]]`, with no argument: it
  appends the buffer only when it is non-empty, so a quoted empty string
  leaves no token (`EmptyQuotesVanish`, `QuotedEmptyStringVanishes`).
- **Delimiters.** One could expect any white space to separate tokens. Only
  the plain space does: the code tests `char == ' '`, so a tab or other
  white space is an ordinary character of a token.
- **`;` inside quotes.** One could expect a quoted `;` to stay part of an
  argument in both executors. `ExecuteChain` cuts at a `;` even inside
  quotes. The model keeps that behaviour and states it exactly:
  - `SplitInsideQuotes` shows the effect on one input;
  - `ExecuteChainAgreesOnPlainInput` shows that the two executors agree when
    there are no quotes or backslashes.
- **Handler signature.** The handlers in `commands/registry_test.go` take
  only the arguments, not the context. The model follows the signature
  `CommandFunc` has in `commands/registry.go`.

## Model

| member | source | states |
|---|---|---|
| Strings.SplitOn | commands/registry.go:60 | `strings.Split` on one character returns one more piece than there are separators |
| Strings.JoinSplit | commands/registry.go:60 | joining the pieces with the separator gives the input back: splitting loses no character |
| Strings.SplitOnPieces | commands/registry.go:60 | no piece contains the separator, and every character of a piece occurs in the input |
| Strings.SplitWithoutSeparator | commands/registry.go:60 | a string without the separator splits into exactly one piece, itself |
| Strings.SplitAtSeparator | commands/registry.go:60 | splitting `a + [d] + b` gives the pieces of `a` followed by the pieces of `b` |
| Strings.TrimLeftCuts | commands/registry.go:62 | trimming the left removes a prefix made only of white space and stops at the first other character |
| Strings.TrimRightCuts | commands/registry.go:62 | trimming the right removes a suffix made only of white space and stops at the last other character |
| Strings.TrimCuts | commands/registry.go:62 | `TrimSpace` returns a slice of its input; every character cut at either end is white space, and the result neither starts nor ends with white space |
| Strings.TrimIdempotent | commands/registry.go:62 | trimming a trimmed segment changes nothing |
| Tokenizer.ParseCommandChain | commands/registry.go:71-112 | the scanning loop, with its four state variables, returns exactly `Parse(input)`, and no command or token in it is empty |
| Tokenizer.RunAppend | commands/registry.go:77-103 | scanning is a left fold over the characters: reading `a` then `b` is reading `a + b` |
| Tokenizer.ParseWellFormed | commands/registry.go:87-99 | every command returned is non-empty and every token is a non-empty string, on any input (both flushes check for emptiness) |
| Tokenizer.ParseText | commands/registry.go:79-102 | the tokens, read in order, are exactly the input characters that are escaped or ordinary; an unescaped quote or backslash, and an unquoted space or `;`, is never written |
| Tokenizer.ParseTakesFromInput | commands/registry.go:79-102 | all tokens together are no longer than the input and are a sub-multiset of it; an input without backslashes yields no token holding a quote or a backslash |
| Tokenizer.ParsePlain | commands/registry.go:86-101 | without quotes or backslashes, the commands are the `;`-pieces and the tokens are exactly the non-empty space-delimited runs of each piece, in input order, with empty pieces dropped |
| Tokenizer.ParsePlainNoSeparators | commands/registry.go:86-99 | without quotes or backslashes, no token contains a space or a `;` |
| Tokenizer.ParseWriteChain | commands/registry.go:71-112 | round trip: every chain of a bare name plus quoted arguments, written as text with `"; "` between commands, parses back to itself |
| Tokenizer.TrailingBackslashIgnored | commands/registry.go:82-83 | an unescaped backslash at the very end of the input escapes nothing and is dropped |
| Tokenizer.TrailingQuoteIgnored | commands/registry.go:84-85 | an unterminated quote is not an error: an unescaped quote at the very end changes nothing |
| Tokenizer.EmptyQuotesVanish | commands/registry.go:84-91 | an unescaped pair of quotes with nothing between them adds no token, wherever it stands |
| Tokenizer.ParseEscape | commands/registry.go:79-83 | any non-empty text whose every character is escaped is read as one command of one token, that text |
| Tokenizer.LeadingSpacesIgnored | commands/registry.go:95-99 | leading spaces do not change the chain |
| Tokenizer.TrailingSpacesIgnored | commands/registry.go:95-109 | spaces after input that leaves the scanner outside quotes and not escaping do not change the chain, and leave it in that state |
| Tokenizer.ParseTrim | commands/registry.go:62 | on input without quotes or backslashes whose only white space is the plain space, trimming before scanning does not change the chain |
| TokenizerExamples.ParsesSingleName | commands/registry_test.go:106-107 | `log` reads as `[["log"]]` |
| TokenizerExamples.ParsesQuotedArgument | commands/registry_test.go:110-111 | `log 'hello world'` reads as `[["log", "hello world"]]` |
| TokenizerExamples.ParsesSeveralQuotedArguments | commands/registry_test.go:114-115 | `add 'file.txt' 'destination'` reads as one command with two arguments |
| TokenizerExamples.ParsesChain | commands/registry_test.go:118-130 | `log 'message'; first; second` reads as three commands |
| TokenizerExamples.ParsesChainWithoutArguments | commands/registry_test.go:133-138 | `first; second` reads as two commands |
| TokenizerExamples.ParsesChainWithQuotedArguments | commands/registry_test.go:141-146 | `add 'file.txt' 'destination'; move 'file.txt'` reads as two commands with their arguments |
| TokenizerExamples.ParsesEmptyInput | commands/registry.go:104-111 | the empty input gives the empty chain |
| TokenizerExamples.ParsesOnlySeparators | commands/registry.go:86-99 | ` ; ` gives the empty chain |
| TokenizerExamples.QuotedEmptyStringVanishes | commands/registry.go:84-85 | `a ''` reads as `[["a"]]` |
| TokenizerExamples.TrailingBackslashDropped | commands/registry.go:82-83 | `a\` reads as `[["a"]]` |
| TokenizerExamples.UnterminatedQuoteIsLiteral | commands/registry.go:84-85 | `log 'a b; c` reads the rest of the input as one argument, space and `;` included |
| TokenizerExamples.EscapesAreLiteral | commands/registry.go:79-83 | an escaped quote, space and `;` are ordinary characters of one token |
| Registry.DispatchErrorFinal | commands/registry.go:47-52 | once `Execute` has returned an error, later commands change nothing: no call, no world change, the same error |
| Registry.SegmentsErrorFinal | commands/registry.go:63-65 | once a piece has failed, `ExecuteChain` runs no later piece |
| Registry.PlanCalls | commands/registry.go:34-46 | the calls a chain asks for: none exactly when every command is empty, and each is named by the first token of a non-empty command with the rest as its arguments |
| Registry.PlanEntry | commands/registry.go:34-46 | each non-empty command has its call in the plan, placed right after the calls of the commands before it, so the plan keeps the chain's order |
| Registry.DispatchFollowsPlan | commands/registry.go:34-53 | the calls made are a prefix of the plan, which has one call per non-empty command, named by its first token, with the rest as arguments; every name called is registered; on success the whole plan was called; a `NotFound` names the next planned, unregistered name; a `HandlerFailed` names the last call made |
| Registry.DispatchSucceedsIff | commands/registry.go:34-55 | `Execute` returns nil exactly when every non-empty command names a registered handler that succeeds in the world left by the commands before it |
| Registry.DispatchStopsAtUnknown | commands/registry.go:50-52 | the first unknown name ends the run with `NotFound(name)`; the world and the calls are those of the commands before it |
| Registry.DispatchStopsAtFailure | commands/registry.go:44-49 | the first failing handler ends the run with `HandlerFailed(name, cause)`; it was called, nothing after it is, and its effects stay (no rollback) |
| Registry.DispatchAppend | commands/registry.go:34-53 | running `a + b` is running `a`, then `b` from the world `a` left, with the calls of `b` after those of `a` |
| Registry.ExecuteChainAgreesOnPlainInput | commands/registry.go:59-68 | on input without quotes or backslashes whose only white space is the plain space, `ExecuteChain` ends exactly like `Execute`: same error, world and calls |
| Registry.ChainWithoutSeparator | commands/registry.go:59-68 | without a `;`, `ExecuteChain` is a single `Execute` of the trimmed input |
| Registry.CommandRegistry.constructor | commands/registry.go:17-21 | a new registry has no command |
| Registry.CommandRegistry.Register | commands/registry.go:24-26 | the name now maps to the new handler, replacing any earlier one; no other entry changes |
| Registry.CommandRegistry.List | commands/registry.go:115-121 | returns every registered name exactly once and nothing else, in an order left open |
| Registry.CommandRegistry.Execute | commands/registry.go:29-56 | the loop over the scanned chain skips empty commands, calls handlers in order and returns the first error; its error, final world and calls are exactly `Dispatch` of `Parse(commandStr)` |
| Registry.CommandRegistry.ExecuteChain | commands/registry.go:59-68 | the loop over the `;`-pieces runs each trimmed piece through `Execute` and returns the first error; its error, final world and calls are exactly `DispatchSegments` of the pieces |
| RegistryExamples.ExecuteName | commands/registry_test.go:35-38 | `Execute` of a registered bare name calls its handler once with no arguments and fails exactly when the handler does |
| RegistryExamples.ExecuteNameAndArgument | commands/registry_test.go:28-31 | `Execute` of a name with one quoted argument calls the handler once with that argument and fails exactly when the handler does (also `registry_test.go:62-67`) |
| RegistryExamples.NonexistentCommand | commands/registry_test.go:45-47 | `Execute("nonexistent")` on a registry without that name returns `Command 'nonexistent' not found` and calls nothing |
| RegistryExamples.ChainRunsBoth | commands/registry_test.go:82-83 | `ExecuteChain("first; second")`, for any two registered words whose handlers succeed: both run in order and the chain succeeds |
| RegistryExamples.ChainStopsAtNonexistent | commands/registry_test.go:86-87 | `ExecuteChain("first; nonexistent; second")`: `first` runs, the unknown name is reported, and `second` is never called |
| RegistryExamples.ChainWithArgument | commands/registry_test.go:97-98 | `ExecuteChain("log 'message'; first")` for any such words and argument: the first handler gets the argument, then the second runs in the world the first left |
| RegistryExamples.ChainStopsAtFailingHandler | commands/registry_test.go:101-102 | `ExecuteChain("log 'message'; log 'wrong'; first")` for any such words and arguments: the failing second call is returned wrapped and the third command never runs |
| RegistryExamples.SplitInsideQuotes | commands/registry.go:60-63 | `Execute("log 'a;b'")` passes the one argument `a;b`, while `ExecuteChain` runs `log 'a` (argument `a`) and then the command `b` |
| RegistryExamples.RegisterTwice | commands/registry.go:24-26 | registering a name twice keeps only the later handler |
| RegistryExamples.ListAfterTwo | commands/registry.go:115-121 | after two registrations `List` returns both names and nothing else |

## Left out

- Handler side effects are modelled as the world value `W` that a handler
  returns. Closures that share mutable state with one another, and
  re-entrant calls into the registry from a handler, are not modelled.
- The shared `*CommandContext`: Go hands every handler of a run the same
  context pointer, so a field one handler writes is seen by the next. The
  model passes every handler the same `ctx` value and counts such writes as
  part of `W`; the `ctx` argument a later handler receives is therefore the
  initial one, not the one a Go handler would see after such a write.
- Nil handlers, nil maps and panics: `Register` accepts a nil `CommandFunc`,
  which `Execute` then finds and calls, and the call panics. A
  `CommandRegistry` not made by `NewRegistry` has a nil map, and `Register`
  on it panics. `Execute` neither recovers from a panicking handler nor
  bounds one that blocks. Handlers in the model are total function values
  and every registry is made by its constructor, so none of these paths
  exists in the model.
- `CommandContext.Logger` is a pointer to a logger. It is reduced to an
  opaque number, since the core only passes it along.
- The text of the `HandlerFailed` cause: `fmt.Errorf` with `%v` wraps the
  handler's error by its text only. Error wrapping chains (`errors.Is`,
  `errors.As`) are not modelled.
- Go's `range` over a string yields runes, and invalid UTF-8 decodes to
  U+FFFD. The model reads Dafny characters, with no byte encoding.
- The order of `List`, which follows Go's randomised map iteration. The
  model chooses keys nondeterministically and promises no order.
- Concurrency: the Go map is not safe for concurrent use, and the model is
  sequential.
- `nil` and empty slices: `parseCommandChain` returns a nil slice for an
  input with no command. The model returns the empty sequence, which ranges
  and measures the same.
- Registry.ExecuteChainAgreesOnPlainInput: stated only for input without
  quotes, backslashes and non-space white space, because on other input
  `ExecuteChain` and `Execute` really differ (`SplitInsideQuotes`, and
  `TrimSpace` cutting a tab that the scanner would keep).
- Tokenizer.ParseTrim: stated under the same restriction, for the same
  reasons.
- Strings.SplitOn: its own contract states only the number of pieces. What
  the pieces are is stated by `JoinSplit`, `SplitOnPieces`,
  `SplitWithoutSeparator` and `SplitAtSeparator`.
- The registry scenarios are stated for any handlers that behave as the test
  needs, rather than for the test's closures. The test's flags
  (`wasCalledA`, `wasCalledB`) are not modelled; the trace of calls stands
  in for them.
- The GUI files that register concrete commands (`gui_commands.go`,
  `gui_handlers.go`, `page_browser.go`) are not part of this model.
