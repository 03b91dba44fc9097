# lettuce: the asynchronous command state machine and the reactive API type rules

This project is a Dafny model of two sequential cores of the lettuce Redis
client.

**1. The asynchronous command (`AsyncCommand`), its result sink (`CommandOutput`) and the `Futures` wait helpers.**
A command wraps one request and the sink its response is decoded into. It
leaves the pending state once, for one terminal state:
- completed with the sink's value;
- completed exceptionally with a recorded cause;
- cancelled.

The decoder's writes are explicit method calls. A wait is a check of the
present state, because nothing else runs during a sequential call. The
caller's interrupt flag and the timeout's sign are inputs.

Each modelled unit test of `AsyncCommandUnitTests` is replayed as a method
of `AsyncCommandScenarios`. The test's assertions become that method's
postcondition. The tests left out are listed under "Left out".

**2. The type-mapping rules of the reactive API generator (`CreateReactiveApi`).**
A template method is abstracted to a record: its name, its declaring
interface, its printed return type and its printed parameters. The model
covers:
- the three-tier result-type lookup `getResultType`;
- the `Mono`/`Flux` choice and type argument of `methodTypeMutator`;
- the signature builder `nameAndParameters`;
- the comment rewrite `commentMutator`;
- the name and package choice of `createFactory`.

The parts of `java.lang.String` and `java.util.regex` these rely on are
modelled in `Text`:
- `trim`, `startsWith`, `contains`;
- left-to-right, non-overlapping `replace`/`replaceAll`;
- a regular-expression subset: literal characters, a backslash before a
  non-alphanumeric character (which makes that character literal), and the
  dot, which matches any character except a line terminator.

Modules and files:
- `common.dfy`: `Option` and `Result`.
- `errors.dfy`: causes, failures, outcomes.
- `outputs.dfy`: the sink.
- `protocol.dfy`: state steps, `Command`, `AsyncCommand`.
- `futures.dfy`: batch waits.
- `async_command_scenarios.dfy`: the unit tests.
- `text.dfy`: string and regex semantics.
- `reactive_api.dfy`: the tables and mutators.
- `reactive_api_examples.dfy`: the table applied to real template methods.
- `reactive_factory.dfy`: comment rewrite and factory configuration.

Only `AsyncCommandUnitTests.java` describes the first core.
`AsyncCommand.java`, `Futures.java` and `CommandOutput.java` are not part of
this model, so the model follows the tests' assertions. Where the tests say
nothing, the model makes these assumptions about that code:
- A terminal command answers every wait at once, whatever the interrupt flag
  says. This is how `java.util.concurrent.CompletableFuture` documents its waits.
- `isCompletedExceptionally` holds for failed and for cancelled commands, as
  `CompletableFuture` documents it.
- A non-positive timeout is one immediate check. This is an assumption about
  `Futures` and `LettuceFutures`, which are not part of this model.
- `awaitOrCancel` cancels a command that is not done by the deadline, then
  raises `CancellationException`. This too is an assumption about
  `Futures`/`LettuceFutures`, and no test fixes it.
- In a batch wait (`awaitAll`, `await`) a cancelled command counts as done
  and raises nothing: `await` raises only the cause of the first failed
  command. Java's `Future.get()` on a cancelled future would raise
  `CancellationException`. What `Futures` does then is an assumption, since
  no test has a cancelled command in a batch.

## Model

| member | source | states |
|---|---|---|
| Protocol.CompleteStep | src/test/java/io/lettuce/core/protocol/AsyncCommandUnitTests.java:108-113 | a pending command whose sink holds an error fails with a command-execution error carrying that text; without an error it completes with the sink's value; the result is terminal; a terminal command is unchanged |
| Protocol.CompleteExceptionallyStep | src/test/java/io/lettuce/core/protocol/AsyncCommandUnitTests.java:115-121 | the transition happens iff the command is pending, and then the command is failed with that cause and completed exceptionally; otherwise nothing changes |
| Protocol.CancelStep | src/test/java/io/lettuce/core/protocol/AsyncCommandUnitTests.java:46-52 | the answer is true iff the command ends cancelled, iff it was pending or already cancelled; the result is terminal; a terminal state is kept |
| Protocol.CancelIsIdempotent | src/test/java/io/lettuce/core/protocol/AsyncCommandUnitTests.java:49-51 | a second cancel changes nothing and answers as the first |
| Protocol.TerminalIsFinal | src/test/java/io/lettuce/core/protocol/AsyncCommandUnitTests.java:55-59 | no operation changes a terminal state |
| Protocol.IsDone | src/test/java/io/lettuce/core/protocol/AsyncCommandUnitTests.java:54-58 | a state is done iff it is completed, failed or cancelled |
| Protocol.IsCompletedExceptionally | src/test/java/io/lettuce/core/protocol/AsyncCommandUnitTests.java:108-121 | a state is completed exceptionally iff it is done and did not complete normally |
| Protocol.RecordKeepsTerminal | src/test/java/io/lettuce/core/protocol/AsyncCommandUnitTests.java:54-59 | appending a state to a history keeps every terminal entry for good, provided a terminal last entry is repeated |
| Protocol.TerminalOutcome | src/test/java/io/lettuce/core/protocol/AsyncCommandUnitTests.java:145-151 | a terminal command returns exactly when it completed, and then its value; a failure raises the wrapped cause; a cancellation raises CancellationException |
| Protocol.GetOutcome | src/test/java/io/lettuce/core/protocol/AsyncCommandUnitTests.java:163-167 | the unbounded get blocks iff pending and not interrupted; if pending and interrupted it raises InterruptedException; if terminal it gives the terminal outcome |
| Protocol.GetWithinOutcome | src/test/java/io/lettuce/core/protocol/AsyncCommandUnitTests.java:153-156 | the bounded get never blocks; it times out iff pending and not interrupted; wherever the unbounded get returns, both agree |
| Protocol.AwaitOutcome | src/test/java/io/lettuce/core/protocol/AsyncCommandUnitTests.java:158-161 | an uninterrupted await returns whether the command is done; an interrupted one returns true if done, else raises RedisCommandInterruptedException |
| Protocol.Command.constructor | src/test/java/io/lettuce/core/protocol/AsyncCommandUnitTests.java:41 | the request holds the given keyword and sink |
| Protocol.Command.GetError | src/test/java/io/lettuce/core/protocol/AsyncCommandUnitTests.java:102-106 | the request reports its sink's error |
| Protocol.AsyncCommand.constructor | src/test/java/io/lettuce/core/protocol/AsyncCommandUnitTests.java:39-44 | a fresh handle is pending, wraps the given request, and its history is the pending state alone |
| Protocol.AsyncCommand.GetOutput | src/test/java/io/lettuce/core/protocol/AsyncCommandUnitTests.java:76 | the handle's sink is the one its request was built with |
| Protocol.AsyncCommand.IsDone | src/test/java/io/lettuce/core/protocol/AsyncCommandUnitTests.java:54-58 | the handle is done iff its state is completed, failed or cancelled |
| Protocol.AsyncCommand.IsCancelled | src/test/java/io/lettuce/core/protocol/AsyncCommandUnitTests.java:46-51 | the handle is cancelled iff it completed exceptionally without a failure; a cancelled handle is done |
| Protocol.AsyncCommand.Complete | src/test/java/io/lettuce/core/protocol/AsyncCommandUnitTests.java:54-59 | the new state is the complete step applied to the old state and the sink's value and error; the attempt is recorded, and once the history reaches a terminal state every later entry is that state |
| Protocol.AsyncCommand.CompleteExceptionally | src/test/java/io/lettuce/core/protocol/AsyncCommandUnitTests.java:116-118 | state and answer follow the step function; on a transition the sink's error becomes the cause's message and its value is kept; otherwise the sink is unchanged |
| Protocol.AsyncCommand.Cancel | src/test/java/io/lettuce/core/protocol/AsyncCommandUnitTests.java:47-51 | state and answer follow the cancel step; the attempt is recorded and the history keeps its terminal state |
| Protocol.AsyncCommand.Get | src/test/java/io/lettuce/core/protocol/AsyncCommandUnitTests.java:164-166 | the result is the unbounded-get outcome of the current state |
| Protocol.AsyncCommand.GetWithin | src/test/java/io/lettuce/core/protocol/AsyncCommandUnitTests.java:170-172 | the result is the bounded-get outcome of the current state |
| Protocol.AsyncCommand.Await | src/test/java/io/lettuce/core/protocol/AsyncCommandUnitTests.java:176-178 | the result is the await outcome of the current state |
| Outputs.CommandOutput.constructor | src/test/java/io/lettuce/core/protocol/AsyncCommandUnitTests.java:41 | a fresh sink holds no value and no error |
| Outputs.CommandOutput.Get | src/test/java/io/lettuce/core/protocol/AsyncCommandUnitTests.java:185-188 | the status sink returns its value; the get-only subclass always returns null |
| Outputs.CommandOutput.SetBytes | src/test/java/io/lettuce/core/protocol/AsyncCommandUnitTests.java:182-192 | the status sink stores the text and keeps its error; the get-only subclass raises UnsupportedOperationException and changes nothing |
| Outputs.CommandOutput.SetInteger | src/test/java/io/lettuce/core/protocol/AsyncCommandUnitTests.java:195-205 | the integer write is always refused with UnsupportedOperationException |
| Outputs.CommandOutput.GetError | src/test/java/io/lettuce/core/protocol/AsyncCommandUnitTests.java:105 | the sink reports an error exactly when one was recorded, and then that error |
| Outputs.CommandOutput.SetError | src/test/java/io/lettuce/core/protocol/AsyncCommandUnitTests.java:104 | the error is recorded and the value is kept |
| Futures.FirstFailureIsEarliest | src/test/java/io/lettuce/core/protocol/AsyncCommandUnitTests.java:95-100 | the first failure of a batch is the cause of its earliest failed command, and is absent iff no command failed |
| Futures.AwaitAll | src/test/java/io/lettuce/core/protocol/AsyncCommandUnitTests.java:61-72 | with a non-positive timeout or no interrupt, the result is whether every command is terminal; with a positive timeout and an interrupted caller, true if all are done, else RedisCommandInterruptedException |
| Futures.Await | src/test/java/io/lettuce/core/protocol/AsyncCommandUnitTests.java:95-100 | as the batch wait, and then the cause of the batch's first failed command is raised unwrapped; cancelled commands raise nothing |
| Futures.AwaitOrCancel | src/test/java/io/lettuce/core/protocol/AsyncCommandUnitTests.java:74-93 | completed gives its value, failed raises its cause unwrapped, cancelled raises CancellationException; a pending command is cancelled and CancellationException is raised, unless an interrupted caller waits with a positive timeout (RedisCommandInterruptedException, still pending) |
| AsyncCommandScenarios.CreateCommand | src/test/java/io/lettuce/core/protocol/AsyncCommandUnitTests.java:39-44 | the fixture is a pending INFO command over an empty status sink |
| AsyncCommandScenarios.IsCancelledScenario | src/test/java/io/lettuce/core/protocol/AsyncCommandUnitTests.java:46-52 | not cancelled, cancel true, cancelled, cancel true again |
| AsyncCommandScenarios.IsDoneScenario | src/test/java/io/lettuce/core/protocol/AsyncCommandUnitTests.java:54-59 | not done, then done after complete |
| AsyncCommandScenarios.AwaitAllCompletedScenario | src/test/java/io/lettuce/core/protocol/AsyncCommandUnitTests.java:61-67 | awaitAll(-1), awaitAll(0) and await(5) all return true, interrupted or not |
| AsyncCommandScenarios.AwaitAllScenario | src/test/java/io/lettuce/core/protocol/AsyncCommandUnitTests.java:69-72 | awaitAll(1 ns) on a pending command returns false |
| AsyncCommandScenarios.AwaitReturnsCompletedScenario | src/test/java/io/lettuce/core/protocol/AsyncCommandUnitTests.java:74-81 | awaitOrCancel with -1, 0 and 1 returns "one" |
| AsyncCommandScenarios.AwaitWithExecutionExceptionScenario | src/test/java/io/lettuce/core/protocol/AsyncCommandUnitTests.java:83-87 | awaitOrCancel raises a RedisException |
| AsyncCommandScenarios.AwaitWithCancelledCommandScenario | src/test/java/io/lettuce/core/protocol/AsyncCommandUnitTests.java:89-93 | awaitOrCancel raises CancellationException |
| AsyncCommandScenarios.AwaitAllWithExecutionExceptionScenario | src/test/java/io/lettuce/core/protocol/AsyncCommandUnitTests.java:95-100 | await(0) raises a RedisException |
| AsyncCommandScenarios.GetErrorScenario | src/test/java/io/lettuce/core/protocol/AsyncCommandUnitTests.java:102-106 | the request's error is "error" |
| AsyncCommandScenarios.GetErrorAsyncScenario | src/test/java/io/lettuce/core/protocol/AsyncCommandUnitTests.java:108-113 | the command is completed exceptionally with a command-execution error "error" |
| AsyncCommandScenarios.CompleteExceptionallyScenario | src/test/java/io/lettuce/core/protocol/AsyncCommandUnitTests.java:115-121 | the request's error is "test" and the command is completed exceptionally |
| AsyncCommandScenarios.GetWithTimeoutScenario | src/test/java/io/lettuce/core/protocol/AsyncCommandUnitTests.java:145-151 | get(0 ms) returns "one" |
| AsyncCommandScenarios.GetTimeoutScenario | src/test/java/io/lettuce/core/protocol/AsyncCommandUnitTests.java:153-156 | get(2 ms) on a pending command raises TimeoutException |
| AsyncCommandScenarios.AwaitTimeoutScenario | src/test/java/io/lettuce/core/protocol/AsyncCommandUnitTests.java:158-161 | await(2 ms) on a pending command returns false |
| AsyncCommandScenarios.GetInterruptedScenario | src/test/java/io/lettuce/core/protocol/AsyncCommandUnitTests.java:163-167 | an interrupted get() raises InterruptedException |
| AsyncCommandScenarios.GetWithinInterruptedScenario | src/test/java/io/lettuce/core/protocol/AsyncCommandUnitTests.java:169-173 | an interrupted get(5 ms) raises InterruptedException |
| AsyncCommandScenarios.AwaitInterruptedScenario | src/test/java/io/lettuce/core/protocol/AsyncCommandUnitTests.java:175-179 | an interrupted await(5 ms) raises RedisCommandInterruptedException |
| AsyncCommandScenarios.OutputSubclassOverrideScenario | src/test/java/io/lettuce/core/protocol/AsyncCommandUnitTests.java:181-205 | a sink overriding only get() refuses set(buffer) and set(long) |
| ReactiveApi.InitResultSpec | src/test/java/io/lettuce/apigenerator/CreateReactiveApi.java:67-80 | filling the map entry by entry yields exactly the eight-entry table |
| ReactiveApi.FixedTypesArePublishers | src/test/java/io/lettuce/apigenerator/CreateReactiveApi.java:69-77 | every fixed result type is a Mono or a Flux |
| ReactiveApi.Signature | src/test/java/io/lettuce/apigenerator/CreateReactiveApi.java:226-241 | the signature is the name and "(", then ")" at the end; no parameters give `name()` |
| ReactiveApi.SignatureOfOne | src/test/java/io/lettuce/apigenerator/CreateReactiveApi.java:226-241 | one parameter is printed between the parentheses without a separator |
| ReactiveApi.SignatureLength | src/test/java/io/lettuce/apigenerator/CreateReactiveApi.java:226-241 | a signature is as long as the name, two parentheses and the joined parameters |
| ReactiveApi.NameAndParameters | src/test/java/io/lettuce/apigenerator/CreateReactiveApi.java:226-241 | the string builder loop with its first-parameter flag yields the signature |
| ReactiveApi.JoinParametersEnds | src/test/java/io/lettuce/apigenerator/CreateReactiveApi.java:230-237 | no parameters join to the empty text; otherwise the joined text opens with the first parameter and closes with the last |
| ReactiveApi.JoinParametersFromFront | src/test/java/io/lettuce/apigenerator/CreateReactiveApi.java:230-237 | read from the front, the first parameter has no separator and each later one is preceded by ", " |
| ReactiveApi.JoinParametersLength | src/test/java/io/lettuce/apigenerator/CreateReactiveApi.java:230-237 | the joined text is the parameters' lengths plus two characters per separator |
| ReactiveApi.JoinTwoParameters | src/test/java/io/lettuce/apigenerator/CreateReactiveApi.java:230-237 | two parameters are joined by one ", " |
| ReactiveApi.FirstHitIsEarliest | src/test/java/io/lettuce/apigenerator/CreateReactiveApi.java:168-186 | the lookup yields the value of the earliest key the table holds, and nothing iff no key is held |
| ReactiveApi.GetResultType | src/test/java/io/lettuce/apigenerator/CreateReactiveApi.java:168-186 | the result is the first hit among signature, bare name and Interface.name, in that order, so an earlier key shadows a later one; a hit is a value of the table |
| ReactiveApi.FixedBySignature | src/test/java/io/lettuce/apigenerator/CreateReactiveApi.java:170-173 | a method whose signature is a key gets that entry as its fixed type |
| ReactiveApi.FixedByName | src/test/java/io/lettuce/apigenerator/CreateReactiveApi.java:175-177 | otherwise a method whose bare name is a key gets that entry |
| ReactiveApi.QualifiedTierIsDead | src/test/java/io/lettuce/apigenerator/CreateReactiveApi.java:179-183 | with this table the `Interface.name` tier never fires: that key holds a dot and no key does, so a method whose signature and bare name are not keys has no fixed type |
| ReactiveApi.QualifiedName | src/test/java/io/lettuce/apigenerator/CreateReactiveApi.java:179 | the key is the interface name, a dot at that position, then the bare name; it never equals the bare name |
| ReactiveApi.ListedByBareName | src/test/java/io/lettuce/apigenerator/CreateReactiveApi.java:148 | for a set without dotted entries, membership of a method is membership of its bare name |
| ReactiveApi.WrapValue | src/test/java/io/lettuce/apigenerator/CreateReactiveApi.java:160-162 | a VALUE_WRAP method gets `Value<a>`, whose inside is exactly a; other methods keep a |
| ReactiveApi.ValueWrapIsShadowed | src/test/java/io/lettuce/apigenerator/CreateReactiveApi.java:160 | every VALUE_WRAP method has a fixed result type |
| ReactiveApi.MethodTypeMutator | src/test/java/io/lettuce/apigenerator/CreateReactiveApi.java:145-147 | a fixed result type wins over every other rule; without one the result is never fixed |
| ReactiveApi.MutatorFailsOnlyOnBareCollection | src/test/java/io/lettuce/apigenerator/CreateReactiveApi.java:150-155 | the substring fails exactly for a bare `List<` or `Set<` with no fixed type and no forced Flux |
| ReactiveApi.MutatorPicksFlux | src/test/java/io/lettuce/apigenerator/CreateReactiveApi.java:148-158 | without a fixed type the publisher is Flux iff the method is forced or returns a List or Set |
| ReactiveApi.ValueWrapMethodsAreFixed | src/test/java/io/lettuce/apigenerator/CreateReactiveApi.java:145-147 | a VALUE_WRAP method always gets its fixed result type |
| ReactiveApi.UnfixedIsNotWrapped | src/test/java/io/lettuce/apigenerator/CreateReactiveApi.java:160-162 | a method without a fixed type is not in VALUE_WRAP, so its argument is never wrapped |
| ReactiveApi.ListElementType | src/test/java/io/lettuce/apigenerator/CreateReactiveApi.java:150-152 | a trimmed return type t that starts with `List<` and has at least six characters maps to Flux of t[5..len-1], whatever lies between |
| ReactiveApi.SetElementType | src/test/java/io/lettuce/apigenerator/CreateReactiveApi.java:153-155 | a trimmed return type t that starts with `Set<` and has at least five characters maps to Flux of t[4..len-1] |
| ReactiveApi.ListOfElement | src/test/java/io/lettuce/apigenerator/CreateReactiveApi.java:150-152 | in particular `List<x>` maps to `Flux` of exactly x |
| ReactiveApi.SetOfElement | src/test/java/io/lettuce/apigenerator/CreateReactiveApi.java:153-155 | in particular `Set<x>` maps to `Flux` of exactly x |
| ReactiveApi.ForcedFluxKeepsReturnType | src/test/java/io/lettuce/apigenerator/CreateReactiveApi.java:148-149 | a forced method gets Flux of its trimmed return type unchanged, collections included |
| ReactiveApi.MonoKeepsReturnType | src/test/java/io/lettuce/apigenerator/CreateReactiveApi.java:156-158 | any other return type becomes the argument of a Mono, trimmed and otherwise unchanged |
| ReactiveApiExamples.GeoposIsFixed | src/test/java/io/lettuce/apigenerator/CreateReactiveApi.java:70 | geopos gets its listed Flux type whatever it returns |
| ReactiveApiExamples.FixedByNameForUnlistedLength | src/test/java/io/lettuce/apigenerator/CreateReactiveApi.java:168-186 | a method whose signature has a length no key has is looked up by its bare name |
| ReactiveApiExamples.AclCatWithoutCategory | src/test/java/io/lettuce/apigenerator/CreateReactiveApi.java:71 | `aclCat()`, with no parameters, gets the type listed under its signature |
| ReactiveApiExamples.AclCatWithCategory | src/test/java/io/lettuce/apigenerator/CreateReactiveApi.java:72 | `aclCat(AclCategory category)` gets the other listed type, told apart by its signature |
| ReactiveApiExamples.StreamingHgetallKey | src/test/java/io/lettuce/apigenerator/CreateReactiveApi.java:77 | the signature of the streaming hgetall is its table key |
| ReactiveApiExamples.HgetallSignatureShadowsName | src/test/java/io/lettuce/apigenerator/CreateReactiveApi.java:75-77 | the signature entry of the streaming hgetall shadows the bare-name entry, which the other overload gets |
| Text.Regex | src/test/java/io/lettuce/apigenerator/CreateReactiveApi.java:109 | the compiled pattern has at most one atom per character of the expression and at least half as many |
| Text.RegexPlainPrefix | src/test/java/io/lettuce/apigenerator/CreateReactiveApi.java:109 | characters other than a backslash and a dot compile to literals of themselves |
| Text.RegexEscape | src/test/java/io/lettuce/apigenerator/CreateReactiveApi.java:109 | a backslash followed by a character compiles to that character as a literal |
| Text.RegexDot | src/test/java/io/lettuce/apigenerator/CreateReactiveApi.java:109 | an unescaped dot compiles to the wildcard |
| Text.StartsWith | src/test/java/io/lettuce/apigenerator/CreateReactiveApi.java:150 | a text starts with w iff it is w followed by the rest of the text |
| Text.Contains | src/test/java/io/lettuce/apigenerator/CreateReactiveApi.java:213 | a text contains only what fits in it, and always contains the empty text |
| Text.ReplaceAll | src/test/java/io/lettuce/apigenerator/CreateReactiveApi.java:109 | a text shorter than the pattern is left as it is |
| Text.ReplaceAllAtMatch | src/test/java/io/lettuce/apigenerator/CreateReactiveApi.java:109 | at a match the replacement is emitted and the scan resumes after the matched text |
| Text.ReplaceAllAfterBlockedPrefix | src/test/java/io/lettuce/apigenerator/CreateReactiveApi.java:109 | a prefix inside which the pattern cannot start is copied unchanged |
| Text.ReplaceAllOccurrence | src/test/java/io/lettuce/apigenerator/CreateReactiveApi.java:109 | one occurrence between a blocked prefix and a match-free suffix is replaced and nothing else changes |
| Text.LitMatchesPrefix | src/test/java/io/lettuce/apigenerator/CreateReactiveApi.java:209 | a literal pattern matches exactly where its text is a prefix |
| Text.ReplaceAllWithoutMatch | src/test/java/io/lettuce/apigenerator/CreateReactiveApi.java:109 | text without an occurrence is left as it is |
| Text.ReplaceAllLeavesNoMatch | src/test/java/io/lettuce/apigenerator/CreateReactiveApi.java:109 | if the pattern can neither start inside nor end inside the replacement, no occurrence survives replacing all |
| Text.ReplaceAllKeepsNoMatch | src/test/java/io/lettuce/apigenerator/CreateReactiveApi.java:109 | a second replacement keeps another pattern absent under the same two conditions |
| Text.NoMatchAppend | src/test/java/io/lettuce/apigenerator/CreateReactiveApi.java:110 | appending a text the pattern can neither occur in nor reach into keeps the pattern absent |
| Text.ContainsAtIndex | src/test/java/io/lettuce/apigenerator/CreateReactiveApi.java:213 | `contains` holds iff the text occurs at some index |
| Text.NoMatchLitIsNotContains | src/test/java/io/lettuce/apigenerator/CreateReactiveApi.java:209-213 | a literal pattern is absent exactly where `contains` is false |
| Text.ReplaceTrailing | src/test/java/io/lettuce/apigenerator/CreateReactiveApi.java:209 | a text ending in w with no other occurrence has just that w replaced, when w's first character does not recur in w |
| Text.Trim | src/test/java/io/lettuce/apigenerator/CreateReactiveApi.java:143 | the result neither starts nor ends with a character up to the space, and is the part of the input that only such characters surround |
| Text.TrimKeepsTrimmed | src/test/java/io/lettuce/apigenerator/CreateReactiveApi.java:143 | text with nothing to trim at either end is kept |
| ReactiveFactory.IntentRegexCompiles | src/test/java/io/lettuce/apigenerator/CreateReactiveApi.java:109 | the escaped regular expression compiles to the literal `${intent}` |
| ReactiveFactory.SinceRegexCompiles | src/test/java/io/lettuce/apigenerator/CreateReactiveApi.java:109 | `@since 3.0` compiles to a pattern whose dot is a wildcard |
| ReactiveFactory.IntentIsLiteral | src/test/java/io/lettuce/apigenerator/CreateReactiveApi.java:109 | the intent pattern matches exactly where the text starts with `${intent}` |
| ReactiveFactory.CommentMutator | src/test/java/io/lettuce/apigenerator/CreateReactiveApi.java:108-111 | the rewritten comment ends with the generated-by line |
| ReactiveFactory.CommentMutatorLeavesNoIntent | src/test/java/io/lettuce/apigenerator/CreateReactiveApi.java:109-110 | no `${intent}` is left in any rewritten comment |
| ReactiveFactory.CommentMutatorLeavesNoSince | src/test/java/io/lettuce/apigenerator/CreateReactiveApi.java:109-110 | no match of `@since 3.0` is left in any rewritten comment |
| ReactiveFactory.CommentMutatorKeepsPlainText | src/test/java/io/lettuce/apigenerator/CreateReactiveApi.java:108-111 | a comment holding neither pattern is kept, with the generated-by line appended |
| ReactiveFactory.CommentMutatorExample | src/test/java/io/lettuce/apigenerator/CreateReactiveApi.java:109 | the placeholder alone becomes "Reactive executed commands" |
| ReactiveFactory.CommentMutatorReplacesIntent | src/test/java/io/lettuce/apigenerator/CreateReactiveApi.java:108-111 | one `${intent}` between text holding neither pattern becomes "Reactive executed commands"; the rest is kept and the generated-by line appended |
| ReactiveFactory.SinceShape | src/test/java/io/lettuce/apigenerator/CreateReactiveApi.java:109 | `@since 3`, any character but a line terminator, then `0`, is a full match of the since pattern |
| ReactiveFactory.CommentMutatorReplacesSince | src/test/java/io/lettuce/apigenerator/CreateReactiveApi.java:108-111 | one match of `@since 3.0` between text holding neither pattern becomes `@since 4.0`; the rest is kept and the generated-by line appended |
| ReactiveFactory.CommentMutatorSinceExample | src/test/java/io/lettuce/apigenerator/CreateReactiveApi.java:109 | the comment `@since 3.0` becomes `@since 4.0` and the generated-by line |
| ReactiveFactory.CreateFactory | src/test/java/io/lettuce/apigenerator/CreateReactiveApi.java:208-224 | the package is the sentinel one iff the template name contains RedisSentinel, the standard one otherwise; the template file is the name under io/lettuce/core/api/ with .java; KEEP_METHOD_RESULT_TYPE is kept |
| ReactiveFactory.TargetNameOfTemplate | src/test/java/io/lettuce/apigenerator/CreateReactiveApi.java:209 | a template `xCommands`, with no other Commands in x, becomes `xReactiveCommands` |
| ReactiveFactory.SentinelPackage | src/test/java/io/lettuce/apigenerator/CreateReactiveApi.java:213-214 | RedisSentinelCommands goes to io.lettuce.core.sentinel.api.reactive |
| ReactiveFactory.SentinelTargetName | src/test/java/io/lettuce/apigenerator/CreateReactiveApi.java:209 | RedisSentinelCommands becomes RedisSentinelReactiveCommands |
| ReactiveFactory.StringPackage | src/test/java/io/lettuce/apigenerator/CreateReactiveApi.java:215-216 | RedisStringCommands goes to io.lettuce.core.api.reactive |
| ReactiveFactory.StringTargetName | src/test/java/io/lettuce/apigenerator/CreateReactiveApi.java:209 | RedisStringCommands becomes RedisStringReactiveCommands |

## Left out

- Threads, blocking and wall-clock deadlines. A wait is a check of the present state. A blocking `get()` on a pending command is the outcome `Blocks`.
- What an interrupted wait does to the thread's interrupt flag afterwards. The flag is an input of each call.
- Time units. Only the sign of a timeout matters in a sequential model, so the unit is dropped.
- `toCompletableFuture()` and the `asyncGet` test (lines 123-129 of the test). They rely on foreign `CompletableFuture` behaviour.
- The `toString` renderings and `CommandArgs` encoding (the `customKeyword` tests, lines 131-143). The keyword is kept as a field, but no rendering is modelled.
- The enum `valueOf` test (lines 207-211).
- Codec byte encoding. Sink values are the ASCII text they hold.
- A request without an output sink (`null` output). Every modelled request has a sink.
- Errors.Cause: the message is always a string. A Java throwable's `getMessage()` can be null, and the error then copied into the sink would be null; the model has no such cause.
- How `completeExceptionally` classifies exceptions beyond the three cause kinds the tests use.
- The counting and status fields of the real command.
- `methodMutator`, `isStreamingChannelMethod`, the regex rewriting in `methodCommentMutator`, `importSupplier` and `createInterface`. They work on the javaparser tree, on greedy capture groups, or on files.
- `CompilationUnitFactory` is not part of this model. Its `contains` is modelled as "bare name or `Interface.name` is in the set", and `createParametrizedType` as a (publisher, argument) pair.
- The pretty-printer that turns a parameter into text. Parameters are given as their printed text.
- Regular expressions beyond literal characters, escaped non-alphanumeric characters and the dot: classes, quantifiers, anchors and groups. The generator's two patterns need nothing more.
- Text.RegexEscape: every backslash pair compiles to a literal. Java instead reads `\d`, `\s`, `\w`, `\n`, `\t` and the other alphanumeric escapes as classes or control characters. Neither of the generator's patterns uses them.
- Text.Regex: a lone trailing backslash compiles to a literal backslash, while Java rejects the expression. Neither of the generator's patterns ends in one.
- Unicode: `trim` removes characters up to U+0020, as Java's does. No code-point, case or normalisation logic is needed.
- ReactiveApi.MethodTypeMutator: its own contract states only the precedence of a fixed type. The other rules are lemmas beside it: MutatorFailsOnlyOnBareCollection, MutatorPicksFlux, ListElementType, SetElementType, ForcedFluxKeepsReturnType and MonoKeepsReturnType.
- ReactiveFactory.CreateFactory: the template file is the path below the templates directory. The parent directory `Constants.TEMPLATES` of the `File` (line 210) is not modelled, because `Constants` is not part of this model.
- ReactiveFactory.CreateFactory: the target name is stated through TargetNameOfTemplate for names of the form `xCommands`. Names with several occurrences of `Commands` are only defined by the replacement function.
