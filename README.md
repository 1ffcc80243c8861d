# DrawNumberApp controller, modelled in Dafny

This project models the controller of the "draw number" guessing game.
The controller is the class `DrawNumberApp` of the advanced MVC exercise.
When it is constructed it:

1. attaches and starts every view;
2. reads `config.yml` line by line into a key/value map;
3. hands at most one of `maximum`, `minimum` or `attempts` (the first
   present, in that order) to the configuration builder;
4. checks the configuration it built, falling back to the default one when
   that configuration is not consistent;
5. creates the game engine.

After that, the controller relays each guess to the engine and the engine's
answer to every view, and it resets the engine on request.

The model has five modules:

- `Wrappers`: `Option` and `Result`.
- `JavaText`: the Java library behaviour the reader depends on.
  - `String.split(":")`: when there is no `:` the result is the string
    itself, otherwise the pieces with trailing empty pieces removed.
  - `String.trim()`: strips characters up to U+0020 from both ends.
  - `Integer.parseInt`: an optional sign, decimal digits, 32-bit range.
- `ConfigFile`: line parsing, the configuration map, the key priority and
  the outcome of the `try`-with-resources block.
  - `ConfigFile.ReadConfiguration`: this outcome given the lines of the resource,
    how reading ended, and whether closing failed.
- `Views`: the calls a view receives, and the shared `ViewTrace` object that
  records every call on every view, in order.
- `Controller`: the builder, the `DrawNumberApp` class and its operations,
  and the start-up expressed as values.

The engine, the configuration, the builder's checks and the draw result are
not part of this model. Each one becomes a function field of
`Controller.Collaborators`:

- `build`: maps the recorded setter calls to a configuration.
- `isConsistent`: the configuration check.
- `newEngine`: creates the engine.
- `attempt`: yields the next engine state and either a result or a
  rejection.
- `reset`: resets the engine.

### How the Java constructor is modelled

The Java constructor can throw after the views have already been started.
It is therefore modelled as `Controller.DrawNumberApp.Launch`, which returns
either `Running(app)` or `Crashed(crash)`. The view history is kept in a
`ViewTrace` passed in by the caller, so it survives a crash.

### Exceptions that escape the constructor

Three unchecked exceptions are not caught by `catch (IOException e)`. Each
one leaves the constructor after the views have been started:

- **Missing resource.** A missing `config.yml` is not recovered.
  `getSystemResourceAsStream` returns `null`, and
  `new InputStreamReader(null)` throws `NullPointerException`.
- **Line without a value.** A line with no `:`, or with only `:` after its
  first one, makes `subLine[1]` throw `ArrayIndexOutOfBoundsException`. For
  a line made of `:` only, `split` returns an empty array, so `subLine[0]`
  throws first; it is the same exception.
- **Selected value not a number.** If the value under the selected key is
  not an `int`, `Integer.parseInt` throws `NumberFormatException`.

## Model

| member | source | states |
|---|---|---|
| JavaText.Trim | 102-advanced-mvc/src/main/java/it/unibo/mvc/DrawNumberApp.java:38 | `trim` shortens the text and keeps only its own characters; a non-empty result starts and ends with a non-blank (partner: `TrimIsInnerSlice`) |
| JavaText.TrimIsInnerSlice | 102-advanced-mvc/src/main/java/it/unibo/mvc/DrawNumberApp.java:38 | `trim` returns the one slice with only blanks (chars up to U+0020) outside it that, when non-empty, starts and ends with a non-blank |
| JavaText.IndexFromUnique | 102-advanced-mvc/src/main/java/it/unibo/mvc/DrawNumberApp.java:37 | the index of the first `:` is unique: any index with no `:` before it and a `:` at it (or the end) is that index |
| JavaText.IndexFromSuffix | 102-advanced-mvc/src/main/java/it/unibo/mvc/DrawNumberApp.java:37 | searching for the next `:` in a suffix finds the same occurrence, shifted |
| JavaText.Split | 102-advanced-mvc/src/main/java/it/unibo/mvc/DrawNumberApp.java:37 | no element of `split(":")` contains `:`; when the string contains a `:`, the last element, if any, is not empty (partners: `SplitHasSecond`, `SplitFirstTwo`) |
| JavaText.SplitHasSecond | 102-advanced-mvc/src/main/java/it/unibo/mvc/DrawNumberApp.java:37 | `split(":")` has a second element exactly when the string has a `:` followed somewhere by a character other than `:` |
| JavaText.SplitSecondFromValue | 102-advanced-mvc/src/main/java/it/unibo/mvc/DrawNumberApp.java:37 | a character other than `:` after the first `:` gives the split a second element |
| JavaText.SplitNoSecondWithoutValue | 102-advanced-mvc/src/main/java/it/unibo/mvc/DrawNumberApp.java:37 | with only `:` after the first `:`, the split has no second element |
| JavaText.SplitFirstTwo | 102-advanced-mvc/src/main/java/it/unibo/mvc/DrawNumberApp.java:37 | when there is a second element, the first is the text before the first `:` and the second is the text up to the next `:` or the end |
| JavaText.PiecesFirstTwo | 102-advanced-mvc/src/main/java/it/unibo/mvc/DrawNumberApp.java:37 | the first two pieces between separators, empty pieces kept, are the text around the first `:` |
| JavaText.PiecesHeadFrom | 102-advanced-mvc/src/main/java/it/unibo/mvc/DrawNumberApp.java:37 | the first piece after an offset runs up to the next `:` or the end |
| JavaText.PiecesHaveNoSeparator | 102-advanced-mvc/src/main/java/it/unibo/mvc/DrawNumberApp.java:37 | no piece between separators contains the separator |
| JavaText.NonEmptyPiece | 102-advanced-mvc/src/main/java/it/unibo/mvc/DrawNumberApp.java:37 | a string holding a character other than `:` has a non-empty piece, so trailing-empty removal cannot remove it |
| JavaText.OnlySeparators | 102-advanced-mvc/src/main/java/it/unibo/mvc/DrawNumberApp.java:37 | a string made of `:` only splits into empty pieces, which `split` drops |
| JavaText.DropTrailingEmpty | 102-advanced-mvc/src/main/java/it/unibo/mvc/DrawNumberApp.java:37 | the result is a prefix of the pieces; only empty pieces are removed, and its last element is non-empty |
| JavaText.ParseInt | 102-advanced-mvc/src/main/java/it/unibo/mvc/DrawNumberApp.java:41 | `Integer.parseInt` accepts only an optional sign followed by at least one decimal digit |
| JavaText.ParseIntValue | 102-advanced-mvc/src/main/java/it/unibo/mvc/DrawNumberApp.java:41 | for an optional `-` or `+` and at least one ASCII digit, `parseInt` yields the signed value of the digits (leading zeros included) when it fits in an `int`, and otherwise throws NumberFormatException |
| JavaText.ParseIntSignAndZeros | 102-advanced-mvc/src/main/java/it/unibo/mvc/DrawNumberApp.java:41 | `parseInt("+5")` is 5 and `parseInt("007")` is 7 |
| JavaText.ParseIntRange | 102-advanced-mvc/src/main/java/it/unibo/mvc/DrawNumberApp.java:41 | `parseInt("2147483648")` throws and `parseInt("-2147483648")` is the least `int` |
| JavaText.ParseIntRejects | 102-advanced-mvc/src/main/java/it/unibo/mvc/DrawNumberApp.java:41 | a lone sign, a leading blank and the empty text throw NumberFormatException |
| JavaText.DigitsValueSnoc | 102-advanced-mvc/src/main/java/it/unibo/mvc/DrawNumberApp.java:41 | appending a digit multiplies the value by ten and adds the digit |
| JavaText.ParseIntToString | 102-advanced-mvc/src/main/java/it/unibo/mvc/DrawNumberApp.java:41 | `parseInt` reads back every `int` written in decimal |
| JavaText.NatToStringDigits | 102-advanced-mvc/src/main/java/it/unibo/mvc/DrawNumberApp.java:41 | the decimal text of `n` is non-empty, all digits, and has value `n` |
| ConfigFile.ParseLine | 102-advanced-mvc/src/main/java/it/unibo/mvc/DrawNumberApp.java:37-38 | a rejected line fails with the out-of-bounds error for that line; an accepted line gives a key and a value that contain no `:` (partner: `ParseLineFields`) |
| ConfigFile.ParseLineFields | 102-advanced-mvc/src/main/java/it/unibo/mvc/DrawNumberApp.java:37-38 | a line is accepted exactly when it has a value. The key is the trimmed text before the first `:` and the value the trimmed text up to the next `:`; anything after a second `:` is ignored. Every other line fails with the out-of-bounds error |
| ConfigFile.ParseEach | 102-advanced-mvc/src/main/java/it/unibo/mvc/DrawNumberApp.java:36-38 | on success there is one entry per line, each the parse of its line; on failure the error is that of some line's parse (partners: `EachParsed`, `FirstRejectedLineFails`) |
| ConfigFile.MapOf | 102-advanced-mvc/src/main/java/it/unibo/mvc/DrawNumberApp.java:38 | every binding of the map comes from one of the entries put (partners: `MapOfKeys`, `LastOccurrenceWins`) |
| ConfigFile.ConfigMapOf | 102-advanced-mvc/src/main/java/it/unibo/mvc/DrawNumberApp.java:33-39 | when reading the lines fails, some line is rejected and its out-of-bounds error is the outcome (partners: `ReadConfigMap`, `ConfigMapHasNoSeparator`) |
| ConfigFile.ConfigMapHasNoSeparator | 102-advanced-mvc/src/main/java/it/unibo/mvc/DrawNumberApp.java:37-38 | no key and no value of the configuration map contains a `:` |
| ConfigFile.PutEach | 102-advanced-mvc/src/main/java/it/unibo/mvc/DrawNumberApp.java:36-39 | the read loop over any line parser yields the map of the `put`s of the parsed entries, or the error of the first rejected line |
| ConfigFile.ParseEachStep | 102-advanced-mvc/src/main/java/it/unibo/mvc/DrawNumberApp.java:36-38 | reading one more line appends its entry, or its error ends the read |
| ConfigFile.MapOfStep | 102-advanced-mvc/src/main/java/it/unibo/mvc/DrawNumberApp.java:38 | one more entry is one more `put` |
| ConfigFile.ReadConfigMap | 102-advanced-mvc/src/main/java/it/unibo/mvc/DrawNumberApp.java:33-39 | the read loop with the constructor's own line parsing builds exactly the map of `put`s of the parsed lines, in order, or stops with the first line's error |
| ConfigFile.FailurePersists | 102-advanced-mvc/src/main/java/it/unibo/mvc/DrawNumberApp.java:36-38 | once a prefix of the lines fails, the whole read fails the same way |
| ConfigFile.EachParsed | 102-advanced-mvc/src/main/java/it/unibo/mvc/DrawNumberApp.java:36-38 | when every line parses, there is one entry per line, in line order |
| ConfigFile.FirstRejectedLineFails | 102-advanced-mvc/src/main/java/it/unibo/mvc/DrawNumberApp.java:36-38 | the first rejected line decides the outcome, whatever follows it |
| ConfigFile.MapOfKeys | 102-advanced-mvc/src/main/java/it/unibo/mvc/DrawNumberApp.java:38 | the map holds exactly the keys of the parsed lines |
| ConfigFile.LastOccurrenceWins | 102-advanced-mvc/src/main/java/it/unibo/mvc/DrawNumberApp.java:36-39 | for a key on several lines, the map keeps the value of its last occurrence |
| ConfigFile.ChosenKey | 102-advanced-mvc/src/main/java/it/unibo/mvc/DrawNumberApp.java:40-46 | the chosen key is present and every key of higher priority (`maximum` > `minimum` > `attempts`) is absent; none is chosen only when none of the three is present |
| ConfigFile.ChosenSetter | 102-advanced-mvc/src/main/java/it/unibo/mvc/DrawNumberApp.java:40-46 | there is no setter call exactly when no key is chosen. The call fails with NumberFormat exactly when the chosen value does not parse. Otherwise it sets the chosen field to the parsed value |
| ConfigFile.UnselectedValuesIgnored | 102-advanced-mvc/src/main/java/it/unibo/mvc/DrawNumberApp.java:40-46 | only the chosen key's value is parsed: maps that agree on it and lack higher keys select the same setter, whatever else they hold |
| ConfigFile.SelectedRead | 102-advanced-mvc/src/main/java/it/unibo/mvc/DrawNumberApp.java:40-46 | after every line is read: the block aborts with the chosen setter's NumberFormat error exactly when that setter fails. Otherwise the builder gets exactly the chosen setter call, or no call when no key is chosen, and a close failure is reported |
| ConfigFile.ReadConfiguration | 102-advanced-mvc/src/main/java/it/unibo/mvc/DrawNumberApp.java:35-49 | a missing resource escapes as NullPointerException; a `readLine` failure after readable lines is caught, sets no builder field and reports its message; otherwise at most one builder field is set (which call is made: `LastChosenKeyIsUsed`, `NoKnownKeyNoCall`) |
| ConfigFile.ReadFailureIsCaught | 102-advanced-mvc/src/main/java/it/unibo/mvc/DrawNumberApp.java:35-48 | when every line read has a value, a `readLine` failure is caught: no setter is called, its message is reported, and a close failure is suppressed |
| ConfigFile.BadLineIsNotCaught | 102-advanced-mvc/src/main/java/it/unibo/mvc/DrawNumberApp.java:36-47 | the first line without a value aborts with the out-of-bounds error, however reading or closing would end; the `IOException` handler does not apply |
| ConfigFile.LastChosenKeyIsUsed | 102-advanced-mvc/src/main/java/it/unibo/mvc/DrawNumberApp.java:36-46 | end to end, for any of the three keys: when every line has a value, no line has a key tested earlier, and line `i` is the last with this key, the builder gets exactly this key's setter with line `i`'s value, or the read fails with NumberFormat on that text |
| ConfigFile.LastMaximumIsUsed | 102-advanced-mvc/src/main/java/it/unibo/mvc/DrawNumberApp.java:36-46 | the `maximum` case: only `setMax` with the value from the last `maximum` line is called, whatever the `minimum` and `attempts` lines say, or the read fails with NumberFormat on that text |
| ConfigFile.NoKnownKeyNoCall | 102-advanced-mvc/src/main/java/it/unibo/mvc/DrawNumberApp.java:36-46 | when every line has a value and none has one of the three keys, no setter is called and only a close failure is reported |
| Controller.ConfigurationBuilder.SetMax | 102-advanced-mvc/src/main/java/it/unibo/mvc/DrawNumberApp.java:41 | the builder records one `setMax` call |
| Controller.ConfigurationBuilder.SetMin | 102-advanced-mvc/src/main/java/it/unibo/mvc/DrawNumberApp.java:43 | the builder records one `setMin` call |
| Controller.ConfigurationBuilder.SetAttempts | 102-advanced-mvc/src/main/java/it/unibo/mvc/DrawNumberApp.java:45 | the builder records one `setAttempts` call |
| Controller.ApplyChosenSetting | 102-advanced-mvc/src/main/java/it/unibo/mvc/DrawNumberApp.java:40-46 | the `if`/`else if` chain raises NumberFormat exactly when `ChosenSetter` fails, and then leaves the builder untouched; otherwise it appends the chosen setter call, or nothing |
| Controller.ApplySelection | 102-advanced-mvc/src/main/java/it/unibo/mvc/DrawNumberApp.java:40-46 | the key selection on a fresh builder ends exactly as `SelectedRead` says |
| Controller.ReadInto | 102-advanced-mvc/src/main/java/it/unibo/mvc/DrawNumberApp.java:34-49 | the `try`-with-resources block, run step by step, ends exactly as `ReadConfiguration` says |
| Controller.ReportEvents | 102-advanced-mvc/src/main/java/it/unibo/mvc/DrawNumberApp.java:47-56 | after the start-up loop, the views are told nothing but error displays: one per view for a caught `IOException` plus one per view for an inconsistent configuration, and nothing more. An escaped exception tells them nothing. A caught `IOException` message comes first, to every view in list order. Without one, "Error in configuration" is the only message (partners: `IoErrorReported`, `StartupOrder`, `ConfigurationChecked`, `ConfigurationErrorLast`) |
| Controller.ModelAfter | 102-advanced-mvc/src/main/java/it/unibo/mvc/DrawNumberApp.java:50-56 | there is an engine exactly when no unchecked exception escaped; it runs on the configuration read only when that one is consistent, otherwise on the default (partner: `ConfigurationChecked`) |
| Controller.StartupOrder | 102-advanced-mvc/src/main/java/it/unibo/mvc/DrawNumberApp.java:28-32 | view `i` gets `setObserver` at position `2i` and `start` right after it, before anything else; every later start-up event is an error display |
| Controller.ConfigurationChecked | 102-advanced-mvc/src/main/java/it/unibo/mvc/DrawNumberApp.java:50-56 | a consistent configuration is used, otherwise the default. When the caught `IOException` message, if any, is not itself "Error in configuration", "Error in configuration" reaches no view for a consistent configuration, and every view exactly once otherwise |
| Controller.IoErrorReported | 102-advanced-mvc/src/main/java/it/unibo/mvc/DrawNumberApp.java:47-48 | a caught `IOException` message is shown: right after the start-up loop, each view, in list order, is told it |
| Controller.ConfigurationErrorLast | 102-advanced-mvc/src/main/java/it/unibo/mvc/DrawNumberApp.java:53-55 | with an inconsistent configuration, the last start-up events are "Error in configuration" to each view, in list order |
| Controller.AttemptEvents | 102-advanced-mvc/src/main/java/it/unibo/mvc/DrawNumberApp.java:66-77 | a guess yields one event per view (partner: `AttemptReachesEveryView`) |
| Controller.AttemptReachesEveryView | 102-advanced-mvc/src/main/java/it/unibo/mvc/DrawNumberApp.java:66-77 | a guess yields one event per view, in list order. All of them carry the same result, or, when the engine rejects the guess, all are `numberIncorrect` |
| Controller.DrawNumberApp.ShowError | 102-advanced-mvc/src/main/java/it/unibo/mvc/DrawNumberApp.java:59-63 | every view, in list order, gets `displayError(err)` and nothing else happens |
| Controller.DrawNumberApp.StartViews | 102-advanced-mvc/src/main/java/it/unibo/mvc/DrawNumberApp.java:29-32 | the start-up loop appends `setObserver` and `start` for each view of the array, in order |
| Controller.DrawNumberApp.Configure | 102-advanced-mvc/src/main/java/it/unibo/mvc/DrawNumberApp.java:47-56 | reports a caught `IOException`, then the consistency error if any, and builds the engine on the checked configuration |
| Controller.DrawNumberApp.Boot | 102-advanced-mvc/src/main/java/it/unibo/mvc/DrawNumberApp.java:33-56 | after the views are started: the controller is built exactly when reading raises no unchecked exception, with the events and engine of the start-up values |
| Controller.DrawNumberApp.Launch | 102-advanced-mvc/src/main/java/it/unibo/mvc/DrawNumberApp.java:24-57 | the constructor: its events are the view starts followed by the reports. It crashes exactly when an unchecked exception escapes; otherwise it keeps a copy of the views array and the engine of the checked configuration |
| Controller.DrawNumberApp.NewAttempt | 102-advanced-mvc/src/main/java/it/unibo/mvc/DrawNumberApp.java:66-77 | the engine advances by `attempt(n)` and exactly the events of `AttemptEvents` are appended; the views list stays the same |
| Controller.DrawNumberApp.ResetGame | 102-advanced-mvc/src/main/java/it/unibo/mvc/DrawNumberApp.java:80-82 | the engine is reset and no view is told |
| Views.Broadcast | 102-advanced-mvc/src/main/java/it/unibo/mvc/DrawNumberApp.java:60-62 | a broadcast has one event per view |
| Views.BroadcastAt | 102-advanced-mvc/src/main/java/it/unibo/mvc/DrawNumberApp.java:60-62 | event `i` of a broadcast is the call on view `i` |
| Views.CountBroadcast | 102-advanced-mvc/src/main/java/it/unibo/mvc/DrawNumberApp.java:60-62 | a broadcast holds a given call once per view when the calls match, and otherwise not at all |
| Views.CountStartEvents | 102-advanced-mvc/src/main/java/it/unibo/mvc/DrawNumberApp.java:29-32 | the start-up loop never displays an error |
| Views.StartEvents | 102-advanced-mvc/src/main/java/it/unibo/mvc/DrawNumberApp.java:29-32 | the start-up loop makes two calls per view (partner: `StartEventsAt`) |
| Views.StartEventsAt | 102-advanced-mvc/src/main/java/it/unibo/mvc/DrawNumberApp.java:29-32 | view `i` receives `setObserver` at position `2i` and `start` at `2i + 1` |
| Views.NotifyAll | 102-advanced-mvc/src/main/java/it/unibo/mvc/DrawNumberApp.java:60-62 | a `for` loop over the views appends exactly the broadcast of the call |
| Views.ViewTrace.Deliver | 102-advanced-mvc/src/main/java/it/unibo/mvc/DrawNumberView.java:11-32 | one call on one view is appended to the history |

## Left out

- Loading the resource: `ClassLoader.getSystemResourceAsStream`,
  `InputStreamReader` and `BufferedReader` are I/O. They are replaced by a
  `Source`, which is either missing or gives its lines, how reading ended,
  and whether closing failed.
- Read failures: a failing `readLine` is modelled as happening after the
  given lines. Exception messages are strings, and a `null` message is not
  modelled.
- `quit()` with `System.exit`, and `main`: these are program lifecycle and
  the construction of concrete views.
- The concrete views (Swing and print-stream): user interface. Views are
  identified by number, and the `DrawNumberView` interface survives only as
  the names of the calls in the history.
- `DrawNumberImpl`, `Configuration`, `Configuration.Builder` and
  `DrawResult`: their code is not part of this model. Their behaviour is
  the abstract functions of `Collaborators`.
- Views calling back into the controller while they are notified (for
  example a `start()` that submits a guess): the history records only the
  controller's own calls on the views.
- JavaText.ParseInt: the value of `Character.digit` is modelled on ASCII
  digits only. Java also accepts other Unicode decimal digits.
- JavaText.Trim: a Dafny `string` is a sequence of Unicode scalar values,
  not of UTF-16 code units as in Java. `trim` and `split(":")` give the same
  results either way, because every character up to U+0020, and `:`, is a
  single UTF-16 unit. A Java string holding a lone surrogate cannot be
  represented.
- Controller.DrawNumberApp.NewAttempt: view calls are assumed never to
  throw. In the source, the `try` at lines 67-76 also covers the
  `view.result(result)` loop. An `IllegalArgumentException` thrown by a view
  would be caught there, and a `numberIncorrect` broadcast would follow the
  partial `result` broadcast. The model cannot show this.
- Controller.DrawNumberApp.NewAttempt: `attempt` is assumed to throw
  nothing except `IllegalArgumentException`. Any other exception would
  escape `newAttempt` before any view is told, and the model cannot show
  this either.
- View calls during start-up (`setObserver`, `start`, `displayError`) are
  likewise assumed never to throw.
