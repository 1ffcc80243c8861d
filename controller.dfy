/**
 * The controller `DrawNumberApp`: it attaches the views, reads the
 * configuration, builds the game engine, and relays guesses to the engine
 * and the engine's answers to every view.
 */
module Controller {
  import opened Wrappers
  import opened JavaText
  import opened ConfigFile
  import opened Views

  /** The message broadcast when the built configuration is not consistent. */
  const ConfigErrorMessage: string := "Error in configuration"

  /**
   * The outcome of `model.attempt(n)`: a `DrawResult`, or the
   * `IllegalArgumentException` it throws; either way the engine's state
   * afterwards.
   */
  datatype Draw<M, R> = Drawn(next: M, result: R) | Rejected(next: M)

  /**
   * What the controller uses of the classes it is given, as functions:
   * `C` stands for `Configuration`, `M` for the state of the `DrawNumber`
   * engine and `R` for `DrawResult`.
   */
  datatype Collaborators<!C, !M, R> = Collaborators(
    build: seq<SetterCall> -> C,        // Configuration.Builder.build() after these setter calls
    isConsistent: C -> bool,            // Configuration.isConsistent()
    newEngine: C -> M,                  // new DrawNumberImpl(configuration)
    attempt: (M, Int32) -> Draw<M, R>,  // DrawNumber.attempt(n)
    reset: M -> M)                      // DrawNumber.reset()

  /** `Configuration.Builder`, known by the setter calls made on it. */
  class ConfigurationBuilder {
    var calls: seq<SetterCall>

    constructor ()
      ensures calls == []
    {
      calls := [];
    }

    method SetMax(v: Int32)
      modifies this
      ensures calls == old(calls) + [SetterCall(Maximum, v)]
    {
      calls := calls + [SetterCall(Maximum, v)];
    }

    method SetMin(v: Int32)
      modifies this
      ensures calls == old(calls) + [SetterCall(Minimum, v)]
    {
      calls := calls + [SetterCall(Minimum, v)];
    }

    method SetAttempts(v: Int32)
      modifies this
      ensures calls == old(calls) + [SetterCall(Attempts, v)]
    {
      calls := calls + [SetterCall(Attempts, v)];
    }
  }

  // ---------------------------------------------------------------- start-up, as values

  /**
   * What the views are told after the start-up loop, given how reading the
   * configuration went: nothing but error displays, at most two per view.
   */
  function ReportEvents<C, M, R>(views: seq<ViewId>, read: ConfigRead, env: Collaborators<C, M, R>): (r: seq<Event<R>>)
    ensures |r| <= 2 * |views|
    ensures forall j | 0 <= j < |r| :: r[j].call.DisplayError?
    ensures read.Aborted? ==> r == []
    ensures read.Read? ==>
      |r| == (if read.ioError.Some? then |views| else 0) +
             (if env.isConsistent(env.build(read.calls)) then 0 else |views|)
    ensures read.Read? && read.ioError.Some? ==>
      |r| >= |views| && forall i | 0 <= i < |views| :: r[i] == Event(views[i], DisplayError(read.ioError.value))
    ensures read.Read? && read.ioError.None? ==>
      forall j | 0 <= j < |r| :: r[j].call == DisplayError(ConfigErrorMessage)
  {
    match read
    case Aborted(_) => []
    case Read(calls, ioError) =>
      (if ioError.Some? then
         BroadcastAt(views, Call<R>.DisplayError(ioError.value));
         Broadcast(views, DisplayError(ioError.value))
       else []) +
      (if env.isConsistent(env.build(calls)) then []
       else
         BroadcastAt(views, Call<R>.DisplayError(ConfigErrorMessage));
         Broadcast(views, DisplayError(ConfigErrorMessage)))
  }

  /**
   * The engine the controller ends up with, or the exception that escapes
   * its constructor: there is an engine exactly when reading completed, and
   * it runs on the configuration read only when that one is consistent,
   * otherwise on the default configuration.
   */
  function ModelAfter<C, M, R>(read: ConfigRead, env: Collaborators<C, M, R>): (r: Result<M, Crash>)
    ensures r.Err? <==> read.Aborted?
    ensures r.Err? ==> r.error == read.crash
    ensures r.Ok? ==>
      || (env.isConsistent(env.build(read.calls)) && r.value == env.newEngine(env.build(read.calls)))
      || r.value == env.newEngine(env.build([]))
  {
    match read
    case Aborted(crash) => Err(crash)
    case Read(calls, _) =>
      var configuration := env.build(calls);
      Ok(env.newEngine(if env.isConsistent(configuration) then configuration else env.build([])))
  }

  /**
   * Every view gets `setObserver` and then `start`, view after view in
   * list order, before anything else; whatever follows is an error
   * display.
   */
  lemma StartupOrder<C, M, R>(views: seq<ViewId>, read: ConfigRead, env: Collaborators<C, M, R>)
    ensures var events := StartEvents(views) + ReportEvents(views, read, env);
      && |events| >= 2 * |views|
      && (forall i | 0 <= i < |views| ::
            events[2 * i] == Event(views[i], SetObserver) && events[2 * i + 1] == Event(views[i], Start))
      && (forall j | 2 * |views| <= j < |events| :: events[j].call.DisplayError?)
  {
    var head := StartEvents<R>(views);
    var tail := ReportEvents(views, read, env);
    var events := head + tail;
    StartEventsAt<R>(views);
    if read.Read? {
      var io: seq<Event<R>> := if read.ioError.Some? then Broadcast(views, DisplayError(read.ioError.value)) else [];
      var config: seq<Event<R>> :=
        if env.isConsistent(env.build(read.calls)) then [] else Broadcast(views, DisplayError(ConfigErrorMessage));
      assert tail == io + config;
      if read.ioError.Some? {
        BroadcastAt(views, Call<R>.DisplayError(read.ioError.value));
      }
      BroadcastAt(views, Call<R>.DisplayError(ConfigErrorMessage));
      forall j | 2 * |views| <= j < |events| ensures events[j].call.DisplayError? {
        assert events[j] == tail[j - |head|];
      }
    }
  }

  /**
   * A consistent configuration is used and no view is told "Error in
   * configuration"; an inconsistent one is replaced by the default, and
   * then each view, in list order, is told so exactly once, at the end of
   * the start-up.
   */
  lemma ConfigurationChecked<C, M, R>(views: seq<ViewId>, read: ConfigRead, env: Collaborators<C, M, R>)
    requires read.Read?
    ensures var configuration := env.build(read.calls);
      ModelAfter(read, env) ==
        Ok(env.newEngine(if env.isConsistent(configuration) then configuration else env.build([])))
    ensures var events := StartEvents(views) + ReportEvents(views, read, env);
      read.ioError != Some(ConfigErrorMessage) ==>
        Count(events, DisplayError(ConfigErrorMessage)) ==
          if env.isConsistent(env.build(read.calls)) then 0 else |views|
  {
    var error := Call<R>.DisplayError(ConfigErrorMessage);
    var head := StartEvents<R>(views);
    var io: seq<Event<R>> := if read.ioError.Some? then Broadcast(views, DisplayError(read.ioError.value)) else [];
    var config: seq<Event<R>> := if env.isConsistent(env.build(read.calls)) then [] else Broadcast(views, error);
    var events := head + ReportEvents(views, read, env);
    assert events == head + (io + config);
    CountStartEvents(views, error);
    if read.ioError.Some? {
      CountBroadcast(views, Call<R>.DisplayError(read.ioError.value), error);
    }
    CountBroadcast(views, error, error);
    CountAppend(io, config, error);
    CountAppend(head, io + config, error);
  }

  /**
   * A caught `IOException` is shown: right after the start-up loop, each
   * view, in list order, is told its message.
   */
  lemma IoErrorReported<C, M, R>(views: seq<ViewId>, read: ConfigRead, env: Collaborators<C, M, R>)
    requires read.Read? && read.ioError.Some?
    ensures var events := StartEvents(views) + ReportEvents(views, read, env);
      && |events| >= 3 * |views|
      && forall i | 0 <= i < |views| ::
           events[2 * |views| + i] == Event(views[i], DisplayError(read.ioError.value))
  {
    ReachesAfter(StartEvents<R>(views), ReportEvents(views, read, env), views, DisplayError(read.ioError.value));
  }

  /** When the configuration is inconsistent, the last calls of the start-up tell each view so, in list order. */
  lemma ConfigurationErrorLast<C, M, R>(views: seq<ViewId>, read: ConfigRead, env: Collaborators<C, M, R>)
    requires read.Read? && !env.isConsistent(env.build(read.calls))
    ensures var events := StartEvents(views) + ReportEvents(views, read, env);
      && |events| >= |views|
      && forall i | 0 <= i < |views| ::
           events[|events| - |views| + i] == Event(views[i], DisplayError(ConfigErrorMessage))
  {
    var error := Call<R>.DisplayError(ConfigErrorMessage);
    var io: seq<Event<R>> := if read.ioError.Some? then Broadcast(views, DisplayError(read.ioError.value)) else [];
    var config := Broadcast(views, error);
    var front := StartEvents<R>(views) + io;
    assert ReportEvents(views, read, env) == io + config;
    assert StartEvents(views) + ReportEvents(views, read, env) == front + config;
    BroadcastLast(front, views, error);
  }

  // ---------------------------------------------------------------- start-up, step by step

  /**
   * The `if`/`else if` chain: parse the value of the first key present
   * among `maximum`, `minimum`, `attempts` and call its setter.
   */
  method ApplyChosenSetting(m: map<string, string>, builder: ConfigurationBuilder) returns (crash: Option<Crash>)
    modifies builder
    ensures crash.Some? <==> ChosenSetter(m).Err?
    ensures crash.Some? ==> ChosenSetter(m) == Err(crash.value)
    ensures crash.Some? ==> builder.calls == old(builder.calls)
    ensures ChosenSetter(m) == Ok(None) ==> builder.calls == old(builder.calls)
    ensures ChosenSetter(m).Ok? && ChosenSetter(m).value.Some? ==>
      builder.calls == old(builder.calls) + [ChosenSetter(m).value.value]
  {
    crash := None;
    if "maximum" in m {
      var v := ParseInt(m["maximum"]);
      if v.None? {
        return Some(NumberFormat(m["maximum"]));
      }
      builder.SetMax(v.value);
    } else if "minimum" in m {
      var v := ParseInt(m["minimum"]);
      if v.None? {
        return Some(NumberFormat(m["minimum"]));
      }
      builder.SetMin(v.value);
    } else if "attempts" in m {
      var v := ParseInt(m["attempts"]);
      if v.None? {
        return Some(NumberFormat(m["attempts"]));
      }
      builder.SetAttempts(v.value);
    }
  }

  /** The key selection on a fresh builder, once the lines are read. */
  method ApplySelection(m: map<string, string>, closeFailure: Option<string>) returns (read: ConfigRead)
    ensures read == SelectedRead(m, closeFailure)
  {
    var builder := new ConfigurationBuilder();
    var crash := ApplyChosenSetting(m, builder);
    if crash.Some? {
      return Aborted(crash.value);
    }
    return Read(builder.calls, closeFailure);
  }

  /**
   * The `try`-with-resources block: read every line into the map, then
   * apply the chosen setting; an `IOException` is caught and its message
   * kept, any other exception escapes.
   */
  method ReadInto(src: Source) returns (read: ConfigRead)
    ensures read == ReadConfiguration(src)
  {
    match src {
      case Missing =>
        return Aborted(NullResource);
      case Present(lines, ending, closeFailure) =>
        var configMap := ReadConfigMap(lines);
        if configMap.Err? {
          return Aborted(configMap.error);
        }
        match ending {
          case ReadFailure(message) =>
            return Read([], Some(message));
          case EndOfStream =>
            read := ApplySelection(configMap.value, closeFailure);
        }
    }
  }

  // ---------------------------------------------------------------- a guess, as values

  /** The calls the views receive for one guess. */
  function AttemptEvents<M, R>(views: seq<ViewId>, draw: Draw<M, R>): (r: seq<Event<R>>)
    ensures |r| == |views|
  {
    match draw
    case Drawn(_, result) => Broadcast(views, Result(result))
    case Rejected(_) => Broadcast(views, NumberIncorrect)
  }

  /**
   * A guess reaches every view once, in list order: with the one result
   * the engine produced, or, when the engine rejected the guess, with
   * `numberIncorrect` and no result at all.
   */
  lemma AttemptReachesEveryView<M, R>(views: seq<ViewId>, draw: Draw<M, R>)
    ensures |AttemptEvents(views, draw)| == |views|
    ensures forall i | 0 <= i < |views| :: AttemptEvents(views, draw)[i].view == views[i]
    ensures draw.Drawn? ==> forall i | 0 <= i < |views| :: AttemptEvents(views, draw)[i].call == Result(draw.result)
    ensures draw.Rejected? ==> forall i | 0 <= i < |views| :: AttemptEvents(views, draw)[i].call == NumberIncorrect
  {
    match draw
    case Drawn(_, result) => BroadcastAt(views, Result(result));
    case Rejected(_) => BroadcastAt(views, Call<R>.NumberIncorrect);
  }

  // ---------------------------------------------------------------- the controller

  /** The constructor's outcome: a running controller, or the exception it let escape. */
  datatype Launched<C, M, R> = Running(app: DrawNumberApp<C, M, R>) | Crashed(crash: Crash)

  class DrawNumberApp<C, M, R> {
    /** The attached views, a copy of the constructor's argument. */
    const views: seq<ViewId>
    const env: Collaborators<C, M, R>
    /** Where the calls on the views are recorded. */
    const trace: ViewTrace<R>
    /** The state of the game engine. */
    var model: M

    constructor (views: seq<ViewId>, env: Collaborators<C, M, R>, trace: ViewTrace<R>, model: M)
      ensures this.views == views && this.env == env && this.trace == trace && this.model == model
    {
      this.views := views;
      this.env := env;
      this.trace := trace;
      this.model := model;
    }

    /** `showError`: every view displays `err`. */
    static method ShowError(trace: ViewTrace<R>, views: seq<ViewId>, err: string)
      modifies trace
      ensures trace.events == old(trace.events) + Broadcast(views, DisplayError(err))
    {
      NotifyAll(trace, views, DisplayError(err));
    }

    /** The constructor's first loop: `setObserver` then `start` on each view, in order. */
    static method StartViews(views: array<ViewId>, trace: ViewTrace<R>)
      modifies trace
      ensures trace.events == old(trace.events) + StartEvents(views[..])
    {
      for i := 0 to views.Length
        invariant trace.events == old(trace.events) + StartEvents(views[..i])
      {
        assert views[..i + 1][..i] == views[..i];
        trace.Deliver(views[i], SetObserver);
        trace.Deliver(views[i], Start);
      }
      assert views[..views.Length] == views[..];
    }

    /**
     * The end of the constructor: report a caught `IOException`, build the
     * configuration and check it, falling back to the default one.
     */
    static method Configure(views: seq<ViewId>, read: ConfigRead, env: Collaborators<C, M, R>, trace: ViewTrace<R>)
      returns (model: M)
      requires read.Read?
      modifies trace
      ensures trace.events == old(trace.events) + ReportEvents(views, read, env)
      ensures ModelAfter(read, env) == Ok(model)
    {
      var io: seq<Event<R>> := [];
      if read.ioError.Some? {
        ShowError(trace, views, read.ioError.value);
        io := Broadcast(views, DisplayError(read.ioError.value));
      }
      assert trace.events == old(trace.events) + io;
      var configuration := env.build(read.calls);
      if env.isConsistent(configuration) {
        model := env.newEngine(configuration);
        assert ReportEvents(views, read, env) == io + [];
      } else {
        ShowError(trace, views, ConfigErrorMessage);
        var defaults := new ConfigurationBuilder();
        model := env.newEngine(env.build(defaults.calls));
        assert ReportEvents(views, read, env) == io + Broadcast(views, DisplayError(ConfigErrorMessage));
      }
    }

    /**
     * The constructor after its start-up loop: read the configuration, then
     * either report and check it and build the controller, or let the
     * unchecked exception escape.
     */
    static method Boot(views: seq<ViewId>, src: Source, env: Collaborators<C, M, R>, trace: ViewTrace<R>)
      returns (r: Launched<C, M, R>, read: ConfigRead)
      modifies trace
      ensures read == ReadConfiguration(src)
      ensures trace.events == old(trace.events) + ReportEvents(views, read, env)
      ensures r.Crashed? <==> ModelAfter(read, env).Err?
      ensures r.Crashed? ==> ModelAfter(read, env) == Err(r.crash)
      ensures r.Running? ==>
        && fresh(r.app)
        && r.app.views == views
        && r.app.env == env
        && r.app.trace == trace
        && ModelAfter(read, env) == Ok(r.app.model)
    {
      read := ReadInto(src);
      if read.Aborted? {
        r := Crashed(read.crash);
      } else {
        var model := Configure(views, read, env, trace);
        var app := new DrawNumberApp(views, env, trace, model);
        r := Running(app);
      }
    }

    /**
     * The constructor `DrawNumberApp(views...)`: start the views, read
     * `config.yml`, select one setting, check the configuration and build
     * the engine. It either yields the controller or lets an unchecked
     * exception escape, after the views have already been started; `read`
     * is how reading the configuration went.
     */
    static method Launch(views: array<ViewId>, src: Source, env: Collaborators<C, M, R>, trace: ViewTrace<R>)
      returns (r: Launched<C, M, R>, read: ConfigRead)
      modifies trace
      ensures read == ReadConfiguration(src)
      ensures trace.events == old(trace.events) + StartEvents(views[..]) + ReportEvents(views[..], read, env)
      ensures r.Crashed? <==> ModelAfter(read, env).Err?
      ensures r.Crashed? ==> ModelAfter(read, env) == Err(r.crash)
      ensures r.Running? ==>
        && fresh(r.app)
        && r.app.views == views[..]
        && r.app.env == env
        && r.app.trace == trace
        && ModelAfter(read, env) == Ok(r.app.model)
    {
      var copy := views[..];
      StartViews(views, trace);
      r, read := Boot(copy, src, env, trace);
    }

    /**
     * `newAttempt(n)`: hand the guess to the engine, then tell every view
     * the result, or `numberIncorrect` when the engine rejects the guess.
     */
    method NewAttempt(n: Int32)
      modifies this, trace
      ensures model == env.attempt(old(model), n).next
      ensures trace.events == old(trace.events) + AttemptEvents(views, env.attempt(old(model), n))
    {
      var draw := env.attempt(model, n);
      model := draw.next;
      match draw {
        case Drawn(_, result) =>
          NotifyAll(trace, views, Result(result));
        case Rejected(_) =>
          NotifyAll(trace, views, NumberIncorrect);
      }
    }

    /** `resetGame()`: reset the engine; the views are not told. */
    method ResetGame()
      modifies this
      ensures model == env.reset(old(model))
    {
      model := env.reset(model);
    }
  }
}
