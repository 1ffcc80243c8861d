/**
 * How `DrawNumberApp` reads `config.yml`: every line is split on `:` and
 * its trimmed first two pieces go into a map, then at most one of the keys
 * `maximum`, `minimum`, `attempts` (the first present, in that order) is
 * parsed and handed to the configuration builder.
 */
module ConfigFile {
  import opened Wrappers
  import opened JavaText

  /**
   * The unchecked exceptions reading the configuration can raise. None of
   * them is an `IOException`, so none is caught by the reader's handler.
   */
  datatype Crash =
    | NullResource               // NullPointerException: config.yml is not on the class path
    | IndexOutOfBounds(line: string)  // ArrayIndexOutOfBoundsException: the split of the line has no second (or no first) piece
    | NumberFormat(text: string)      // NumberFormatException: the selected value is not an int

  /** One `key: value` line, both parts trimmed. */
  datatype Entry = Entry(key: string, value: string)

  /** `line.split(":")` then `subLine[0].trim()` and `subLine[1].trim()`. */
  function ParseLine(line: string): (r: Result<Entry, Crash>)
    ensures r.Err? ==> r.error == IndexOutOfBounds(line)
    ensures r.Ok? ==> ':' !in r.value.key && ':' !in r.value.value
  {
    var parts := Split(line, ':');
    if |parts| < 2 then Err(IndexOutOfBounds(line))
    else Ok(Entry(Trim(parts[0]), Trim(parts[1])))
  }

  /** The line has a `:` with something other than `:` somewhere after the first one. */
  ghost predicate HasValue(line: string) {
    var p := IndexFrom(line, ':', 0);
    p < |line| && exists k | p < k < |line| :: line[k] != ':'
  }

  /**
   * A line is accepted exactly when it has a value; its key is the trimmed
   * text before the first `:` and its value the trimmed text between the
   * first `:` and the next one (or the end of the line); anything after a
   * second `:` is ignored. Any other line raises the out-of-bounds error.
   */
  lemma ParseLineFields(line: string)
    ensures ParseLine(line).Ok? <==> HasValue(line)
    ensures ParseLine(line).Err? ==> ParseLine(line).error == IndexOutOfBounds(line)
    ensures ParseLine(line).Ok? ==>
      var p := IndexFrom(line, ':', 0);
      && p < |line|
      && ParseLine(line).value.key == Trim(line[..p])
      && ParseLine(line).value.value == Trim(line[p + 1..IndexFrom(line, ':', p + 1)])
  {
    SplitHasSecond(line, ':');
    if |Split(line, ':')| >= 2 {
      SplitFirstTwo(line, ':');
    }
  }

  // ---------------------------------------------------------------- the map

  /**
   * The entries of `lines`, in order, each line read by `parse`; the first
   * line that `parse` rejects raises its error. The constructor's loop is
   * this with `parse` being `ParseLine`.
   */
  function ParseEach(lines: seq<string>, parse: string -> Result<Entry, Crash>): (r: Result<seq<Entry>, Crash>)
    ensures r.Ok? ==> |r.value| == |lines| && forall j | 0 <= j < |lines| :: parse(lines[j]) == Ok(r.value[j])
    ensures r.Err? ==> exists j | 0 <= j < |lines| :: parse(lines[j]) == Err(r.error)
    decreases |lines|
  {
    if lines == [] then Ok([])
    else
      match ParseEach(lines[..|lines| - 1], parse)
      case Err(c) => Err(c)
      case Ok(entries) =>
        match parse(lines[|lines| - 1])
        case Err(c) => Err(c)
        case Ok(e) => Ok(entries + [e])
  }

  /** The map after `put(key, value)` of each entry in turn. */
  function MapOf(entries: seq<Entry>): (m: map<string, string>)
    ensures forall k | k in m :: exists j | 0 <= j < |entries| :: entries[j] == Entry(k, m[k])
    decreases |entries|
  {
    if entries == [] then map[]
    else
      var e := entries[|entries| - 1];
      MapOf(entries[..|entries| - 1])[e.key := e.value]
  }

  /** `configMap` once every line has been read. */
  function ConfigMapOf(lines: seq<string>): (r: Result<map<string, string>, Crash>)
    ensures r.Err? ==> exists j | 0 <= j < |lines| :: ParseLine(lines[j]).Err? && r.error == IndexOutOfBounds(lines[j])
  {
    match ParseEach(lines, ParseLine)
    case Err(c) => Err(c)
    case Ok(entries) => Ok(MapOf(entries))
  }

  /** No key and no value of the configuration map holds a `:`. */
  lemma ConfigMapHasNoSeparator(lines: seq<string>)
    requires ConfigMapOf(lines).Ok?
    ensures forall k | k in ConfigMapOf(lines).value :: ':' !in k && ':' !in ConfigMapOf(lines).value[k]
  {
    var entries := ParseEach(lines, ParseLine).value;
    forall k | k in ConfigMapOf(lines).value
      ensures ':' !in k && ':' !in ConfigMapOf(lines).value[k]
    {
      var j :| 0 <= j < |entries| && entries[j] == Entry(k, MapOf(entries)[k]);
      assert ParseLine(lines[j]) == Ok(entries[j]);
    }
  }

  /** Once a prefix of the lines has failed, the whole read fails the same way. */
  lemma {:induction false} FailurePersists(lines: seq<string>, parse: string -> Result<Entry, Crash>, i: nat)
    requires i <= |lines| && ParseEach(lines[..i], parse).Err?
    ensures ParseEach(lines, parse) == ParseEach(lines[..i], parse)
    decreases |lines|
  {
    if i < |lines| {
      var init := lines[..|lines| - 1];
      assert init[..i] == lines[..i];
      FailurePersists(init, parse, i);
    } else {
      assert lines[..i] == lines;
    }
  }

  /** Reading one more line: its entry is appended, or its error ends the read. */
  lemma ParseEachStep(lines: seq<string>, parse: string -> Result<Entry, Crash>, i: nat, entries: seq<Entry>)
    requires i < |lines| && ParseEach(lines[..i], parse) == Ok(entries)
    ensures ParseEach(lines[..i + 1], parse) ==
      match parse(lines[i])
      case Err(c) => Err(c)
      case Ok(e) => Ok(entries + [e])
  {
    assert lines[..i + 1][..i] == lines[..i];
  }

  /** A rejected line after accepted ones ends the whole read with its error. */
  lemma RejectedLineEnds(lines: seq<string>, parse: string -> Result<Entry, Crash>, i: nat, entries: seq<Entry>)
    requires i < |lines| && ParseEach(lines[..i], parse) == Ok(entries) && parse(lines[i]).Err?
    ensures ParseEach(lines, parse) == Err(parse(lines[i]).error)
  {
    ParseEachStep(lines, parse, i, entries);
    FailurePersists(lines, parse, i + 1);
  }

  /** One more entry is one more `put`. */
  lemma MapOfStep(entries: seq<Entry>, e: Entry)
    ensures MapOf(entries + [e]) == MapOf(entries)[e.key := e.value]
  {
    assert (entries + [e])[..|entries|] == entries;
  }

  /**
   * The read loop of the constructor, for any way `parse` of reading a
   * line: each line is parsed and `put` into the map in turn; the first
   * line `parse` rejects raises its error.
   */
  method PutEach(lines: seq<string>, parse: string -> Result<Entry, Crash>) returns (r: Result<map<string, string>, Crash>)
    ensures r.Err? <==> ParseEach(lines, parse).Err?
    ensures r.Err? ==> r.error == ParseEach(lines, parse).error
    ensures r.Ok? ==> r.value == MapOf(ParseEach(lines, parse).value)
  {
    var configMap: map<string, string> := map[];
    ghost var entries: seq<Entry> := [];
    var i := 0;
    while i < |lines|
      invariant 0 <= i <= |lines|
      invariant ParseEach(lines[..i], parse) == Ok(entries)
      invariant configMap == MapOf(entries)
    {
      var entry := parse(lines[i]);
      if entry.Err? {
        RejectedLineEnds(lines, parse, i, entries);
        return Err(entry.error);
      }
      ParseEachStep(lines, parse, i, entries);
      MapOfStep(entries, entry.value);
      configMap := configMap[entry.value.key := entry.value.value];
      entries := entries + [entry.value];
      i := i + 1;
    }
    assert lines[..i] == lines;
    r := Ok(configMap);
  }

  /** The read loop with the constructor's own line parsing: it yields `configMap`. */
  method ReadConfigMap(lines: seq<string>) returns (r: Result<map<string, string>, Crash>)
    ensures r == ConfigMapOf(lines)
  {
    r := PutEach(lines, ParseLine);
  }

  /** When `parse` accepts every line, there is one entry per line, in order. */
  lemma {:induction false} EachParsed(lines: seq<string>, parse: string -> Result<Entry, Crash>)
    requires forall j | 0 <= j < |lines| :: parse(lines[j]).Ok?
    ensures ParseEach(lines, parse).Ok?
    ensures |ParseEach(lines, parse).value| == |lines|
    ensures forall j | 0 <= j < |lines| :: ParseEach(lines, parse).value[j] == parse(lines[j]).value
    decreases |lines|
  {
    if lines != [] {
      var init := lines[..|lines| - 1];
      assert forall j | 0 <= j < |init| :: init[j] == lines[j];
      EachParsed(init, parse);
    }
  }

  /** The first line `parse` rejects decides the outcome, whatever the lines after it hold. */
  lemma FirstRejectedLineFails(lines: seq<string>, parse: string -> Result<Entry, Crash>, i: nat)
    requires i < |lines| && parse(lines[i]).Err?
    requires forall j | 0 <= j < i :: parse(lines[j]).Ok?
    ensures ParseEach(lines, parse) == Err(parse(lines[i]).error)
  {
    var init := lines[..i];
    assert forall j | 0 <= j < i :: init[j] == lines[j];
    EachParsed(init, parse);
    assert lines[..i + 1][..i] == init;
    FailurePersists(lines, parse, i + 1);
  }

  /** The map holds exactly the keys of the entries. */
  lemma {:induction false} MapOfKeys(entries: seq<Entry>)
    ensures MapOf(entries).Keys == set j | 0 <= j < |entries| :: entries[j].key
    decreases |entries|
  {
    if entries != [] {
      var n := |entries| - 1;
      var init := entries[..n];
      MapOfKeys(init);
      var keys := set j | 0 <= j < |entries| :: entries[j].key;
      var initKeys := set j | 0 <= j < n :: init[j].key;
      assert keys == initKeys + {entries[n].key} by {
        forall k | k in keys ensures k in initKeys + {entries[n].key} {
          var j :| 0 <= j < |entries| && entries[j].key == k;
          if j < n {
            assert init[j] == entries[j];
          }
        }
        forall k | k in initKeys ensures k in keys {
          var j :| 0 <= j < n && init[j].key == k;
          assert entries[j] == init[j];
        }
      }
    }
  }

  /** When a key occurs in several entries, the value of its last occurrence is kept. */
  lemma {:induction false} LastOccurrenceWins(entries: seq<Entry>, i: nat)
    requires i < |entries|
    requires forall j | i < j < |entries| :: entries[j].key != entries[i].key
    ensures entries[i].key in MapOf(entries) && MapOf(entries)[entries[i].key] == entries[i].value
    decreases |entries|
  {
    var init := entries[..|entries| - 1];
    if i < |entries| - 1 {
      LastOccurrenceWins(init, i);
    }
  }

  // ---------------------------------------------------------------- selection

  /** The configuration keys the reader looks for. */
  datatype Key = Maximum | Minimum | Attempts

  function KeyName(k: Key): string {
    match k
    case Maximum => "maximum"
    case Minimum => "minimum"
    case Attempts => "attempts"
  }

  /** Position of `k` in the order the reader tests the keys. */
  function Rank(k: Key): nat {
    match k
    case Maximum => 0
    case Minimum => 1
    case Attempts => 2
  }

  /**
   * The `if`/`else if` chain over `containsKey`: the key whose value will
   * be used is the first of `maximum`, `minimum`, `attempts` that the map
   * holds, and none when it holds none of them.
   */
  function ChosenKey(m: map<string, string>): (r: Option<Key>)
    ensures r.None? ==> forall k: Key :: KeyName(k) !in m
    ensures r.Some? ==> KeyName(r.value) in m
    ensures r.Some? ==> forall k: Key :: Rank(k) < Rank(r.value) ==> KeyName(k) !in m
  {
    if "maximum" in m then Some(Maximum)
    else if "minimum" in m then Some(Minimum)
    else if "attempts" in m then Some(Attempts)
    else None
  }

  /** One call of `setMax`, `setMin` or `setAttempts` on the builder. */
  datatype SetterCall = SetterCall(field: Key, value: Int32)

  /**
   * The setter the chain calls, if any: only the chosen key's text is
   * parsed, so a value that is not a number under any other key is never
   * looked at; a chosen value that is not a number raises NumberFormat.
   */
  function ChosenSetter(m: map<string, string>): (r: Result<Option<SetterCall>, Crash>)
    ensures r == Ok(None) <==> ChosenKey(m).None?
    ensures r.Err? <==>
      ChosenKey(m).Some? && ParseInt(m[KeyName(ChosenKey(m).value)]).None?
    ensures r.Err? ==> r.error == NumberFormat(m[KeyName(ChosenKey(m).value)])
    ensures r.Ok? && r.value.Some? ==>
      && ChosenKey(m) == Some(r.value.value.field)
      && ParseInt(m[KeyName(r.value.value.field)]) == Some(r.value.value.value)
  {
    match ChosenKey(m)
    case None => Ok(None)
    case Some(k) =>
      var text := m[KeyName(k)];
      match ParseInt(text)
      case None => Err(NumberFormat(text))
      case Some(v) => Ok(Some(SetterCall(k, v)))
  }

  /**
   * Two maps that hold the same chosen key with the same text, and no key
   * of higher priority, select the same setter, whatever else they hold.
   */
  lemma UnselectedValuesIgnored(m: map<string, string>, m': map<string, string>, k: Key)
    requires ChosenKey(m) == Some(k)
    requires KeyName(k) in m' && m'[KeyName(k)] == m[KeyName(k)]
    requires forall j: Key :: Rank(j) < Rank(k) ==> KeyName(j) !in m'
    ensures ChosenSetter(m') == ChosenSetter(m)
  {
    assert ChosenKey(m') == Some(k);
  }

  // ---------------------------------------------------------------- reading

  /** How reading `config.yml` ends after its last line. */
  datatype Ending = EndOfStream | ReadFailure(message: string)

  /**
   * The resource `config.yml`: missing, or present with the lines it
   * yields, how the reader ends, and the message of an `IOException`
   * raised when the reader is closed, if any.
   */
  datatype Source =
    | Missing
    | Present(lines: seq<string>, ending: Ending, closeFailure: Option<string>)

  /**
   * What the `try` block leaves behind: the setter calls made on the
   * builder and the message of a caught `IOException`; or the unchecked
   * exception that escapes the constructor.
   */
  datatype ConfigRead = Read(calls: seq<SetterCall>, ioError: Option<string>) | Aborted(crash: Crash)

  /**
   * The end of the `try` block once every line has been read: the chosen
   * setter, if any, is the one call on the builder, and a failure to close
   * the reader is then reported.
   */
  function SelectedRead(m: map<string, string>, closeFailure: Option<string>): (r: ConfigRead)
    ensures r.Aborted? <==> ChosenSetter(m).Err?
    ensures r.Aborted? ==> ChosenSetter(m) == Err(r.crash)
    ensures r.Read? ==> r.ioError == closeFailure && |r.calls| <= 1
    ensures r.Read? && r.calls != [] ==> ChosenSetter(m) == Ok(Some(r.calls[0]))
    ensures ChosenSetter(m) == Ok(None) ==> r == Read([], closeFailure)
    ensures ChosenSetter(m).Ok? && ChosenSetter(m).value.Some? ==>
      r == Read([ChosenSetter(m).value.value], closeFailure)
  {
    match ChosenSetter(m)
    case Err(c) => Aborted(c)
    case Ok(None) => Read([], closeFailure)
    case Ok(Some(call)) => Read([call], closeFailure)
  }

  /**
   * The `try`-with-resources block of the constructor. A missing resource
   * makes `new InputStreamReader(null)` throw before the block is entered.
   * An `IOException` from reading skips the key selection; one from
   * closing is reported only when the block itself completed (otherwise it
   * is suppressed).
   */
  function ReadConfiguration(src: Source): (r: ConfigRead)
    ensures r.Read? ==> |r.calls| <= 1
    ensures src.Present? && src.ending.ReadFailure? && r.Read? ==>
      r.calls == [] && r.ioError == Some(src.ending.message)
    ensures src.Missing? ==> r == Aborted(NullResource)
    ensures src.Present? && src.ending.ReadFailure? && ConfigMapOf(src.lines).Ok? ==>
      r == Read([], Some(src.ending.message))
  {
    match src
    case Missing => Aborted(NullResource)
    case Present(lines, ending, closeFailure) =>
      match ConfigMapOf(lines)
      case Err(c) => Aborted(c)
      case Ok(m) =>
        match ending
        case ReadFailure(message) => Read([], Some(message))
        case EndOfStream => SelectedRead(m, closeFailure)
  }

  /**
   * An `IOException` from `readLine` after lines that all have a value is
   * caught: no setter is called and its message is reported, while a
   * failure to close the reader is then suppressed.
   */
  lemma ReadFailureIsCaught(lines: seq<string>, message: string, closeFailure: Option<string>)
    requires forall j | 0 <= j < |lines| :: HasValue(lines[j])
    ensures ReadConfiguration(Present(lines, ReadFailure(message), closeFailure)) == Read([], Some(message))
  {
    EntriesOfLines(lines);
  }

  /**
   * A line without a value is not caught by the `IOException` handler: it
   * ends the constructor with the out-of-bounds error, however the reading
   * or the closing would have ended.
   */
  lemma BadLineIsNotCaught(lines: seq<string>, i: nat, ending: Ending, closeFailure: Option<string>)
    requires i < |lines| && !HasValue(lines[i])
    requires forall j | 0 <= j < i :: HasValue(lines[j])
    ensures ReadConfiguration(Present(lines, ending, closeFailure)) == Aborted(IndexOutOfBounds(lines[i]))
  {
    forall j | 0 <= j < i ensures ParseLine(lines[j]).Ok? {
      ParseLineFields(lines[j]);
    }
    ParseLineFields(lines[i]);
    FirstRejectedLineFails(lines, ParseLine, i);
  }

  /** Keys that no entry has, here those tested before rank `bound`, are not in the map. */
  lemma KeysBelowAbsent(entries: seq<Entry>, bound: nat)
    requires forall j, h: Key | 0 <= j < |entries| && Rank(h) < bound :: entries[j].key != KeyName(h)
    ensures forall h: Key | Rank(h) < bound :: KeyName(h) !in MapOf(entries)
  {
    MapOfKeys(entries);
  }

  /** The entries of lines that all have a value, line by line. */
  lemma EntriesOfLines(lines: seq<string>)
    requires forall j | 0 <= j < |lines| :: HasValue(lines[j])
    ensures ConfigMapOf(lines).Ok?
    ensures forall j | 0 <= j < |lines| :: ParseLine(lines[j]).Ok? && ParseEach(lines, ParseLine).value[j] == ParseLine(lines[j]).value
  {
    forall j | 0 <= j < |lines| ensures ParseLine(lines[j]).Ok? {
      ParseLineFields(lines[j]);
    }
    EachParsed(lines, ParseLine);
  }

  /** The same for lines that all have a value, when no line has a key tested before rank `bound`. */
  lemma KeysOfLinesBelowAbsent(lines: seq<string>, bound: nat)
    requires forall j | 0 <= j < |lines| :: HasValue(lines[j])
    requires forall j, h: Key | 0 <= j < |lines| && Rank(h) < bound ::
      ParseLine(lines[j]).Ok? ==> ParseLine(lines[j]).value.key != KeyName(h)
    ensures ConfigMapOf(lines).Ok?
    ensures forall h: Key | Rank(h) < bound :: KeyName(h) !in ConfigMapOf(lines).value
  {
    EntriesOfLines(lines);
    var entries := ParseEach(lines, ParseLine).value;
    forall j, h: Key | 0 <= j < |entries| && Rank(h) < bound ensures entries[j].key != KeyName(h) {
      assert entries[j] == ParseLine(lines[j]).value;
    }
    KeysBelowAbsent(entries, bound);
  }

  /** A map holding none of the three keys selects none. */
  lemma NoKeyChosen(m: map<string, string>)
    requires forall h: Key | Rank(h) < 3 :: KeyName(h) !in m
    ensures ChosenKey(m).None?
  {
    assert KeyName(Maximum) !in m && KeyName(Minimum) !in m && KeyName(Attempts) !in m;
  }

  /** No key is chosen from lines none of which has one of the three keys. */
  lemma NoKnownKeyChosen(lines: seq<string>)
    requires forall j | 0 <= j < |lines| :: HasValue(lines[j])
    requires forall j, h: Key | 0 <= j < |lines| && Rank(h) < 3 ::
      ParseLine(lines[j]).Ok? ==> ParseLine(lines[j]).value.key != KeyName(h)
    ensures ConfigMapOf(lines).Ok? && ChosenKey(ConfigMapOf(lines).value).None?
  {
    KeysOfLinesBelowAbsent(lines, 3);
    NoKeyChosen(ConfigMapOf(lines).value);
  }

  /** Entry `i` is the last with key `k` and no entry has a key tested before `k`: `k` is chosen, with entry `i`'s value. */
  lemma ChosenKeyOfEntries(entries: seq<Entry>, i: nat, k: Key)
    requires i < |entries| && entries[i].key == KeyName(k)
    requires forall j | i < j < |entries| :: entries[j].key != KeyName(k)
    requires forall j, h: Key | 0 <= j < |entries| && Rank(h) < Rank(k) :: entries[j].key != KeyName(h)
    ensures ChosenKey(MapOf(entries)) == Some(k)
    ensures MapOf(entries)[KeyName(k)] == entries[i].value
  {
    LastOccurrenceWins(entries, i);
    KeysBelowAbsent(entries, Rank(k));
    var m := MapOf(entries);
    match k
    case Maximum =>
    case Minimum => assert KeyName(Maximum) !in m;
    case Attempts => assert KeyName(Maximum) !in m && KeyName(Minimum) !in m;
  }

  /** The same, for the lines those entries are read from. */
  lemma ChosenKeyOfLines(lines: seq<string>, i: nat, k: Key)
    requires forall j | 0 <= j < |lines| :: HasValue(lines[j])
    requires i < |lines|
    requires ParseLine(lines[i]).Ok? && ParseLine(lines[i]).value.key == KeyName(k)
    requires forall j | i < j < |lines| :: ParseLine(lines[j]).Ok? && ParseLine(lines[j]).value.key != KeyName(k)
    requires forall j, h: Key | 0 <= j < |lines| && Rank(h) < Rank(k) ::
      ParseLine(lines[j]).Ok? ==> ParseLine(lines[j]).value.key != KeyName(h)
    ensures ConfigMapOf(lines).Ok?
    ensures ChosenKey(ConfigMapOf(lines).value) == Some(k)
    ensures ConfigMapOf(lines).value[KeyName(k)] == ParseLine(lines[i]).value.value
  {
    EntriesOfLines(lines);
    var entries := ParseEach(lines, ParseLine).value;
    forall j, h: Key | 0 <= j < |entries| && Rank(h) < Rank(k) ensures entries[j].key != KeyName(h) {
      assert entries[j] == ParseLine(lines[j]).value;
    }
    forall j | i < j < |entries| ensures entries[j].key != KeyName(k) {
      assert entries[j] == ParseLine(lines[j]).value;
    }
    ChosenKeyOfEntries(entries, i, k);
  }

  /**
   * End to end: when every line has a value, line `i` is the last with key
   * `k`, and no line has a key tested before `k`, the builder gets exactly
   * the setter of `k` with that line's value (or the read fails with
   * NumberFormat on that value), whatever the lines with keys tested after
   * `k` say.
   */
  lemma LastChosenKeyIsUsed(lines: seq<string>, i: nat, k: Key, closeFailure: Option<string>)
    requires forall j | 0 <= j < |lines| :: HasValue(lines[j])
    requires i < |lines|
    requires ParseLine(lines[i]).Ok? && ParseLine(lines[i]).value.key == KeyName(k)
    requires forall j | i < j < |lines| :: ParseLine(lines[j]).Ok? && ParseLine(lines[j]).value.key != KeyName(k)
    requires forall j, h: Key | 0 <= j < |lines| && Rank(h) < Rank(k) ::
      ParseLine(lines[j]).Ok? ==> ParseLine(lines[j]).value.key != KeyName(h)
    ensures var text := ParseLine(lines[i]).value.value;
      ReadConfiguration(Present(lines, EndOfStream, closeFailure)) ==
        match ParseInt(text)
        case Some(v) => Read([SetterCall(k, v)], closeFailure)
        case None => Aborted(NumberFormat(text))
  {
    ChosenKeyOfLines(lines, i, k);
  }

  /** The `maximum` case of `LastChosenKeyIsUsed`: `minimum` and `attempts` lines never matter then. */
  lemma LastMaximumIsUsed(lines: seq<string>, i: nat, closeFailure: Option<string>)
    requires forall j | 0 <= j < |lines| :: HasValue(lines[j])
    requires i < |lines|
    requires ParseLine(lines[i]).Ok? && ParseLine(lines[i]).value.key == "maximum"
    requires forall j | i < j < |lines| :: ParseLine(lines[j]).Ok? && ParseLine(lines[j]).value.key != "maximum"
    ensures var text := ParseLine(lines[i]).value.value;
      ReadConfiguration(Present(lines, EndOfStream, closeFailure)) ==
        match ParseInt(text)
        case Some(v) => Read([SetterCall(Maximum, v)], closeFailure)
        case None => Aborted(NumberFormat(text))
  {
    LastChosenKeyIsUsed(lines, i, Maximum, closeFailure);
  }

  /**
   * When every line has a value but none has one of the three keys, the
   * builder is left untouched and only a failure to close is reported.
   */
  lemma NoKnownKeyNoCall(lines: seq<string>, closeFailure: Option<string>)
    requires forall j | 0 <= j < |lines| :: HasValue(lines[j])
    requires forall j, h: Key | 0 <= j < |lines| && Rank(h) < 3 ::
      ParseLine(lines[j]).Ok? ==> ParseLine(lines[j]).value.key != KeyName(h)
    ensures ReadConfiguration(Present(lines, EndOfStream, closeFailure)) == Read([], closeFailure)
  {
    NoKnownKeyChosen(lines);
  }
}
