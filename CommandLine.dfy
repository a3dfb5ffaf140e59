/**
 * Command-line post-processing of `parse_command_line_arguments` (mfst.c).
 * `getopt_long` itself is not part of this model: its output is given as the
 * sequence of recognised options, in order, with their arguments already
 * converted by `strtol`/`strtoull`, followed by the remaining operands.
 */
module CommandLine {
  datatype Option<T> = None | Some(value: T)

  /** Options that take a string argument. */
  datatype TextKey =
    | StatsFileKey | LogFileKey | StateFileKey | LockFileKey | ForceDeviceKey
    | DbHostKey | DbUserKey | DbPassKey | DbNameKey | CardNameKey

  /** Options that take a numeric argument. */
  datatype NumberKey = StatsIntervalKey | DbPortKey | CardIdKey | SectorsKey

  /** Options without an argument; `-b` yields ProbeKey, an unknown option UnknownKey. */
  datatype FlagKey = ProbeKey | NoCursesKey | HelpKey | DontShowWarningKey | UnknownKey

  datatype Opt = Text(textKey: TextKey, arg: string) | Number(numberKey: NumberKey, num: int) | Flag(flagKey: FlagKey)

  datatype ProgramOptions = ProgramOptions(
    statsFile: Option<string>, logFile: Option<string>, stateFile: Option<string>, lockFile: Option<string>,
    forcedDevice: Option<string>, dbHost: Option<string>, dbUser: Option<string>, dbPass: Option<string>,
    dbName: Option<string>, cardName: Option<string>, deviceName: Option<string>,
    statsInterval: int, dbPort: int, cardId: int, forceSectors: int,
    noCurses: bool, origNoCurses: bool, probeForOptimalBlockSize: bool, dontShowWarningMessage: bool)

  const DEFAULT_STATS_INTERVAL: int := 60
  const DEFAULT_LOCK_FILE: string := "mfst.lock"
  const DEFAULT_DB_PORT: int := 3306

  /** Everything zeroed except the statistics interval. */
  function Defaults(): ProgramOptions
  {
    ProgramOptions(None, None, None, None, None, None, None, None, None, None, None,
                   DEFAULT_STATS_INTERVAL, 0, 0, 0, false, false, false, false)
  }

  /** The argument of the last occurrence of a string option. */
  function LastText(opts: seq<Opt>, key: TextKey): Option<string>
  {
    if |opts| == 0 then None
    else if opts[|opts| - 1].Text? && opts[|opts| - 1].textKey == key then Some(opts[|opts| - 1].arg)
    else LastText(opts[..|opts| - 1], key)
  }

  /** The value of the last occurrence of a numeric option, or `dflt`. */
  function LastNumber(opts: seq<Opt>, key: NumberKey, dflt: int): int
  {
    if |opts| == 0 then dflt
    else if opts[|opts| - 1].Number? && opts[|opts| - 1].numberKey == key then opts[|opts| - 1].num
    else LastNumber(opts[..|opts| - 1], key, dflt)
  }

  /** How many times a string option occurs. */
  function CountText(opts: seq<Opt>, key: TextKey): nat
  {
    if |opts| == 0 then 0
    else CountText(opts[..|opts| - 1], key) + (if opts[|opts| - 1].Text? && opts[|opts| - 1].textKey == key then 1 else 0)
  }

  predicate HasFlag(opts: seq<Opt>, key: FlagKey)
  {
    Flag(key) in opts
  }

  /**
   * The command line is refused (-1): help was asked for, a log, statistics or
   * state file was given twice, more than one device was named, or neither a
   * device nor a state file was given.
   */
  predicate Refused(opts: seq<Opt>, operands: seq<string>)
  {
    || HasFlag(opts, HelpKey)
    || CountText(opts, LogFileKey) >= 2 || CountText(opts, StatsFileKey) >= 2 || CountText(opts, StateFileKey) >= 2
    || |operands| >= 2
    || (|operands| == 0 && CountText(opts, StateFileKey) == 0)
  }

  lemma {:induction false} CountTextPrefix(opts: seq<Opt>, i: nat, key: TextKey)
    requires i <= |opts|
    ensures CountText(opts[..i], key) <= CountText(opts, key)
    decreases |opts| - i
  {
    if i < |opts| {
      CountTextPrefix(opts, i + 1, key);
      assert opts[..i + 1][..i] == opts[..i];
    } else {
      assert opts[..i] == opts;
    }
  }

  /** The last occurrence of a once-given option is its only occurrence, and an absent option has none. */
  lemma {:induction false} LastTextOfCount(opts: seq<Opt>, key: TextKey)
    ensures CountText(opts, key) == 0 <==> LastText(opts, key) == None
  {
    if |opts| > 0 {
      LastTextOfCount(opts[..|opts| - 1], key);
    }
  }

  /** The field a string option sets. */
  function TextField(po: ProgramOptions, key: TextKey): Option<string>
  {
    match key
    case StatsFileKey => po.statsFile
    case LogFileKey => po.logFile
    case StateFileKey => po.stateFile
    case LockFileKey => po.lockFile
    case ForceDeviceKey => po.forcedDevice
    case DbHostKey => po.dbHost
    case DbUserKey => po.dbUser
    case DbPassKey => po.dbPass
    case DbNameKey => po.dbName
    case CardNameKey => po.cardName
  }

  function SetText(po: ProgramOptions, key: TextKey, v: string): (r: ProgramOptions)
    ensures TextField(r, key) == Some(v)
    ensures forall k :: k != key ==> TextField(r, k) == TextField(po, k)
    ensures r.deviceName == po.deviceName
    ensures forall k :: NumberField(r, k) == NumberField(po, k)
    ensures r.noCurses == po.noCurses && r.origNoCurses == po.origNoCurses
    ensures r.dontShowWarningMessage == po.dontShowWarningMessage && r.probeForOptimalBlockSize == po.probeForOptimalBlockSize
  {
    match key
    case StatsFileKey => po.(statsFile := Some(v))
    case LogFileKey => po.(logFile := Some(v))
    case StateFileKey => po.(stateFile := Some(v))
    case LockFileKey => po.(lockFile := Some(v))
    case ForceDeviceKey => po.(forcedDevice := Some(v))
    case DbHostKey => po.(dbHost := Some(v))
    case DbUserKey => po.(dbUser := Some(v))
    case DbPassKey => po.(dbPass := Some(v))
    case DbNameKey => po.(dbName := Some(v))
    case CardNameKey => po.(cardName := Some(v))
  }

  /** The field a numeric option sets. */
  function NumberField(po: ProgramOptions, key: NumberKey): int
  {
    match key
    case StatsIntervalKey => po.statsInterval
    case DbPortKey => po.dbPort
    case CardIdKey => po.cardId
    case SectorsKey => po.forceSectors
  }

  function SetNumber(po: ProgramOptions, key: NumberKey, n: int): (r: ProgramOptions)
    ensures NumberField(r, key) == n
    ensures forall k :: k != key ==> NumberField(r, k) == NumberField(po, k)
    ensures forall k :: TextField(r, k) == TextField(po, k)
    ensures r.deviceName == po.deviceName
    ensures r.noCurses == po.noCurses && r.origNoCurses == po.origNoCurses
    ensures r.dontShowWarningMessage == po.dontShowWarningMessage && r.probeForOptimalBlockSize == po.probeForOptimalBlockSize
  {
    match key
    case StatsIntervalKey => po.(statsInterval := n)
    case DbPortKey => po.(dbPort := n)
    case CardIdKey => po.(cardId := n)
    case SectorsKey => po.(forceSectors := n)
  }

  /** The value a numeric field has when its option is absent. */
  function NumberDefault(key: NumberKey): int
  {
    if key == StatsIntervalKey then DEFAULT_STATS_INTERVAL else 0
  }

  /** The options that may be given at most once. */
  predicate SingleUse(key: TextKey)
  {
    key == LogFileKey || key == StatsFileKey || key == StateFileKey
  }

  /** One case of the option switch, for an option that does not stop the loop. */
  function Step(po: ProgramOptions, o: Opt): ProgramOptions
  {
    match o
    case Flag(NoCursesKey) => po.(noCurses := true, origNoCurses := true)
    case Flag(DontShowWarningKey) => po.(dontShowWarningMessage := true)
    case Flag(_) => po
    case Number(k, n) => SetNumber(po, k, n)
    case Text(k, a) => SetText(po, k, a)
  }

  /** The option switch stops at `o`: a help request, or a single-use option already set. */
  predicate Stops(po: ProgramOptions, o: Opt)
  {
    o == Flag(HelpKey) || (o.Text? && SingleUse(o.textKey) && TextField(po, o.textKey).Some?)
  }

  /** The options after the options `seen` were applied to the defaults without stopping. */
  predicate Applied(po: ProgramOptions, seen: seq<Opt>)
  {
    && !HasFlag(seen, HelpKey)
    && (forall k :: SingleUse(k) ==> CountText(seen, k) <= 1)
    && (forall k :: TextField(po, k) == LastText(seen, k))
    && (forall k :: NumberField(po, k) == LastNumber(seen, k, NumberDefault(k)))
    && po.deviceName == None
    && po.noCurses == HasFlag(seen, NoCursesKey) && po.origNoCurses == HasFlag(seen, NoCursesKey)
    && po.dontShowWarningMessage == HasFlag(seen, DontShowWarningKey)
    && !po.probeForOptimalBlockSize
  }

  /** The options the option loop leaves when it runs to the end: the last occurrence of each option wins. */
  function FromOptions(opts: seq<Opt>): ProgramOptions
  {
    ProgramOptions(
      LastText(opts, StatsFileKey), LastText(opts, LogFileKey), LastText(opts, StateFileKey), LastText(opts, LockFileKey),
      LastText(opts, ForceDeviceKey), LastText(opts, DbHostKey), LastText(opts, DbUserKey), LastText(opts, DbPassKey),
      LastText(opts, DbNameKey), LastText(opts, CardNameKey), None,
      LastNumber(opts, StatsIntervalKey, DEFAULT_STATS_INTERVAL), LastNumber(opts, DbPortKey, 0),
      LastNumber(opts, CardIdKey, 0), LastNumber(opts, SectorsKey, 0),
      HasFlag(opts, NoCursesKey), HasFlag(opts, NoCursesKey), false, HasFlag(opts, DontShowWarningKey))
  }

  /** `Applied` pins every field down. */
  lemma AppliedIsFromOptions(po: ProgramOptions, opts: seq<Opt>)
    requires Applied(po, opts)
    ensures po == FromOptions(opts)
  {
    assert TextField(po, StatsFileKey) == LastText(opts, StatsFileKey);
    assert TextField(po, LogFileKey) == LastText(opts, LogFileKey);
    assert TextField(po, StateFileKey) == LastText(opts, StateFileKey);
    assert TextField(po, LockFileKey) == LastText(opts, LockFileKey);
    assert TextField(po, ForceDeviceKey) == LastText(opts, ForceDeviceKey);
    assert TextField(po, DbHostKey) == LastText(opts, DbHostKey);
    assert TextField(po, DbUserKey) == LastText(opts, DbUserKey);
    assert TextField(po, DbPassKey) == LastText(opts, DbPassKey);
    assert TextField(po, DbNameKey) == LastText(opts, DbNameKey);
    assert TextField(po, CardNameKey) == LastText(opts, CardNameKey);
    assert NumberField(po, StatsIntervalKey) == LastNumber(opts, StatsIntervalKey, NumberDefault(StatsIntervalKey));
    assert NumberField(po, DbPortKey) == LastNumber(opts, DbPortKey, NumberDefault(DbPortKey));
    assert NumberField(po, CardIdKey) == LastNumber(opts, CardIdKey, NumberDefault(CardIdKey));
    assert NumberField(po, SectorsKey) == LastNumber(opts, SectorsKey, NumberDefault(SectorsKey));
  }

  lemma AppliedNothing()
    ensures Applied(Defaults(), [])
  {
  }

  /** The history functions on one more option. */
  lemma Snoc(seen: seq<Opt>, o: Opt)
    ensures (seen + [o])[..|seen|] == seen && (seen + [o])[|seen|] == o
    ensures forall f :: HasFlag(seen + [o], f) <==> HasFlag(seen, f) || o == Flag(f)
  {
    assert (seen + [o])[..|seen|] == seen;
  }

  /** A step that does not stop keeps the options in line with the options seen. */
  lemma AppliedStep(po: ProgramOptions, seen: seq<Opt>, o: Opt)
    requires Applied(po, seen) && !Stops(po, o)
    ensures Applied(Step(po, o), seen + [o])
  {
    Snoc(seen, o);
    if o.Text? && SingleUse(o.textKey) {
      LastTextOfCount(seen, o.textKey);
    }
  }

  /** A repeated single-use option makes the whole command line count it twice. */
  lemma RepeatRefused(po: ProgramOptions, opts: seq<Opt>, i: nat)
    requires i < |opts| && Applied(po, opts[..i])
    requires opts[i].Text? && SingleUse(opts[i].textKey) && TextField(po, opts[i].textKey).Some?
    ensures CountText(opts, opts[i].textKey) >= 2
  {
    var k := opts[i].textKey;
    LastTextOfCount(opts[..i], k);
    Snoc(opts[..i], opts[i]);
    assert opts[..i + 1] == opts[..i] + [opts[i]];
    CountTextPrefix(opts, i + 1, k);
  }

  /**
   * The option loop of `parse_command_line_arguments`: applies each option in
   * turn, stopping with -1 at a help request or at the second occurrence of a
   * single-use option.
   */
  method ApplyOptions(opts: seq<Opt>) returns (r: int, po: ProgramOptions)
    ensures r == -1 || r == 0
    ensures r == -1 <==> HasFlag(opts, HelpKey) || exists k :: SingleUse(k) && CountText(opts, k) >= 2
    ensures r == 0 ==> po == FromOptions(opts)
  {
    po := Defaults();
    AppliedNothing();
    var i := 0;
    while i < |opts|
      invariant i <= |opts| && Applied(po, opts[..i])
    {
      if Stops(po, opts[i]) {
        if opts[i] == Flag(HelpKey) {
          assert opts[i] in opts;
        } else {
          RepeatRefused(po, opts, i);
        }
        return -1, po;
      }
      AppliedStep(po, opts[..i], opts[i]);
      assert opts[..i + 1] == opts[..i] + [opts[i]];
      po := Step(po, opts[i]);
      i := i + 1;
    }
    assert opts[..i] == opts;
    AppliedIsFromOptions(po, opts);
    r := 0;
  }

  /**
   * `parse_command_line_arguments`: applies the options in order (the last
   * occurrence of a repeated option wins), rejects the cases of `Refused`,
   * then fills in the lock-file and database-port defaults. `-b` reaches no
   * case of the option switch, so the block-size probe is never requested.
   */
  method ParseCommandLineArguments(opts: seq<Opt>, operands: seq<string>) returns (r: int, po: ProgramOptions)
    ensures r == -1 || r == 0
    ensures r == -1 <==> Refused(opts, operands)
    ensures r == 0 ==>
      && po.statsFile == LastText(opts, StatsFileKey) && po.logFile == LastText(opts, LogFileKey)
      && po.stateFile == LastText(opts, StateFileKey) && po.forcedDevice == LastText(opts, ForceDeviceKey)
      && po.dbHost == LastText(opts, DbHostKey) && po.dbUser == LastText(opts, DbUserKey)
      && po.dbPass == LastText(opts, DbPassKey) && po.dbName == LastText(opts, DbNameKey)
      && po.cardName == LastText(opts, CardNameKey)
      && po.lockFile == Some(if LastText(opts, LockFileKey).Some? then LastText(opts, LockFileKey).value else DEFAULT_LOCK_FILE)
      && po.deviceName == (if |operands| == 1 then Some(operands[0]) else None)
      && po.statsInterval == LastNumber(opts, StatsIntervalKey, DEFAULT_STATS_INTERVAL)
      && po.dbPort == (if LastNumber(opts, DbPortKey, 0) == 0 then DEFAULT_DB_PORT else LastNumber(opts, DbPortKey, 0))
      && po.cardId == LastNumber(opts, CardIdKey, 0) && po.forceSectors == LastNumber(opts, SectorsKey, 0)
      && po.noCurses == HasFlag(opts, NoCursesKey) && po.origNoCurses == HasFlag(opts, NoCursesKey)
      && po.dontShowWarningMessage == HasFlag(opts, DontShowWarningKey)
      && !po.probeForOptimalBlockSize
  {
    r, po := ApplyOptions(opts);
    if r != 0 {
      return;
    }
    assert !(CountText(opts, LogFileKey) >= 2 || CountText(opts, StatsFileKey) >= 2 || CountText(opts, StateFileKey) >= 2)
      by { assert SingleUse(LogFileKey) && SingleUse(StatsFileKey) && SingleUse(StateFileKey); }
    ghost var afterOptions := po;
    var c := 0;
    while c < |operands|
      invariant c <= |operands| && c <= 1
      invariant po.deviceName == (if c == 1 then Some(operands[0]) else None)
      invariant po == afterOptions.(deviceName := po.deviceName)
    {
      if po.deviceName.Some? {
        return -1, po;
      }
      po := po.(deviceName := Some(operands[c]));
      c := c + 1;
    }
    LastTextOfCount(opts, StateFileKey);
    if po.deviceName.None? && po.stateFile.None? {
      return -1, po;
    }
    if po.lockFile.None? {
      po := po.(lockFile := Some(DEFAULT_LOCK_FILE));
    }
    if po.dbPort == 0 {
      po := po.(dbPort := DEFAULT_DB_PORT);
    }
    return 0, po;
  }
}
