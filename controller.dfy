/**
 * The selection and parsing logic of `controller/controller.py`.  What the
 * controller reads from the outside world arrives as parameters: the
 * command line, the output of `pidof server`, the contents of
 * `/proc/<pid>/cmdline`, the list `json.load` returns, whether `insmod`
 * succeeds, and from which variant on the module's sysfs parameters are
 * gone.
 */
module Controller {
  import opened Wrappers
  import opened Ints
  import opened Metadata
  import Text

  // ---------------------------------------------------------------------
  // load_fs_metadata
  // ---------------------------------------------------------------------

  /** The entries `load_fs_metadata` keeps: category "file" and a truthy name. */
  predicate Kept(e: Entry) {
    e.category == Some("file") && Truthy(e.name)
  }

  /** The index `load_fs_metadata` builds: each kept entry under its name, a later one replacing an earlier one. */
  function IndexByName(data: seq<Entry>): map<string, Entry>
    decreases |data|
  {
    if |data| == 0 then map[]
    else
      var init := IndexByName(data[..|data| - 1]);
      var e := data[|data| - 1];
      if Kept(e) then init[e.name.value := e] else init
  }

  /** A name is indexed exactly when some kept entry carries it. */
  lemma {:induction false} IndexKeys(data: seq<Entry>, n: string)
    ensures n in IndexByName(data) <==> exists j :: 0 <= j < |data| && Kept(data[j]) && data[j].name == Some(n)
    decreases |data|
  {
    if |data| > 0 {
      var init := data[..|data| - 1];
      IndexKeys(init, n);
      assert forall j :: 0 <= j < |init| ==> init[j] == data[j];
      if n in IndexByName(data) && n !in IndexByName(init) {
        assert Kept(data[|data| - 1]) && data[|data| - 1].name == Some(n);
      }
    }
  }

  /** The entry filed under a name is the last kept entry carrying it. */
  lemma {:induction false} IndexLastWins(data: seq<Entry>, j: nat)
    requires j < |data| && Kept(data[j])
    requires forall k :: j < k < |data| ==> !(Kept(data[k]) && data[k].name == data[j].name)
    ensures data[j].name.value in IndexByName(data) && IndexByName(data)[data[j].name.value] == data[j]
    decreases |data|
  {
    if j < |data| - 1 {
      var init := data[..|data| - 1];
      assert init[j] == data[j];
      IndexLastWins(init, j);
    }
  }

  /** `load_fs_metadata`, given the list `json.load` produced. */
  method LoadFsMetadata(data: seq<Entry>) returns (byName: map<string, Entry>)
    ensures byName == IndexByName(data)
    // every filed entry is kept and filed under its own name
    ensures forall n :: n in byName ==> Kept(byName[n]) && byName[n].name == Some(n)
  {
    byName := map[];
    for i := 0 to |data|
      invariant byName == IndexByName(data[..i])
      invariant forall n :: n in byName ==> Kept(byName[n]) && byName[n].name == Some(n)
    {
      var entry := data[i];
      assert data[..i + 1][..i] == data[..i];
      if entry.category != Some("file") {
        continue;
      }
      var name := entry.name;
      if !Truthy(name) {
        continue;
      }
      byName := byName[name.value := entry];
    }
    assert data[..|data|] == data;
  }

  // ---------------------------------------------------------------------
  // find_server_pid_explicit and find_server_pid_auto
  // ---------------------------------------------------------------------

  const PidPrefix: string := "--pid="

  /** What `find_server_pid_explicit` ends with: no `--pid=` argument, a pid, or `sys.exit(1)` on a bad value. */
  datatype PidArg = NoPidArg | PidValue(pid: int) | InvalidPid

  function PidOfText(t: string): (r: PidArg)
    ensures r != NoPidArg
  {
    match Text.ParseInt(t)
    case Some(p) => PidValue(p)
    case None => InvalidPid
  }

  /** A `--pid=` value printed by `str(n)` names `n` exactly when `int()` accepts that many digits. */
  lemma PidOfIntToString(n: int)
    ensures PidOfText(Text.IntToString(n)) == if Text.WithinDigitLimit(n) then PidValue(n) else InvalidPid
  {
    Text.ParseIntOfIntToString(n);
  }

  /** The pid named by the first of `args` (that is, `sys.argv[1:]`) that starts with `--pid=`. */
  function ExplicitPid(args: seq<string>): (r: PidArg)
    ensures r == NoPidArg <==> forall i :: 0 <= i < |args| ==> !Text.StartsWith(args[i], PidPrefix)
  {
    if |args| == 0 then NoPidArg
    else if Text.StartsWith(args[0], PidPrefix) then
      Text.AfterFirstPrefix(args[0], PidPrefix, '=');
      PidOfText(Text.AfterFirst(args[0], '='))
    else
      var r := ExplicitPid(args[1..]);
      assert forall i :: 1 <= i < |args| ==> args[1..][i - 1] == args[i];
      r
  }

  /** The first `--pid=` argument decides, by the text after its `=`. */
  lemma {:induction false} ExplicitPidFirst(args: seq<string>, i: nat)
    requires i < |args| && Text.StartsWith(args[i], PidPrefix)
    requires forall j :: 0 <= j < i ==> !Text.StartsWith(args[j], PidPrefix)
    ensures ExplicitPid(args) == PidOfText(args[i][|PidPrefix|..])
  {
    if i == 0 {
      Text.AfterFirstPrefix(args[0], PidPrefix, '=');
    } else {
      assert args[1..][i - 1] == args[i];
      assert forall j :: 0 <= j < i - 1 ==> args[1..][j] == args[j + 1];
      ExplicitPidFirst(args[1..], i - 1);
    }
  }

  /** `find_server_pid_explicit` over `args`, that is `sys.argv[1:]`. */
  method FindServerPidExplicit(args: seq<string>) returns (r: PidArg)
    ensures r == ExplicitPid(args)
    ensures r == NoPidArg <==> forall i :: 0 <= i < |args| ==> !Text.StartsWith(args[i], PidPrefix)
  {
    for i := 0 to |args|
      invariant forall j :: 0 <= j < i ==> !Text.StartsWith(args[j], PidPrefix)
    {
      var arg := args[i];
      if Text.StartsWith(arg, PidPrefix) {
        Text.AfterFirstPrefix(arg, PidPrefix, '=');
        ExplicitPidFirst(args, i);
        return PidOfText(Text.AfterFirst(arg, '='));
      }
    }
    return NoPidArg;
  }

  /** What `find_server_pid_auto` ends with; `BadPidofOutput` is the uncaught `ValueError` of `int()`. */
  datatype AutoPid = NoServer | ServerPid(pid: int) | BadPidofOutput

  /** `[int(p) for p in words]`, or `None` when one of them raises. */
  function ParseAll(words: seq<string>): Option<seq<int>> {
    if forall k :: 0 <= k < |words| ==> Text.ParseInt(words[k]).Some? then
      Some(seq(|words|, k requires 0 <= k < |words| => Text.ParseInt(words[k]).value))
    else None
  }

  /** Python's `max` of a non-empty list. */
  function MaxOf(xs: seq<int>): (m: int)
    requires |xs| > 0
    ensures m in xs && forall x :: x in xs ==> x <= m
  {
    if |xs| == 1 then xs[0]
    else
      var rest := MaxOf(xs[1..]);
      assert forall x :: x in xs ==> x == xs[0] || x in xs[1..];
      if xs[0] < rest then rest else xs[0]
  }

  /** `find_server_pid_auto`, given `pidof server`'s output (`None` when pidof fails). */
  function FindServerPidAuto(out: Option<string>): (r: AutoPid)
    // no output or whitespace only: no server
    ensures r == NoServer <==> out.None? || Text.AllSpace(out.value)
    // otherwise the largest of the listed pids, if they all parse
    ensures r.ServerPid? ==>
      && out.Some? && ParseAll(Text.Words(Text.Strip(out.value))).Some?
      && r.pid in ParseAll(Text.Words(Text.Strip(out.value))).value
      && forall q :: q in ParseAll(Text.Words(Text.Strip(out.value))).value ==> q <= r.pid
    ensures r == BadPidofOutput ==> out.Some? && ParseAll(Text.Words(Text.Strip(out.value))).None?
  {
    match out
    case None => NoServer
    case Some(o) =>
      var s := Text.Strip(o);
      Text.StripEmpty(o);
      if s == "" then NoServer
      else
        match ParseAll(Text.Words(s))
        case None => BadPidofOutput
        case Some(ps) =>
          assert !Text.AllSpace(s) by {
            assert Text.StripLeading(o) != [] by { assert !Text.AllSpace(o); }
            assert !Text.IsSpace(s[|s| - 1]);
          }
          Text.WordsEmpty(s);
          ServerPid(MaxOf(ps))
  }

  // ---------------------------------------------------------------------
  // read_server_mode_from_cmdline
  // ---------------------------------------------------------------------

  /** `b"--mode="`. */
  const ModeArg: seq<Text.byte> := [0x2d, 0x2d, 0x6d, 0x6f, 0x64, 0x65, 0x3d]

  /** The two `RuntimeError`s: the `/proc` file is gone, or no part carries `--mode=`. */
  datatype CmdlineError = ProcessGone | NoModeArg

  /** The decoded text after `--mode=` in the first part that starts with it. */
  function ModeFromParts(parts: seq<seq<Text.byte>>): (r: Option<string>)
    ensures r.None? <==> forall k :: 0 <= k < |parts| ==> !Text.StartsWith(parts[k], ModeArg)
  {
    if |parts| == 0 then None
    else if Text.StartsWith(parts[0], ModeArg) then Some(Text.Decode(parts[0][|ModeArg|..]))
    else
      var r := ModeFromParts(parts[1..]);
      assert forall k :: 1 <= k < |parts| ==> parts[1..][k - 1] == parts[k];
      r
  }

  /** The first part that starts with `--mode=` decides. */
  lemma {:induction false} ModeFromPartsFirst(parts: seq<seq<Text.byte>>, i: nat)
    requires i < |parts| && Text.StartsWith(parts[i], ModeArg)
    requires forall j :: 0 <= j < i ==> !Text.StartsWith(parts[j], ModeArg)
    ensures ModeFromParts(parts) == Some(Text.Decode(parts[i][|ModeArg|..]))
  {
    if i > 0 {
      assert parts[1..][i - 1] == parts[i];
      assert forall j :: 0 <= j < i - 1 ==> parts[1..][j] == parts[j + 1];
      ModeFromPartsFirst(parts[1..], i - 1);
    }
  }

  /** The mode `read_server_mode_from_cmdline` finds in the bytes of a cmdline file. */
  function ModeFromCmdline(raw: seq<Text.byte>): Option<string> {
    ModeFromParts(Text.SplitOn(raw, 0))
  }

  /** `read_server_mode_from_cmdline`, given the file's bytes (`None` when it cannot be opened). */
  method ReadServerModeFromCmdline(raw: Option<seq<Text.byte>>) returns (r: Result<string, CmdlineError>)
    ensures raw.None? ==> r == Err(ProcessGone)
    ensures raw.Some? && ModeFromCmdline(raw.value).Some? ==> r == Ok(ModeFromCmdline(raw.value).value)
    ensures raw.Some? && ModeFromCmdline(raw.value).None? ==> r == Err(NoModeArg)
  {
    if raw.None? {
      return Err(ProcessGone);
    }
    var parts := Text.SplitOn(raw.value, 0);
    for i := 0 to |parts|
      invariant forall j :: 0 <= j < i ==> !Text.StartsWith(parts[j], ModeArg)
    {
      var part := parts[i];
      if Text.StartsWith(part, ModeArg) {
        ModeFromPartsFirst(parts, i);
        return Ok(Text.Decode(part[|ModeArg|..]));
      }
    }
    return Err(NoModeArg);
  }

  // ---------------------------------------------------------------------
  // The decisions of main
  // ---------------------------------------------------------------------

  /** `entry.get("symbol_to_probe") or entry.get("canonical_guess")`. */
  function ChooseSymbol(e: Entry): (s: Option<string>)
    // the explicit override wins when it is truthy; otherwise the canonical guess is used
    ensures Truthy(e.symbolToProbe) ==> s == e.symbolToProbe
    ensures !Truthy(e.symbolToProbe) ==> s == e.canonicalGuess
    // so a usable symbol exists exactly when one of the two is truthy
    ensures Truthy(s) <==> Truthy(e.symbolToProbe) || Truthy(e.canonicalGuess)
  {
    if Truthy(e.symbolToProbe) then e.symbolToProbe else e.canonicalGuess
  }

  /** A variant the loop of `main` acts on: `errno_num` present and positive. */
  predicate Usable(v: Variant) {
    v.errnoNum.Some? && v.errnoNum.value > 0
  }

  /** The errno numbers the loop writes for `vs` when nothing stops it: the usable ones, in order. */
  function UsableErrnos(vs: seq<Variant>): (ns: seq<int>)
    ensures |ns| <= |vs|
    ensures forall k :: 0 <= k < |ns| ==> ns[k] > 0
    ensures ns == [] <==> forall k :: 0 <= k < |vs| ==> !Usable(vs[k])
  {
    if |vs| == 0 then []
    else
      var init := UsableErrnos(vs[..|vs| - 1]);
      var v := vs[|vs| - 1];
      assert forall k :: 0 <= k < |vs| - 1 ==> vs[..|vs| - 1][k] == vs[k];
      if Usable(v) then init + [v.errnoNum.value] else init
  }

  /** The numbers written for two runs of variants, one after the other, are those of each run, in order. */
  lemma {:induction false} UsableErrnosConcat(a: seq<Variant>, b: seq<Variant>)
    ensures UsableErrnos(a + b) == UsableErrnos(a) + UsableErrnos(b)
    decreases |b|
  {
    if |b| > 0 {
      var b0 := b[..|b| - 1];
      assert (a + b)[..|a + b| - 1] == a + b0;
      UsableErrnosConcat(a, b0);
    } else {
      assert a + b == a;
    }
  }

  /** A single variant contributes its number exactly when it is usable. */
  lemma UsableErrnosOne(v: Variant)
    ensures UsableErrnos([v]) == if Usable(v) then [v.errnoNum.value] else []
  {
    assert [v][..0] == [];
  }

  /**
   * The loop of `main` over the variants.  `goneFrom` is the first variant
   * index at which reading `injections_done` fails; writing `inject_errno`
   * succeeds whenever that read did.  Whether the wait sees an injection or
   * times out only changes what is printed.
   */
  method InjectVariants(variants: seq<Variant>, goneFrom: nat) returns (written: seq<int>, readFailed: bool)
    // the errnos written are the usable ones before the parameters vanished, in order, all positive
    ensures written == UsableErrnos(variants[..Min(goneFrom, |variants|)])
    ensures forall k :: 0 <= k < |written| ==> written[k] > 0
    // the loop breaks exactly when a usable variant comes after the parameters are gone
    ensures readFailed <==> exists k :: goneFrom <= k < |variants| && Usable(variants[k])
  {
    written, readFailed := [], false;
    var idx := 0;
    while idx < |variants|
      invariant 0 <= idx <= |variants|
      invariant written == UsableErrnos(variants[..Min(idx, goneFrom)])
      invariant forall k :: goneFrom <= k < idx ==> !Usable(variants[k])
    {
      assert variants[..idx + 1][..idx] == variants[..idx];
      var ev := variants[idx];
      var errnoNum := ev.errnoNum;
      if errnoNum.None? || errnoNum.value <= 0 {
        idx := idx + 1;
        continue;
      }
      if idx >= goneFrom {
        readFailed := true;
        break;
      }
      written := written + [errnoNum.value];
      idx := idx + 1;
    }
    if !readFailed {
      assert Min(idx, goneFrom) == Min(goneFrom, |variants|);
    } else {
      assert written == UsableErrnos(variants[..Min(goneFrom, |variants|)]);
    }
  }

  /** What `write_param` writes to a sysfs parameter file. */
  function ParamText(value: int): string {
    Text.IntToString(value) + "\n"
  }

  /** What `read_param` makes of a parameter file's text: `int(text.strip())`. */
  function ReadParam(text: string): Option<int> {
    Text.ParseInt(Text.Strip(text))
  }

  /**
   * A value written by `write_param`, and printed back the same way, is read
   * back unchanged, as long as `int()` accepts that many digits.
   */
  lemma ReadParamOfParamText(value: int)
    ensures ReadParam(ParamText(value)) == if Text.WithinDigitLimit(value) then Some(value) else None
  {
    Text.IntToStringNoSpace(value);
    Text.StripTrailingSpace(Text.IntToString(value), '\n');
    Text.ParseIntOfIntToString(value);
  }

  /** The parameters `insmod_module` passes to the module. */
  datatype Insmod = Insmod(targetSymbol: string, targetPid: int, injectErrno: int, maxInjections: int, unsafeMode: int)

  /**
   * How `main` ends: `sys.exit(status)`, an uncaught exception, or the end
   * of the variant loop (after which the module is removed).
   */
  datatype Outcome =
    | Exit(status: int)
    | Crash
    | Done(pid: int, mode: string, symbol: string, insmod: Insmod, written: seq<int>, readFailed: bool)

  /** The pid `main` settles on: a valid `--pid=` value, else the one `pidof` gives. */
  function ChosenPid(args: seq<string>, pidofOut: Option<string>): Option<int> {
    match ExplicitPid(args)
    case PidValue(p) => Some(p)
    case InvalidPid => None
    case NoPidArg =>
      match FindServerPidAuto(pidofOut)
      case ServerPid(p) => Some(p)
      case _ => None
  }

  /** The mode `read_server_mode_from_cmdline(pid)` returns; `None` when it raises. */
  function ServerMode(cmdlineOf: map<int, seq<Text.byte>>, pid: int): Option<string> {
    if pid in cmdlineOf then ModeFromCmdline(cmdlineOf[pid]) else None
  }

  /** The metadata entry `main` acts on, when it gets that far. */
  function ChosenEntry(args: seq<string>, pidofOut: Option<string>, cmdlineOf: map<int, seq<Text.byte>>,
                       data: seq<Entry>): Option<Entry>
  {
    var pid := ChosenPid(args, pidofOut);
    if pid.None? then None
    else
      var mode := ServerMode(cmdlineOf, pid.value);
      if mode.None? || mode.value !in IndexByName(data) then None
      else Some(IndexByName(data)[mode.value])
  }

  /** `entry.get("error_variants") or []`. */
  function VariantsOf(e: Entry): seq<Variant> {
    if e.errorVariants.Some? then e.errorVariants.value else []
  }

  /** `main`.  `cmdlineOf` holds `/proc/<pid>/cmdline` for the pids whose file can be read. */
  method Control(argv: seq<string>, pidofOut: Option<string>, cmdlineOf: map<int, seq<Text.byte>>,
                 data: seq<Entry>, insmodOk: bool, goneFrom: nat) returns (o: Outcome)
    requires |argv| >= 1
    // a bad --pid= value, or no server found, ends with status 1
    ensures ExplicitPid(argv[1..]) == InvalidPid ==> o == Exit(1)
    ensures ExplicitPid(argv[1..]) == NoPidArg && FindServerPidAuto(pidofOut) == NoServer ==> o == Exit(1)
    ensures ExplicitPid(argv[1..]) == NoPidArg && FindServerPidAuto(pidofOut) == BadPidofOutput ==> o == Crash
    // an explicit pid wins over pidof
    ensures o.Done? && ExplicitPid(argv[1..]).PidValue? ==> o.pid == ExplicitPid(argv[1..]).pid
    ensures o.Done? && !ExplicitPid(argv[1..]).PidValue? ==> FindServerPidAuto(pidofOut) == ServerPid(o.pid)
    // the mode is read from that pid's cmdline and has a metadata entry
    ensures o.Done? ==> o.pid in cmdlineOf && ModeFromCmdline(cmdlineOf[o.pid]) == Some(o.mode)
    ensures o.Done? ==> o.mode in IndexByName(data)
    // the hooked symbol is the entry's truthy choice, and the module is loaded with it and the pid
    ensures o.Done? ==> ChooseSymbol(IndexByName(data)[o.mode]) == Some(o.symbol) && o.symbol != ""
    ensures o.Done? ==> insmodOk && o.insmod == Insmod(o.symbol, o.pid, 1, 1000, 1)
    // only positive errnos are written, those of the entry's usable variants in order
    ensures o.Done? ==>
      var vs := IndexByName(data)[o.mode].errorVariants;
      && vs.Some? && |vs.value| > 0
      && o.written == UsableErrnos(vs.value[..Min(goneFrom, |vs.value|)])
    ensures o.Done? ==> forall k :: 0 <= k < |o.written| ==> o.written[k] > 0
    // the loop stops early exactly when a usable variant comes after the parameters vanished
    ensures o.Done? ==>
      var vs := IndexByName(data)[o.mode].errorVariants.value;
      o.readFailed <==> exists k :: goneFrom <= k < |vs| && Usable(vs[k])
    // every other way out is an exit with status 1, except an empty variant list, which exits with 0
    ensures o.Exit? ==> o.status == 0 || o.status == 1
    // the only uncaught exception is the ValueError of unparsable pidof output
    ensures o == Crash <==> ExplicitPid(argv[1..]) == NoPidArg && FindServerPidAuto(pidofOut) == BadPidofOutput
    // a vanished /proc file or a cmdline without --mode= ends with status 1
    ensures var pid := ChosenPid(argv[1..], pidofOut);
      pid.Some? && ServerMode(cmdlineOf, pid.value).None? ==> o == Exit(1)
    // so does a mode with no metadata entry
    ensures var pid := ChosenPid(argv[1..], pidofOut);
      pid.Some? && ServerMode(cmdlineOf, pid.value).Some? && ServerMode(cmdlineOf, pid.value).value !in IndexByName(data)
      ==> o == Exit(1)
    // then an entry with no truthy symbol, or an insmod that fails, ends with status 1
    ensures var e := ChosenEntry(argv[1..], pidofOut, cmdlineOf, data);
      e.Some? && !Truthy(ChooseSymbol(e.value)) ==> o == Exit(1)
    ensures var e := ChosenEntry(argv[1..], pidofOut, cmdlineOf, data);
      e.Some? && Truthy(ChooseSymbol(e.value)) && VariantsOf(e.value) != [] && !insmodOk ==> o == Exit(1)
    // status 0 exactly when the entry with a truthy symbol has no variants
    ensures var e := ChosenEntry(argv[1..], pidofOut, cmdlineOf, data);
      o == Exit(0) <==> e.Some? && Truthy(ChooseSymbol(e.value)) && VariantsOf(e.value) == []
    // and the loop runs exactly when the entry has a truthy symbol, some variants, and insmod succeeds
    ensures var e := ChosenEntry(argv[1..], pidofOut, cmdlineOf, data);
      o.Done? <==> e.Some? && Truthy(ChooseSymbol(e.value)) && VariantsOf(e.value) != [] && insmodOk
    ensures o.Done? ==> ChosenPid(argv[1..], pidofOut) == Some(o.pid) && ServerMode(cmdlineOf, o.pid) == Some(o.mode)
  {
    var args := argv[1..];
    var explicit := FindServerPidExplicit(args);
    var pid: int;
    match explicit {
      case InvalidPid =>
        return Exit(1);
      case PidValue(p) =>
        pid := p;
      case NoPidArg =>
        match FindServerPidAuto(pidofOut) {
          case NoServer => return Exit(1);
          case BadPidofOutput => return Crash;
          case ServerPid(p) => pid := p;
        }
    }
    assert ChosenPid(args, pidofOut) == Some(pid);

    var modeOrError := ReadServerModeFromCmdline(if pid in cmdlineOf then Some(cmdlineOf[pid]) else None);
    if modeOrError.Err? {
      assert ServerMode(cmdlineOf, pid).None?;
      return Exit(1);
    }
    var mode := modeOrError.value;
    assert ServerMode(cmdlineOf, pid) == Some(mode);

    var fsMeta := LoadFsMetadata(data);
    if mode !in fsMeta {
      return Exit(1);
    }
    var entry := fsMeta[mode];
    assert ChosenEntry(args, pidofOut, cmdlineOf, data) == Some(entry);
    var symbol := ChooseSymbol(entry);
    if !Truthy(symbol) {
      return Exit(1);
    }
    var variants := VariantsOf(entry);
    if variants == [] {
      return Exit(0);
    }
    if !insmodOk {
      return Exit(1);
    }
    var insmod := Insmod(symbol.value, pid, 1, 1000, 1);
    var written, readFailed := InjectVariants(variants, goneFrom);
    return Done(pid, mode, symbol.value, insmod, written, readFailed);
  }
}
