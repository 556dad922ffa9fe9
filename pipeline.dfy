/**
 * How the four programs fit together: the entries `generate_fs_json.py`
 * writes cover every mode `server` accepts; the controller reads the mode
 * back from the server's `/proc/<pid>/cmdline`, finds its entry and the
 * expected entry point; the errno numbers it writes are those of the
 * generated variants; and the module, loaded with the controller's
 * parameters, overrides the server's calls with them.
 */
module Pipeline {
  import opened Wrappers
  import opened Metadata
  import Text
  import Server
  import Generator
  import Controller
  import FsInjector
  import Ints

  // ---------------------------------------------------------------------
  // The server's command line as the controller reads it
  // ---------------------------------------------------------------------

  /** The bytes of `/proc/<pid>/cmdline` for a process started with `args`: each argument followed by a NUL. */
  function ProcCmdline(args: seq<string>): seq<Text.byte>
    requires forall k :: 0 <= k < |args| ==> Text.IsAscii(args[k])
  {
    if |args| == 0 then []
    else Text.Encode(args[0]) + [0] + ProcCmdline(args[1..])
  }

  lemma EncodeNoNul(s: string)
    requires Text.IsAscii(s) && '\0' !in s
    ensures 0 !in Text.Encode(s)
  {
    assert forall i :: 0 <= i < |s| ==> s[i] != '\0';
  }

  /** Encoding ASCII text keeps and reflects prefixes. */
  lemma EncodeStartsWith(s: string, p: string)
    requires Text.IsAscii(s) && Text.IsAscii(p)
    ensures Text.StartsWith(Text.Encode(s), Text.Encode(p)) <==> Text.StartsWith(s, p)
  {
    if |p| <= |s| {
      if Text.StartsWith(s, p) {
        forall i | 0 <= i < |p|
          ensures Text.Encode(s)[i] == Text.Encode(p)[i]
        {
          assert s[i] == s[..|p|][i];
        }
        assert Text.Encode(s)[..|p|] == Text.Encode(p);
      }
      if Text.StartsWith(Text.Encode(s), Text.Encode(p)) {
        forall i | 0 <= i < |p|
          ensures s[i] == p[i]
        {
          assert Text.Encode(s)[i] == Text.Encode(s)[..|p|][i];
        }
        assert s[..|p|] == p;
      }
    }
  }

  lemma EncodeSuffix(s: string, n: nat)
    requires Text.IsAscii(s) && n <= |s|
    ensures Text.IsAscii(s[n..]) && Text.Encode(s)[n..] == Text.Encode(s[n..])
  {
  }

  /** The separator the controller looks for is the server's `--mode=` in bytes. */
  lemma ModeArgEncoded()
    ensures Text.IsAscii(Server.ModePrefix) && Text.Encode(Server.ModePrefix) == Controller.ModeArg
  {
  }

  /** The first two NUL-separated parts of the cmdline are the first two arguments. */
  lemma CmdlineParts(argv: seq<string>)
    requires |argv| >= 2
    requires forall k :: 0 <= k < |argv| ==> Text.IsAscii(argv[k]) && '\0' !in argv[k]
    ensures var parts := Text.SplitOn(ProcCmdline(argv), 0);
      |parts| >= 2 && parts[0] == Text.Encode(argv[0]) && parts[1] == Text.Encode(argv[1])
  {
    var a0, a1 := Text.Encode(argv[0]), Text.Encode(argv[1]);
    assert argv[1..][0] == argv[1] && argv[1..][1..] == argv[2..];
    var rest := ProcCmdline(argv[2..]);
    assert ProcCmdline(argv) == a0 + [0] + (a1 + [0] + rest);
    EncodeNoNul(argv[0]);
    EncodeNoNul(argv[1]);
    Text.SplitOnAppend(a0, 0, a1 + [0] + rest);
    Text.SplitOnAppend(a1, 0, rest);
  }

  /** An argument's bytes start with `--mode=` exactly when the argument does, and then decode to what follows it. */
  lemma ModeArgOfEncoded(a: string)
    requires Text.IsAscii(a)
    ensures Text.StartsWith(Text.Encode(a), Controller.ModeArg) <==> Text.StartsWith(a, Server.ModePrefix)
    ensures Text.StartsWith(a, Server.ModePrefix) ==>
      Text.Decode(Text.Encode(a)[|Controller.ModeArg|..]) == a[|Server.ModePrefix|..]
  {
    ModeArgEncoded();
    EncodeStartsWith(a, Server.ModePrefix);
    if Text.StartsWith(a, Server.ModePrefix) {
      EncodeSuffix(a, |Server.ModePrefix|);
      Text.DecodeEncode(a[|Server.ModePrefix|..]);
    }
  }

  /**
   * Whatever follows `argv[1]`, the controller reads from the cmdline of a
   * server started with `argv` the mode the server took from `argv[1]`.
   */
  lemma ServerModeReadBack(argv: seq<string>)
    requires |argv| >= 2
    requires forall k :: 0 <= k < |argv| ==> Text.IsAscii(argv[k]) && '\0' !in argv[k]
    requires !Text.StartsWith(argv[0], Server.ModePrefix) && Text.StartsWith(argv[1], Server.ModePrefix)
    ensures Controller.ModeFromCmdline(ProcCmdline(argv)) == Some(argv[1][|Server.ModePrefix|..])
  {
    CmdlineParts(argv);
    var parts := Text.SplitOn(ProcCmdline(argv), 0);
    ModeArgOfEncoded(argv[0]);
    ModeArgOfEncoded(argv[1]);
    Controller.ModeFromPartsFirst(parts, 1);
  }

  // ---------------------------------------------------------------------
  // The generated metadata as the controller reads it
  // ---------------------------------------------------------------------

  /**
   * Every mode the server accepts has a generated entry, and the controller
   * resolves it to the expected x86-64 entry point and the shared variants.
   */
  lemma GeneratedMetadataServesMode(variants: seq<Variant>, mode: string)
    requires mode in Server.Modes
    ensures var byName := Controller.IndexByName(Generator.GeneratedEntries(variants));
      && mode in byName
      && Controller.ChooseSymbol(byName[mode]) == Some(Generator.ExpectedSymbol(mode))
      && Truthy(Controller.ChooseSymbol(byName[mode]))
      && byName[mode].errorVariants == Some(variants)
  {
    Generator.ModesMatchServer();
    Server.ModesDistinct();
    var i :| 0 <= i < |Generator.Modes| && Generator.Modes[i] == mode;
    var data := Generator.GeneratedEntries(variants);
    Generator.GeneratedEntryAt(variants, i);
    Generator.SymbolOfMode(i);
    assert forall k :: 0 <= k < |data| ==> data[k].name == Some(Generator.Modes[k]);
    Controller.IndexLastWins(data, i);
  }

  // ---------------------------------------------------------------------
  // The generated variants as the controller's loop writes them
  // ---------------------------------------------------------------------

  /** When every variant is usable, the loop writes the number of each, in order. */
  lemma {:induction false} AllUsable(vs: seq<Variant>)
    requires forall k :: 0 <= k < |vs| ==> Controller.Usable(vs[k])
    ensures |Controller.UsableErrnos(vs)| == |vs|
    ensures forall k :: 0 <= k < |vs| ==> Controller.UsableErrnos(vs)[k] == vs[k].errnoNum.value
    decreases |vs|
  {
    if |vs| > 0 {
      var init := vs[..|vs| - 1];
      assert forall k :: 0 <= k < |init| ==> init[k] == vs[k];
      AllUsable(init);
    }
  }

  /**
   * When every errno number is positive, the loop writes, in order, the
   * number of every name the errno map knows: no generated variant is skipped.
   */
  lemma UsableCandidates(names: seq<string>, errnoOf: map<string, int>)
    requires forall n :: n in errnoOf ==> errnoOf[n] > 0
    ensures var known := Generator.Known(names, errnoOf);
      var ns := Controller.UsableErrnos(Generator.Candidates(names, errnoOf));
      |ns| == |known| && forall k :: 0 <= k < |ns| ==> ns[k] == errnoOf[known[k]]
  {
    var known := Generator.Known(names, errnoOf);
    var vs := Generator.Candidates(names, errnoOf);
    forall k | 0 <= k < |vs|
      ensures known[k] in errnoOf && vs[k].errnoNum == Some(errnoOf[known[k]])
    {
      assert known[k] in known;
    }
    AllUsable(vs);
  }

  // ---------------------------------------------------------------------
  // The module as the controller loads it
  // ---------------------------------------------------------------------

  predicate InInt32(n: int) {
    -0x8000_0000 <= n < 0x8000_0000
  }

  /** The module's parameters after `insmod_module` and a `write_param("inject_errno", errno)`. */
  function ModuleConfig(ins: Controller.Insmod, errno: int): FsInjector.Config
    requires InInt32(ins.targetPid) && InInt32(ins.maxInjections) && InInt32(ins.unsafeMode) && InInt32(errno)
  {
    FsInjector.Config(Some(ins.targetSymbol), ins.targetPid as FsInjector.int32, errno as FsInjector.int32,
                      ins.maxInjections as FsInjector.int32, ins.unsafeMode as FsInjector.int32)
  }

  /** The configuration the controller gives the module for the server `pid` and a written `errno`. */
  function ControllerConfig(symbol: string, pid: int, errno: int): FsInjector.Config
    requires InInt32(pid) && InInt32(errno)
  {
    ModuleConfig(Controller.Insmod(symbol, pid, 1, 1000, 1), errno)
  }

  /**
   * Loaded by the controller (unsafe mode, at most 1000 injections) with a
   * positive errno written, the module overrides a call of the server's
   * pid with that errno, whatever the call returned, until the limit.
   */
  lemma ControllerModuleOverrides(symbol: string, pid: int, errno: int, done: FsInjector.int32, oldRet: FsInjector.int64)
    requires InInt32(pid) && 0 < errno < 0x8000_0000 && done < 1000
    ensures FsInjector.Decide(ControllerConfig(symbol, pid, errno), done, pid as FsInjector.int32, oldRet)
      == FsInjector.Inject(-(errno as FsInjector.int64))
  {
  }

  /** With a positive pid, every other process is left alone. */
  lemma ControllerModuleSparesOthers(symbol: string, pid: int, errno: int, done: FsInjector.int32,
                                     other: FsInjector.int32, oldRet: FsInjector.int64)
    requires InInt32(pid) && InInt32(errno) && pid > 0 && other as int != pid
    ensures FsInjector.Decide(ControllerConfig(symbol, pid, errno), done, other, oldRet) == FsInjector.Skip(FsInjector.PidFilter)
  {
  }

  /**
   * Over a run of calls by the server, the module overrides one call per
   * injection still allowed, and no more.
   */
  lemma ControllerModuleCount(symbol: string, pid: int, errno: int, c: FsInjector.Counters, calls: seq<FsInjector.Call>)
    requires InInt32(pid) && 0 < errno < 0x8000_0000
    requires FsInjector.Consistent(c) && c.doneAtomic <= 1000
    requires forall k :: 0 <= k < |calls| ==> calls[k].pid as int == pid
    ensures |FsInjector.LoggedIds(ControllerConfig(symbol, pid, errno), c, calls)|
      == Ints.Min(|calls|, 1000 - c.doneAtomic as int)
  {
    var cfg := ControllerConfig(symbol, pid, errno);
    assert forall k :: 0 <= k < |calls| ==> FsInjector.Eligible(cfg, calls[k]);
    FsInjector.EligibleCount(cfg, c, calls);
  }
}
