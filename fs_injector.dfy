/**
 * The kretprobe return-value fault injector of `reader/fs_injector.c`.
 *
 * The module's parameters (`target_symbol`, `target_pid`, `inject_errno`,
 * `max_injections`, `unsafe_mode`) form a `Config`; its three counters
 * (`injections_done_atomic`, the sysfs mirror `injections_done`, and
 * `inj_id`) form `Counters`.  The handler's decision is the pure function
 * `Decide`, one firing is `Fired`, and a sequence of firings is `Run`.
 * `Injector` is the module's global state, with `Init`, `Fire`, `Exit` and
 * the sysfs parameter writes as methods.
 */
module FsInjector {
  import opened Wrappers
  import opened Ints

  /** C `int` (and `pid_t`, `atomic_t`'s counter). */
  newtype int32 = x: int | -0x8000_0000 <= x < 0x8000_0000
  /** C `long` on x86-64, the type of `regs->ax`. */
  newtype int64 = x: int | -0x8000_0000_0000_0000 <= x < 0x8000_0000_0000_0000

  const INT32_MAX: int32 := 0x7fff_ffff
  const EINVAL: int32 := 22

  /** `atomic_inc`: two's-complement wrap-around at the top of `int`. */
  function Inc32(x: int32): (r: int32)
    ensures x < INT32_MAX ==> r as int == x as int + 1
  {
    if x == INT32_MAX then -0x8000_0000 else x + 1
  }

  /** `max(n, 0)`: the number of injections `max_injections` allows. */
  function Max0(n: int32): nat {
    if n > 0 then n as nat else 0
  }

  datatype Config = Config(
    targetSymbol: Option<string>,   // `char *`, `None` for NULL
    targetPid: int32,
    injectErrno: int32,
    maxInjections: int32,
    unsafeMode: int32)

  /** The parameter values the module is compiled with. */
  const DefaultConfig: Config := Config(Some("__x64_sys_readlink"), 0, 13, 1, 1)

  datatype Counters = Counters(doneAtomic: int32, done: int32, injId: int32)

  /** The counters as `ATOMIC_INIT(0)` and `fs_injector_init` leave them. */
  const Reset: Counters := Counters(0, 0, 0)

  /** The relation between the three counters that every firing keeps. */
  predicate Consistent(c: Counters) {
    c.doneAtomic == c.done == c.injId && c.doneAtomic >= 0
  }

  /** The four skip rules of the handler, in the order it tries them. */
  datatype Rule = PidFilter | LimitReached | SafeMode | BadErrno

  datatype Verdict = Skip(rule: Rule) | Inject(newRet: int64)

  /**
   * The handler's decision for a call by `pid` that returned `oldRet`, with
   * `doneAtomic` injections performed so far.
   */
  function Decide(cfg: Config, doneAtomic: int32, pid: int32, oldRet: int64): (v: Verdict)
    // a positive target_pid matches only that pid; zero or negative matches every caller
    ensures v == Skip(PidFilter) <==> cfg.targetPid > 0 && pid != cfg.targetPid
    ensures v == Skip(LimitReached) <==>
      (cfg.targetPid <= 0 || pid == cfg.targetPid) && doneAtomic >= cfg.maxInjections
    ensures v == Skip(SafeMode) <==>
      (cfg.targetPid <= 0 || pid == cfg.targetPid) && doneAtomic < cfg.maxInjections
      && cfg.unsafeMode == 0 && oldRet >= 0
    ensures v == Skip(BadErrno) <==>
      (cfg.targetPid <= 0 || pid == cfg.targetPid) && doneAtomic < cfg.maxInjections
      && (cfg.unsafeMode != 0 || oldRet < 0) && cfg.injectErrno <= 0
    // an override always yields exactly -inject_errno, negative, whatever oldRet was
    ensures v.Inject? ==> v.newRet as int == -(cfg.injectErrno as int) && v.newRet < 0
  {
    if cfg.targetPid > 0 && pid != cfg.targetPid then Skip(PidFilter)
    else if doneAtomic >= cfg.maxInjections then Skip(LimitReached)
    else if cfg.unsafeMode == 0 && oldRet >= 0 then Skip(SafeMode)
    else if cfg.injectErrno <= 0 then Skip(BadErrno)
    else Inject(-(cfg.injectErrno as int64))
  }

  /** What one run of the handler produces: the new `regs->ax`, the counters, and the `inj_id` it logs. */
  datatype Firing = Firing(ret: int64, counters: Counters, loggedId: Option<int32>)

  /** One run of `fs_ret_handler`. */
  function Fired(cfg: Config, c: Counters, pid: int32, oldRet: int64): (f: Firing)
    // a skip changes neither the return value nor any counter, and logs nothing
    ensures Decide(cfg, c.doneAtomic, pid, oldRet).Skip? ==> f == Firing(oldRet, c, None)
    // an override returns -inject_errno, logs the pre-increment id, and bumps each counter by one
    ensures Decide(cfg, c.doneAtomic, pid, oldRet).Inject? ==>
      && f.ret as int == -(cfg.injectErrno as int)
      && f.loggedId == Some(c.injId)
      && (Consistent(c) ==>
            && f.counters.doneAtomic as int == c.doneAtomic as int + 1
            && f.counters.injId as int == c.injId as int + 1)
      && f.counters.done == f.counters.doneAtomic
    // the counters stay consistent and never pass the ceiling by firing
    ensures Consistent(c) ==> Consistent(f.counters)
    ensures Consistent(c) ==> f.counters.doneAtomic as int <= Max(c.doneAtomic as int, Max0(cfg.maxInjections))
  {
    match Decide(cfg, c.doneAtomic, pid, oldRet)
    case Skip(_) => Firing(oldRet, c, None)
    case Inject(newRet) =>
      var atomic := Inc32(c.doneAtomic);
      Firing(newRet, Counters(atomic, atomic, Inc32(c.injId)), Some(c.injId))
  }

  // ---------------------------------------------------------------------
  // Sequential firings
  // ---------------------------------------------------------------------

  /** One call of the probed function: the caller's pid and what the function returned. */
  datatype Call = Call(pid: int32, oldRet: int64)

  /** The counters after the handler has run, one at a time, on each of `calls`. */
  function Run(cfg: Config, c: Counters, calls: seq<Call>): Counters
    decreases |calls|
  {
    if |calls| == 0 then c
    else Run(cfg, Fired(cfg, c, calls[0].pid, calls[0].oldRet).counters, calls[1..])
  }

  /** The `inj_id` values logged while the handler runs on each of `calls`, in order. */
  function LoggedIds(cfg: Config, c: Counters, calls: seq<Call>): seq<int32>
    decreases |calls|
  {
    if |calls| == 0 then []
    else
      var f := Fired(cfg, c, calls[0].pid, calls[0].oldRet);
      (if f.loggedId.Some? then [f.loggedId.value] else []) + LoggedIds(cfg, f.counters, calls[1..])
  }

  /** Every override is counted once and logged once: the counters stay equal and grow by the number of logged ids. */
  lemma {:induction false} RunCounts(cfg: Config, c: Counters, calls: seq<Call>)
    requires Consistent(c)
    ensures Consistent(Run(cfg, c, calls))
    ensures Run(cfg, c, calls).doneAtomic as int == c.doneAtomic as int + |LoggedIds(cfg, c, calls)|
    decreases |calls|
  {
    if |calls| > 0 {
      RunCounts(cfg, Fired(cfg, c, calls[0].pid, calls[0].oldRet).counters, calls[1..]);
    }
  }

  /** With `max_injections` fixed, sequential firings from a count within the ceiling stay within it. */
  lemma {:induction false} RunCeiling(cfg: Config, c: Counters, calls: seq<Call>)
    requires Consistent(c) && c.doneAtomic as int <= Max0(cfg.maxInjections)
    ensures Run(cfg, c, calls).doneAtomic as int <= Max0(cfg.maxInjections)
    decreases |calls|
  {
    if |calls| > 0 {
      RunCeiling(cfg, Fired(cfg, c, calls[0].pid, calls[0].oldRet).counters, calls[1..]);
    }
  }

  /** The logged ids are consecutive, starting from the `inj_id` before the first call. */
  lemma {:induction false} LoggedIdsConsecutive(cfg: Config, c: Counters, calls: seq<Call>)
    requires Consistent(c)
    ensures forall k :: 0 <= k < |LoggedIds(cfg, c, calls)| ==>
      LoggedIds(cfg, c, calls)[k] as int == c.injId as int + k
    decreases |calls|
  {
    if |calls| > 0 {
      var f := Fired(cfg, c, calls[0].pid, calls[0].oldRet);
      LoggedIdsConsecutive(cfg, f.counters, calls[1..]);
      var rest := LoggedIds(cfg, f.counters, calls[1..]);
      if f.loggedId.Some? {
        assert LoggedIds(cfg, c, calls) == [c.injId] + rest;
        assert forall k :: 1 <= k < |rest| + 1 ==> ([c.injId] + rest)[k] == rest[k - 1];
      } else {
        assert LoggedIds(cfg, c, calls) == rest;
      }
    }
  }

  /** After init the logged ids are 0, 1, 2, … and so pairwise distinct. */
  lemma LoggedIdsFromReset(cfg: Config, calls: seq<Call>)
    ensures forall k :: 0 <= k < |LoggedIds(cfg, Reset, calls)| ==> LoggedIds(cfg, Reset, calls)[k] as int == k
    ensures forall j, k :: 0 <= j < k < |LoggedIds(cfg, Reset, calls)| ==>
      LoggedIds(cfg, Reset, calls)[j] != LoggedIds(cfg, Reset, calls)[k]
  {
    LoggedIdsConsecutive(cfg, Reset, calls);
  }

  /** A call that passes the pid filter, the safe-mode rule and the errno rule. */
  predicate Eligible(cfg: Config, call: Call) {
    (cfg.targetPid <= 0 || call.pid == cfg.targetPid)
    && (cfg.unsafeMode != 0 || call.oldRet < 0)
    && cfg.injectErrno > 0
  }

  /**
   * When every call is eligible, the handler overrides calls until the
   * ceiling is reached and none after it: from `done` injections, a further
   * `min(|calls|, max(max_injections, 0) - done)` of them.
   */
  lemma {:induction false} EligibleCount(cfg: Config, c: Counters, calls: seq<Call>)
    requires Consistent(c) && c.doneAtomic as int <= Max0(cfg.maxInjections)
    requires forall k :: 0 <= k < |calls| ==> Eligible(cfg, calls[k])
    ensures |LoggedIds(cfg, c, calls)| == Min(|calls|, Max0(cfg.maxInjections) - c.doneAtomic as int)
    decreases |calls|
  {
    if |calls| > 0 {
      var f := Fired(cfg, c, calls[0].pid, calls[0].oldRet);
      assert Eligible(cfg, calls[0]);
      EligibleCount(cfg, f.counters, calls[1..]);
    }
  }

  /** From the reset counters, eligible calls are overridden exactly `min(N, max(max_injections, 0))` times. */
  lemma EligibleCountFromReset(cfg: Config, calls: seq<Call>)
    requires forall k :: 0 <= k < |calls| ==> Eligible(cfg, calls[k])
    ensures |LoggedIds(cfg, Reset, calls)| == Min(|calls|, Max0(cfg.maxInjections))
    ensures Run(cfg, Reset, calls).doneAtomic as int == Min(|calls|, Max0(cfg.maxInjections))
  {
    EligibleCount(cfg, Reset, calls);
    RunCounts(cfg, Reset, calls);
  }

  /**
   * Loaded with no parameters, the module overrides the first call of any
   * process, whatever it returned, with -EACCES (-13), logged as id 0, and no
   * call after it.
   */
  lemma DefaultsInjectOnce(calls: seq<Call>)
    ensures |calls| > 0 ==> Fired(DefaultConfig, Reset, calls[0].pid, calls[0].oldRet).ret == -13
    ensures LoggedIds(DefaultConfig, Reset, calls) == if |calls| == 0 then [] else [0]
    ensures Run(DefaultConfig, Reset, calls).doneAtomic as int == Min(|calls|, 1)
  {
    var cfg := DefaultConfig;
    assert forall k :: 0 <= k < |calls| ==> Eligible(cfg, calls[k]);
    EligibleCountFromReset(cfg, calls);
    LoggedIdsFromReset(cfg, calls);
  }

  // ---------------------------------------------------------------------
  // The module's global state
  // ---------------------------------------------------------------------

  /** `struct pt_regs`, of which the handler reads and rewrites only `ax`. */
  class Regs {
    var ax: int64

    constructor (ax: int64)
      ensures this.ax == ax
    {
      this.ax := ax;
    }
  }

  /** The module's globals: its parameters, its counters and its `struct kretprobe`. */
  class Injector {
    var targetSymbol: Option<string>
    var targetPid: int32
    var injectErrno: int32
    var maxInjections: int32
    var unsafeMode: int32
    var injectionsDoneAtomic: int32
    var injectionsDone: int32
    var injId: int32
    /** `fs_kretprobe.kp.symbol_name`. */
    var probeSymbol: Option<string>
    /** Whether `fs_kretprobe` is registered. */
    var registered: bool

    function Cfg(): Config
      reads this
    {
      Config(targetSymbol, targetPid, injectErrno, maxInjections, unsafeMode)
    }

    function Ctr(): Counters
      reads this
    {
      Counters(injectionsDoneAtomic, injectionsDone, injId)
    }

    predicate Valid()
      reads this
    {
      Consistent(Ctr())
    }

    /** The count is within what `max_injections` allows. */
    predicate WithinCeiling()
      reads this
    {
      injectionsDoneAtomic as int <= Max0(maxInjections)
    }

    /** The module loaded with the parameter values `cfg`, before `fs_injector_init` runs. */
    constructor (cfg: Config)
      ensures Cfg() == cfg && Ctr() == Reset
      ensures probeSymbol == None && !registered
      ensures Valid() && WithinCeiling()
    {
      targetSymbol := cfg.targetSymbol;
      targetPid := cfg.targetPid;
      injectErrno := cfg.injectErrno;
      maxInjections := cfg.maxInjections;
      unsafeMode := cfg.unsafeMode;
      injectionsDoneAtomic, injectionsDone, injId := 0, 0, 0;
      probeSymbol := None;
      registered := false;
    }

    /**
     * `fs_injector_init`.  `registerResult` is what `register_kretprobe`
     * returns for the probe on `target_symbol`.
     */
    method Init(registerResult: int32) returns (ret: int32)
      requires !registered
      modifies this
      ensures Cfg() == old(Cfg())
      // a NULL or empty symbol, or a non-positive errno, is refused before anything changes
      ensures (targetSymbol == None || targetSymbol == Some("") || injectErrno <= 0) ==>
        ret == -EINVAL && Ctr() == old(Ctr()) && probeSymbol == old(probeSymbol) && !registered
      // otherwise the counters are reset and the probe is set up on target_symbol
      ensures !(targetSymbol == None || targetSymbol == Some("") || injectErrno <= 0) ==>
        && Ctr() == Reset && probeSymbol == targetSymbol
        && (registerResult < 0 ==> ret == registerResult && !registered)
        && (registerResult >= 0 ==> ret == 0 && registered)
      ensures old(Valid()) ==> Valid()
      ensures ret == 0 ==> Valid() && WithinCeiling()
    {
      if targetSymbol == None || targetSymbol == Some("") {
        return -EINVAL;
      }
      if injectErrno <= 0 {
        return -EINVAL;
      }
      injectionsDoneAtomic := 0;
      injId := 0;
      injectionsDone := 0;
      probeSymbol := targetSymbol;
      if registerResult < 0 {
        return registerResult;
      }
      registered := true;
      return 0;
    }

    /** `fs_ret_handler` for a call by `pid`, with the probed function's return value in `regs.ax`. */
    method Fire(pid: int32, regs: Regs) returns (status: int32, loggedId: Option<int32>)
      requires Valid() && registered
      modifies this`injectionsDoneAtomic, this`injectionsDone, this`injId, regs
      ensures Fired(old(Cfg()), old(Ctr()), pid, old(regs.ax)) == Firing(regs.ax, Ctr(), loggedId)
      ensures status == 0
      ensures Cfg() == old(Cfg()) && Valid()
      ensures old(WithinCeiling()) ==> WithinCeiling()
    {
      var oldRet := regs.ax;
      if targetPid > 0 && pid != targetPid {
        return 0, None;
      }
      if injectionsDoneAtomic >= maxInjections {
        return 0, None;
      }
      if unsafeMode == 0 && oldRet >= 0 {
        return 0, None;
      }
      if injectErrno <= 0 {
        return 0, None;
      }
      var newRet := -(injectErrno as int64);
      loggedId := Some(injId);
      regs.ax := newRet;
      injId := Inc32(injId);
      injectionsDoneAtomic := Inc32(injectionsDoneAtomic);
      injectionsDone := injectionsDoneAtomic;
      return 0, loggedId;
    }

    /** `fs_injector_exit`: the probe is unregistered; parameters and counters stay as they are. */
    method Exit()
      requires registered
      modifies this`registered
      ensures !registered
    {
      registered := false;
    }

    /** A write to `/sys/module/fs_injector/parameters/inject_errno`. */
    method SetInjectErrno(v: int32)
      modifies this`injectErrno
      ensures injectErrno == v
      ensures old(WithinCeiling()) ==> WithinCeiling()
    {
      injectErrno := v;
    }

    /** A write to `max_injections`; the ceiling is kept when the limit does not go down. */
    method SetMaxInjections(v: int32)
      modifies this`maxInjections
      ensures maxInjections == v
      ensures old(WithinCeiling()) && v >= old(maxInjections) ==> WithinCeiling()
    {
      maxInjections := v;
    }

    /** A write to `target_pid`. */
    method SetTargetPid(v: int32)
      modifies this`targetPid
      ensures targetPid == v
      ensures old(WithinCeiling()) ==> WithinCeiling()
    {
      targetPid := v;
    }

    /** A write to `unsafe_mode`. */
    method SetUnsafeMode(v: int32)
      modifies this`unsafeMode
      ensures unsafeMode == v
      ensures old(WithinCeiling()) ==> WithinCeiling()
    {
      unsafeMode := v;
    }

    /** A write to `target_symbol`: the parameter changes, the symbol the probe sits on does not. */
    method SetTargetSymbol(v: Option<string>)
      modifies this`targetSymbol
      ensures targetSymbol == v && probeSymbol == old(probeSymbol)
    {
      targetSymbol := v;
    }
  }
}
