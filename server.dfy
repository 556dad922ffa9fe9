/**
 * The test server of `server/server.c`: the table of mode names, the
 * dispatch table of scenario functions that lines up with it, the linear
 * mode lookup, and the argument checks `main` makes before it starts
 * exercising a syscall.
 */
module Server {
  import Text

  // ---------------------------------------------------------------------
  // The `modes` table
  // ---------------------------------------------------------------------

  /*
   * The table is written as five consecutive runs, split by the initial
   * letter of the name (a-c, f, g-m, o-r, s-v); `Modes` is their
   * concatenation, in the table's order.
   */
  const ModesAtoC: seq<string> := [
    "access",
    "chdir",
    "chmod",
    "chown",
    "close",
    "copy_file_range"
  ]

  const ModesF: seq<string> := [
    "faccessat2",
    "fallocate",
    "fchdir",
    "fchmod",
    "fchmodat",
    "fchown",
    "fchownat",
    "fdatasync",
    "fsconfig",
    "fsetxattr",
    "fsmount",
    "fsopen",
    "fspick",
    "fstat",
    "fstatfs",
    "fsync",
    "ftruncate"
  ]

  const ModesGtoM: seq<string> := [
    "getdents",
    "getdents64",
    "lchown",
    "link",
    "linkat",
    "lstat",
    "mkdir",
    "mkdirat",
    "mknod",
    "mknodat",
    "mount",
    "mount_setattr"
  ]

  const ModesOtoR: seq<string> := [
    "open",
    "open_by_handle_at",
    "open_tree",
    "openat",
    "openat2",
    "readahead",
    "readlink",
    "readlinkat",
    "rename",
    "renameat",
    "renameat2",
    "rmdir"
  ]

  const ModesStoV: seq<string> := [
    "sendfile",
    "splice",
    "stat",
    "statfs",
    "statx",
    "symlink",
    "symlinkat",
    "sync",
    "tee",
    "truncate",
    "unlink",
    "unlinkat",
    "utime",
    "utimensat",
    "utimes",
    "vmsplice"
  ]
  /** `modes[]`, in table order. */
  const Modes: seq<string> := ModesAtoC + ModesF + ModesGtoM + ModesOtoR + ModesStoV

  /** `MODE_COUNT`. */
  const ModeCount: nat := |Modes|

  predicate Distinct(s: seq<string>) {
    forall i, j :: 0 <= i < j < |s| ==> s[i] != s[j]
  }

  /** Every name in `s` is non-empty and starts with a letter in `lo..hi`. */
  predicate Initials(s: seq<string>, lo: char, hi: char) {
    forall i :: 0 <= i < |s| ==> |s[i]| > 0 && lo <= s[i][0] <= hi
  }

  lemma DistinctConcat(a: seq<string>, b: seq<string>, loA: char, hiA: char, loB: char, hiB: char)
    requires Distinct(a) && Distinct(b)
    requires Initials(a, loA, hiA) && Initials(b, loB, hiB) && loA <= hiA < loB <= hiB
    ensures Distinct(a + b) && Initials(a + b, loA, hiB)
  {
    assert forall i :: 0 <= i < |a| ==> (a + b)[i] == a[i];
    assert forall i :: |a| <= i < |a + b| ==> (a + b)[i] == b[i - |a|];
    forall i, j | 0 <= i < j < |a + b|
      ensures (a + b)[i] != (a + b)[j]
    {
      if j < |a| {
        assert (a + b)[i] == a[i] && (a + b)[j] == a[j];
      } else if i >= |a| {
        assert (a + b)[i] == b[i - |a|] && (a + b)[j] == b[j - |a|];
      } else {
        assert (a + b)[i][0] == a[i][0] && (a + b)[j][0] == b[j - |a|][0];
      }
    }
  }

  /*
   * Within one run the names are compared a few at a time: `DistinctIn`
   * for the pairs inside a slice of at most six names, `Apart` for the
   * pairs across two such slices.
   */

  predicate DistinctIn(s: seq<string>, lo: nat, hi: nat) {
    lo <= hi <= |s| && forall i, j :: lo <= i < j < hi ==> s[i] != s[j]
  }

  predicate Apart(s: seq<string>, lo1: nat, hi1: nat, lo2: nat, hi2: nat) {
    hi1 <= |s| && hi2 <= |s| && forall i, j :: lo1 <= i < hi1 && lo2 <= j < hi2 ==> s[i] != s[j]
  }

  lemma DistinctInJoin(s: seq<string>, lo: nat, mid: nat, hi: nat)
    requires DistinctIn(s, lo, mid) && DistinctIn(s, mid, hi) && Apart(s, lo, mid, mid, hi)
    ensures DistinctIn(s, lo, hi)
  {
  }

  lemma ApartJoin(s: seq<string>, lo1: nat, mid: nat, hi1: nat, lo2: nat, hi2: nat)
    requires Apart(s, lo1, mid, lo2, hi2) && Apart(s, mid, hi1, lo2, hi2)
    ensures Apart(s, lo1, hi1, lo2, hi2)
  {
  }

  lemma ModesAtoCDistinctIn0()
    ensures DistinctIn(ModesAtoC, 0, 6)
  {
  }

  lemma ModesAtoCInitials()
    ensures Initials(ModesAtoC, 'a', 'c')
  {
  }

  lemma GroupAtoCDistinct()
    ensures Distinct(ModesAtoC) && Initials(ModesAtoC, 'a', 'c')
  {
    ModesAtoCDistinctIn0();
    ModesAtoCInitials();
  }

  lemma ModesFDistinctIn0()
    ensures DistinctIn(ModesF, 0, 6)
  {
  }

  lemma ModesFDistinctIn6()
    ensures DistinctIn(ModesF, 6, 12)
  {
  }

  lemma ModesFDistinctIn12()
    ensures DistinctIn(ModesF, 12, 17)
  {
  }

  lemma ModesFApart0And6()
    ensures Apart(ModesF, 0, 6, 6, 12)
  {
  }

  lemma ModesFApart0And12()
    ensures Apart(ModesF, 0, 6, 12, 17)
  {
  }

  lemma ModesFApart6And12()
    ensures Apart(ModesF, 6, 12, 12, 17)
  {
  }

  lemma ModesFInitials()
    ensures Initials(ModesF, 'f', 'f')
  {
  }

  lemma GroupFDistinct()
    ensures Distinct(ModesF) && Initials(ModesF, 'f', 'f')
  {
    ModesFDistinctIn0();
    ModesFDistinctIn6();
    ModesFDistinctIn12();
    ModesFApart0And6();
    ModesFApart0And12();
    ModesFApart6And12();
    DistinctInJoin(ModesF, 0, 6, 12);
    ApartJoin(ModesF, 0, 6, 12, 12, 17);
    DistinctInJoin(ModesF, 0, 12, 17);
    ModesFInitials();
  }

  lemma ModesGtoMDistinctIn0()
    ensures DistinctIn(ModesGtoM, 0, 6)
  {
  }

  lemma ModesGtoMDistinctIn6()
    ensures DistinctIn(ModesGtoM, 6, 12)
  {
  }

  lemma ModesGtoMApart0And6()
    ensures Apart(ModesGtoM, 0, 6, 6, 12)
  {
  }

  lemma ModesGtoMInitials()
    ensures Initials(ModesGtoM, 'g', 'm')
  {
  }

  lemma GroupGtoMDistinct()
    ensures Distinct(ModesGtoM) && Initials(ModesGtoM, 'g', 'm')
  {
    ModesGtoMDistinctIn0();
    ModesGtoMDistinctIn6();
    ModesGtoMApart0And6();
    DistinctInJoin(ModesGtoM, 0, 6, 12);
    ModesGtoMInitials();
  }

  lemma ModesOtoRDistinctIn0()
    ensures DistinctIn(ModesOtoR, 0, 6)
  {
  }

  lemma ModesOtoRDistinctIn6()
    ensures DistinctIn(ModesOtoR, 6, 12)
  {
  }

  lemma ModesOtoRApart0And6()
    ensures Apart(ModesOtoR, 0, 6, 6, 12)
  {
  }

  lemma ModesOtoRInitials()
    ensures Initials(ModesOtoR, 'o', 'r')
  {
  }

  lemma GroupOtoRDistinct()
    ensures Distinct(ModesOtoR) && Initials(ModesOtoR, 'o', 'r')
  {
    ModesOtoRDistinctIn0();
    ModesOtoRDistinctIn6();
    ModesOtoRApart0And6();
    DistinctInJoin(ModesOtoR, 0, 6, 12);
    ModesOtoRInitials();
  }

  lemma ModesStoVDistinctIn0()
    ensures DistinctIn(ModesStoV, 0, 6)
  {
  }

  lemma ModesStoVDistinctIn6()
    ensures DistinctIn(ModesStoV, 6, 12)
  {
  }

  lemma ModesStoVDistinctIn12()
    ensures DistinctIn(ModesStoV, 12, 16)
  {
  }

  lemma ModesStoVApart0And6()
    ensures Apart(ModesStoV, 0, 6, 6, 12)
  {
  }

  lemma ModesStoVApart0And12()
    ensures Apart(ModesStoV, 0, 6, 12, 16)
  {
  }

  lemma ModesStoVApart6And12()
    ensures Apart(ModesStoV, 6, 12, 12, 16)
  {
  }

  lemma ModesStoVInitials()
    ensures Initials(ModesStoV, 's', 'v')
  {
  }

  lemma GroupStoVDistinct()
    ensures Distinct(ModesStoV) && Initials(ModesStoV, 's', 'v')
  {
    ModesStoVDistinctIn0();
    ModesStoVDistinctIn6();
    ModesStoVDistinctIn12();
    ModesStoVApart0And6();
    ModesStoVApart0And12();
    ModesStoVApart6And12();
    DistinctInJoin(ModesStoV, 0, 6, 12);
    ApartJoin(ModesStoV, 0, 6, 12, 12, 16);
    DistinctInJoin(ModesStoV, 0, 12, 16);
    ModesStoVInitials();
  }

  /** The mode names are pairwise distinct, so a name identifies its table index. */
  lemma ModesDistinct()
    ensures Distinct(Modes)
    ensures forall i :: 0 <= i < |Modes| ==> |Modes[i]| > 0
  {
    GroupAtoCDistinct();
    GroupFDistinct();
    GroupGtoMDistinct();
    GroupOtoRDistinct();
    GroupStoVDistinct();
    DistinctConcat(ModesAtoC, ModesF, 'a', 'c', 'f', 'f');
    DistinctConcat(ModesAtoC + ModesF, ModesGtoM, 'a', 'f', 'g', 'm');
    DistinctConcat(ModesAtoC + ModesF + ModesGtoM, ModesOtoR, 'a', 'm', 'o', 'r');
    DistinctConcat(ModesAtoC + ModesF + ModesGtoM + ModesOtoR, ModesStoV, 'a', 'r', 's', 'v');
  }

  // ---------------------------------------------------------------------
  // The `dispatch` table
  // ---------------------------------------------------------------------

  /**
   * A pointer to one of the scenario functions, identified by the syscall it
   * exercises: `ScenarioFn("chmod")` is `sc_chmod`.
   */
  datatype ScenarioFn = ScenarioFn(syscall: string)

  /** Entry `i` of `d` is the scenario function for the name `m[i]`. */
  predicate Aligned(d: seq<ScenarioFn>, m: seq<string>) {
    |d| == |m| && forall i :: 0 <= i < |m| ==> d[i].syscall == m[i]
  }

  const DispatchAtoC: seq<ScenarioFn> := [
    ScenarioFn("access"),
    ScenarioFn("chdir"),
    ScenarioFn("chmod"),
    ScenarioFn("chown"),
    ScenarioFn("close"),
    ScenarioFn("copy_file_range")
  ]

  const DispatchF: seq<ScenarioFn> := [
    ScenarioFn("faccessat2"),
    ScenarioFn("fallocate"),
    ScenarioFn("fchdir"),
    ScenarioFn("fchmod"),
    ScenarioFn("fchmodat"),
    ScenarioFn("fchown"),
    ScenarioFn("fchownat"),
    ScenarioFn("fdatasync"),
    ScenarioFn("fsconfig"),
    ScenarioFn("fsetxattr"),
    ScenarioFn("fsmount"),
    ScenarioFn("fsopen"),
    ScenarioFn("fspick"),
    ScenarioFn("fstat"),
    ScenarioFn("fstatfs"),
    ScenarioFn("fsync"),
    ScenarioFn("ftruncate")
  ]

  const DispatchGtoM: seq<ScenarioFn> := [
    ScenarioFn("getdents"),
    ScenarioFn("getdents64"),
    ScenarioFn("lchown"),
    ScenarioFn("link"),
    ScenarioFn("linkat"),
    ScenarioFn("lstat"),
    ScenarioFn("mkdir"),
    ScenarioFn("mkdirat"),
    ScenarioFn("mknod"),
    ScenarioFn("mknodat"),
    ScenarioFn("mount"),
    ScenarioFn("mount_setattr")
  ]

  const DispatchOtoR: seq<ScenarioFn> := [
    ScenarioFn("open"),
    ScenarioFn("open_by_handle_at"),
    ScenarioFn("open_tree"),
    ScenarioFn("openat"),
    ScenarioFn("openat2"),
    ScenarioFn("readahead"),
    ScenarioFn("readlink"),
    ScenarioFn("readlinkat"),
    ScenarioFn("rename"),
    ScenarioFn("renameat"),
    ScenarioFn("renameat2"),
    ScenarioFn("rmdir")
  ]

  const DispatchStoV: seq<ScenarioFn> := [
    ScenarioFn("sendfile"),
    ScenarioFn("splice"),
    ScenarioFn("stat"),
    ScenarioFn("statfs"),
    ScenarioFn("statx"),
    ScenarioFn("symlink"),
    ScenarioFn("symlinkat"),
    ScenarioFn("sync"),
    ScenarioFn("tee"),
    ScenarioFn("truncate"),
    ScenarioFn("unlink"),
    ScenarioFn("unlinkat"),
    ScenarioFn("utime"),
    ScenarioFn("utimensat"),
    ScenarioFn("utimes"),
    ScenarioFn("vmsplice")
  ]

  /** `dispatch[]`, in table order. */
  const Dispatch: seq<ScenarioFn> := DispatchAtoC + DispatchF + DispatchGtoM + DispatchOtoR + DispatchStoV


  lemma GroupAtoCAligned()
    ensures Aligned(DispatchAtoC, ModesAtoC)
  {
  }

  lemma GroupFAligned()
    ensures Aligned(DispatchF, ModesF)
  {
  }

  lemma GroupGtoMAligned()
    ensures Aligned(DispatchGtoM, ModesGtoM)
  {
  }

  lemma GroupOtoRAligned()
    ensures Aligned(DispatchOtoR, ModesOtoR)
  {
  }

  lemma GroupStoVAligned()
    ensures Aligned(DispatchStoV, ModesStoV)
  {
  }

  lemma AlignedConcat(d1: seq<ScenarioFn>, m1: seq<string>, d2: seq<ScenarioFn>, m2: seq<string>)
    requires Aligned(d1, m1) && Aligned(d2, m2)
    ensures Aligned(d1 + d2, m1 + m2)
  {
    forall i | 0 <= i < |m1 + m2|
      ensures (d1 + d2)[i].syscall == (m1 + m2)[i]
    {
      if i >= |m1| {
        assert (d1 + d2)[i] == d2[i - |m1|] && (m1 + m2)[i] == m2[i - |m1|];
      }
    }
  }

  /** `dispatch` has `MODE_COUNT` entries (63), and entry `i` is the scenario function for `modes[i]`. */
  lemma DispatchAligned()
    ensures |Dispatch| == |Modes| == ModeCount == 63
    ensures forall i :: 0 <= i < |Modes| ==> Dispatch[i].syscall == Modes[i]
  {
    GroupAtoCAligned();
    GroupFAligned();
    GroupGtoMAligned();
    GroupOtoRAligned();
    GroupStoVAligned();
    AlignedConcat(DispatchAtoC, ModesAtoC, DispatchF, ModesF);
    AlignedConcat(DispatchAtoC + DispatchF, ModesAtoC + ModesF, DispatchGtoM, ModesGtoM);
    AlignedConcat(DispatchAtoC + DispatchF + DispatchGtoM, ModesAtoC + ModesF + ModesGtoM, DispatchOtoR, ModesOtoR);
    AlignedConcat(DispatchAtoC + DispatchF + DispatchGtoM + DispatchOtoR,
                  ModesAtoC + ModesF + ModesGtoM + ModesOtoR, DispatchStoV, ModesStoV);
  }

  // ---------------------------------------------------------------------
  // mode_index and main
  // ---------------------------------------------------------------------

  /** The loop of `mode_index` over a table of names: the first index holding `arg`, or -1. */
  method FirstIndex(table: seq<string>, arg: string) returns (idx: int)
    ensures idx == -1 <==> arg !in table
    ensures idx != -1 ==> 0 <= idx < |table| && table[idx] == arg
    ensures idx != -1 ==> forall j :: 0 <= j < idx ==> table[j] != arg
  {
    for i := 0 to |table|
      invariant forall j :: 0 <= j < i ==> table[j] != arg
    {
      if arg == table[i] {
        return i;
      }
    }
    return -1;
  }

  /** `mode_index`: the index of `arg` in `modes`, or -1. */
  method ModeIndex(arg: string) returns (idx: int)
    ensures idx == -1 <==> arg !in Modes
    ensures idx != -1 ==> 0 <= idx < ModeCount && Modes[idx] == arg
    // the names are distinct, so the index found is the only one holding arg
    ensures idx != -1 ==> forall j :: 0 <= j < |Modes| && Modes[j] == arg ==> j == idx
  {
    idx := FirstIndex(Modes, arg);
    ModesDistinct();
  }

  const ModePrefix: string := "--mode="

  /** How `main` ends: it returns a status after printing the usage, or it loops forever exercising one scenario. */
  datatype Start = Exit(status: int) | Running(idx: nat, mode: string, scenario: ScenarioFn)

  /** The argument checks of `main`; `argv[0]` is the program name. */
  method ServerMain(argv: seq<string>) returns (r: Start)
    ensures |argv| < 2 ==> r == Exit(1)
    ensures |argv| >= 2 && !Text.StartsWith(argv[1], ModePrefix) ==> r == Exit(1)
    ensures |argv| >= 2 && Text.StartsWith(argv[1], ModePrefix) && argv[1][7..] !in Modes ==> r == Exit(1)
    ensures r.Exit? ==> r.status == 1
    ensures r.Running? <==> |argv| >= 2 && Text.StartsWith(argv[1], ModePrefix) && argv[1][7..] in Modes
    // the mode is argv[1] after the 7-character prefix, and dispatch[idx] is in bounds and exercises it
    ensures r.Running? ==>
      && r.mode == argv[1][7..] && r.idx < |Dispatch| && Modes[r.idx] == r.mode
      && r.scenario == Dispatch[r.idx] && r.scenario.syscall == r.mode
  {
    if |argv| < 2 {
      return Exit(1);
    }
    if !Text.StartsWith(argv[1], ModePrefix) {
      return Exit(1);
    }
    var arg := argv[1][7..];
    var idx := ModeIndex(arg);
    if idx < 0 {
      return Exit(1);
    }
    DispatchAligned();
    return Running(idx, arg, Dispatch[idx]);
  }

  /** `--mode=` with nothing after it names no mode. */
  lemma EmptyModeRejected()
    ensures "" !in Modes
  {
    ModesDistinct();
  }
}
