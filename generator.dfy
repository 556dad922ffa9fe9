/**
 * `generate_fs_json.py`: the constant tables (`MODES`, `SYSCALL_SYMBOLS`,
 * `ERRNO_NAMES`), `build_error_variants`, and the loop of `main` that builds
 * one metadata entry per mode.  Python's `errno` module is the map
 * `errnoOf` from errno name to number, defined exactly on the names it knows.
 */
module Generator {
  import opened Wrappers
  import opened Metadata
  import Text
  import Server

  // ---------------------------------------------------------------------
  // MODES
  // ---------------------------------------------------------------------

  /*
   * As in the server, the list is written as five consecutive runs split by
   * initial letter (a-c, f, g-m, o-r, s-v), concatenated in list order.
   */
  const ModesAtoC: seq<string> := [
    "access",
    "chdir",
    "chmod",
    "chown",
    "close",
    "copy_file_range"
  ]

  const ModesF: seq<string> := [
    "faccessat2",
    "fallocate",
    "fchdir",
    "fchmod",
    "fchmodat",
    "fchown",
    "fchownat",
    "fdatasync",
    "fsconfig",
    "fsetxattr",
    "fsmount",
    "fsopen",
    "fspick",
    "fstat",
    "fstatfs",
    "fsync",
    "ftruncate"
  ]

  const ModesGtoM: seq<string> := [
    "getdents",
    "getdents64",
    "lchown",
    "link",
    "linkat",
    "lstat",
    "mkdir",
    "mkdirat",
    "mknod",
    "mknodat",
    "mount",
    "mount_setattr"
  ]

  const ModesOtoR: seq<string> := [
    "open",
    "open_by_handle_at",
    "open_tree",
    "openat",
    "openat2",
    "readahead",
    "readlink",
    "readlinkat",
    "rename",
    "renameat",
    "renameat2",
    "rmdir"
  ]

  const ModesStoV: seq<string> := [
    "sendfile",
    "splice",
    "stat",
    "statfs",
    "statx",
    "symlink",
    "symlinkat",
    "sync",
    "tee",
    "truncate",
    "unlink",
    "unlinkat",
    "utime",
    "utimensat",
    "utimes",
    "vmsplice"
  ]
  /** `MODES`. */
  const Modes: seq<string> := ModesAtoC + ModesF + ModesGtoM + ModesOtoR + ModesStoV

  /** `MODES` and the server's `modes[]` are the same names in the same order. */
  lemma ModesMatchServer()
    ensures Modes == Server.Modes
    ensures |Modes| == Server.ModeCount
  {
  }

  // ---------------------------------------------------------------------
  // SYSCALL_SYMBOLS
  // ---------------------------------------------------------------------

  /*
   * The dict display `SYSCALL_SYMBOLS`, as its key/value pairs in the order
   * written, in the same five runs.
   */
  const SymbolsAtoC: seq<(string, string)> := [
    ("access", "__x64_sys_access"),
    ("chdir", "__x64_sys_chdir"),
    ("chmod", "__x64_sys_chmod"),
    ("chown", "__x64_sys_chown"),
    ("close", "__x64_sys_close"),
    ("copy_file_range", "__x64_sys_copy_file_range")
  ]

  const SymbolsF: seq<(string, string)> := [
    ("faccessat2", "__x64_sys_faccessat2"),
    ("fallocate", "__x64_sys_fallocate"),
    ("fchdir", "__x64_sys_fchdir"),
    ("fchmod", "__x64_sys_fchmod"),
    ("fchmodat", "__x64_sys_fchmodat"),
    ("fchown", "__x64_sys_fchown"),
    ("fchownat", "__x64_sys_fchownat"),
    ("fdatasync", "__x64_sys_fdatasync"),
    ("fsconfig", "__x64_sys_fsconfig"),
    ("fsetxattr", "__x64_sys_fsetxattr"),
    ("fsmount", "__x64_sys_fsmount"),
    ("fsopen", "__x64_sys_fsopen"),
    ("fspick", "__x64_sys_fspick"),
    ("fstat", "__x64_sys_newfstat"),
    ("fstatfs", "__x64_sys_fstatfs"),
    ("fsync", "__x64_sys_fsync"),
    ("ftruncate", "__x64_sys_ftruncate")
  ]

  const SymbolsGtoM: seq<(string, string)> := [
    ("getdents", "__x64_sys_getdents"),
    ("getdents64", "__x64_sys_getdents64"),
    ("lchown", "__x64_sys_lchown"),
    ("link", "__x64_sys_link"),
    ("linkat", "__x64_sys_linkat"),
    ("lstat", "__x64_sys_newlstat"),
    ("mkdir", "__x64_sys_mkdir"),
    ("mkdirat", "__x64_sys_mkdirat"),
    ("mknod", "__x64_sys_mknod"),
    ("mknodat", "__x64_sys_mknodat"),
    ("mount", "__x64_sys_mount"),
    ("mount_setattr", "__x64_sys_mount_setattr")
  ]

  const SymbolsOtoR: seq<(string, string)> := [
    ("open", "__x64_sys_open"),
    ("open_by_handle_at", "__x64_sys_open_by_handle_at"),
    ("open_tree", "__x64_sys_open_tree"),
    ("openat", "__x64_sys_openat"),
    ("openat2", "__x64_sys_openat2"),
    ("readahead", "__x64_sys_readahead"),
    ("readlink", "__x64_sys_readlink"),
    ("readlinkat", "__x64_sys_readlinkat"),
    ("rename", "__x64_sys_rename"),
    ("renameat", "__x64_sys_renameat"),
    ("renameat2", "__x64_sys_renameat2"),
    ("rmdir", "__x64_sys_rmdir")
  ]

  const SymbolsStoV: seq<(string, string)> := [
    ("sendfile", "__x64_sys_sendfile"),
    ("splice", "__x64_sys_splice"),
    ("stat", "__x64_sys_newstat"),
    ("statfs", "__x64_sys_statfs"),
    ("statx", "__x64_sys_statx"),
    ("symlink", "__x64_sys_symlink"),
    ("symlinkat", "__x64_sys_symlinkat"),
    ("sync", "__x64_sys_sync"),
    ("tee", "__x64_sys_tee"),
    ("truncate", "__x64_sys_truncate"),
    ("unlink", "__x64_sys_unlink"),
    ("unlinkat", "__x64_sys_unlinkat"),
    ("utime", "__x64_sys_utime"),
    ("utimensat", "__x64_sys_utimensat"),
    ("utimes", "__x64_sys_utimes"),
    ("vmsplice", "__x64_sys_vmsplice")
  ]
  /** `SYSCALL_SYMBOLS`. */
  const SyscallSymbols: seq<(string, string)> :=
    SymbolsAtoC + SymbolsF + SymbolsGtoM + SymbolsOtoR + SymbolsStoV

  /** `dict.get` on a dict display: the value of the last pair with that key, or `None`. */
  function Get(table: seq<(string, string)>, key: string): (r: Option<string>)
    ensures r.Some? <==> exists i :: 0 <= i < |table| && table[i].0 == key
  {
    if |table| == 0 then None
    else if table[|table| - 1].0 == key then Some(table[|table| - 1].1)
    else
      var r := Get(table[..|table| - 1], key);
      assert forall i :: 0 <= i < |table| - 1 ==> table[..|table| - 1][i] == table[i];
      r
  }

  /** The keys of a table are pairwise distinct. */
  predicate KeysDistinct(table: seq<(string, string)>) {
    forall i, j :: 0 <= i < j < |table| ==> table[i].0 != table[j].0
  }

  /** Looking up a key that occurs once yields the value paired with it. */
  lemma {:induction false} GetAt(table: seq<(string, string)>, i: nat)
    requires KeysDistinct(table) && i < |table|
    ensures Get(table, table[i].0) == Some(table[i].1)
    decreases |table|
  {
    if i < |table| - 1 {
      assert table[..|table| - 1][i] == table[i];
      GetAt(table[..|table| - 1], i);
    }
  }

  /** The keys of `table`, in order, are `names`. */
  predicate KeysAre(table: seq<(string, string)>, names: seq<string>) {
    |table| == |names| && forall i :: 0 <= i < |names| ==> table[i].0 == names[i]
  }

  lemma KeysAreConcat(t1: seq<(string, string)>, n1: seq<string>, t2: seq<(string, string)>, n2: seq<string>)
    requires KeysAre(t1, n1) && KeysAre(t2, n2)
    ensures KeysAre(t1 + t2, n1 + n2)
  {
    forall i | 0 <= i < |n1 + n2|
      ensures (t1 + t2)[i].0 == (n1 + n2)[i]
    {
      if i >= |n1| {
        assert (t1 + t2)[i] == t2[i - |n1|] && (n1 + n2)[i] == n2[i - |n1|];
      }
    }
  }

  lemma SymbolsAtoCKeys()
    ensures KeysAre(SymbolsAtoC, ModesAtoC)
  {
  }

  lemma SymbolsFKeys()
    ensures KeysAre(SymbolsF, ModesF)
  {
  }

  lemma SymbolsGtoMKeys()
    ensures KeysAre(SymbolsGtoM, ModesGtoM)
  {
  }

  lemma SymbolsOtoRKeys()
    ensures KeysAre(SymbolsOtoR, ModesOtoR)
  {
  }

  lemma SymbolsStoVKeys()
    ensures KeysAre(SymbolsStoV, ModesStoV)
  {
  }

  /** The keys of `SYSCALL_SYMBOLS` are `MODES`, in the same order. */
  lemma SymbolKeysAreModes()
    ensures KeysAre(SyscallSymbols, Modes)
  {
    SymbolsAtoCKeys();
    SymbolsFKeys();
    SymbolsGtoMKeys();
    SymbolsOtoRKeys();
    SymbolsStoVKeys();
    KeysAreConcat(SymbolsAtoC, ModesAtoC, SymbolsF, ModesF);
    KeysAreConcat(SymbolsAtoC + SymbolsF, ModesAtoC + ModesF, SymbolsGtoM, ModesGtoM);
    KeysAreConcat(SymbolsAtoC + SymbolsF + SymbolsGtoM, ModesAtoC + ModesF + ModesGtoM, SymbolsOtoR, ModesOtoR);
    KeysAreConcat(SymbolsAtoC + SymbolsF + SymbolsGtoM + SymbolsOtoR,
                  ModesAtoC + ModesF + ModesGtoM + ModesOtoR, SymbolsStoV, ModesStoV);
  }

  /** The three stat calls whose x86-64 entry points carry the `new` prefix. */
  predicate NewStat(name: string) {
    name == "fstat" || name == "lstat" || name == "stat"
  }

  /**
   * The x86-64 entry point of a syscall: `__x64_sys_<name>`, except that
   * `fstat`, `lstat` and `stat` enter through `__x64_sys_new<name>`.
   */
  function ExpectedSymbol(name: string): string {
    if NewStat(name) then "__x64_sys_new" + name else "__x64_sys_" + name
  }

  /** Entries `lo..hi` of `table` map each key to its expected entry point. */
  predicate ExpectedRange(table: seq<(string, string)>, lo: nat, hi: nat) {
    lo <= hi <= |table| && forall i :: lo <= i < hi ==> table[i].1 == ExpectedSymbol(table[i].0)
  }

  /*
   * The table is checked a few entries at a time: first that no key in the
   * range is one of the stat calls, then that each value is the prefix
   * followed by the key.
   */
  predicate NotNewRange(table: seq<(string, string)>, lo: nat, hi: nat) {
    lo <= hi <= |table| && forall i :: lo <= i < hi ==> !NewStat(table[i].0)
  }

  predicate PrefixedRange(table: seq<(string, string)>, lo: nat, hi: nat, prefix: string) {
    lo <= hi <= |table| && forall i :: lo <= i < hi ==> table[i].1 == prefix + table[i].0
  }

  lemma PlainExpected(table: seq<(string, string)>, lo: nat, hi: nat)
    requires NotNewRange(table, lo, hi) && PrefixedRange(table, lo, hi, "__x64_sys_")
    ensures ExpectedRange(table, lo, hi)
  {
  }

  lemma ExpectedRangeJoin(table: seq<(string, string)>, lo: nat, mid: nat, hi: nat)
    requires ExpectedRange(table, lo, mid) && ExpectedRange(table, mid, hi)
    ensures ExpectedRange(table, lo, hi)
  {
  }

  lemma ExpectedConcat(t1: seq<(string, string)>, t2: seq<(string, string)>)
    requires ExpectedRange(t1, 0, |t1|) && ExpectedRange(t2, 0, |t2|)
    ensures ExpectedRange(t1 + t2, 0, |t1 + t2|)
  {
    assert forall i :: 0 <= i < |t1| ==> (t1 + t2)[i] == t1[i];
    assert forall i :: |t1| <= i < |t1 + t2| ==> (t1 + t2)[i] == t2[i - |t1|];
  }

  lemma SymbolsAtoCPrefixed0()
    ensures PrefixedRange(SymbolsAtoC, 0, 3, "__x64_sys_")
  {
  }

  lemma SymbolsAtoCNotNew0()
    ensures NotNewRange(SymbolsAtoC, 0, 3)
  {
  }

  lemma SymbolsAtoCPrefixed3()
    ensures PrefixedRange(SymbolsAtoC, 3, 6, "__x64_sys_")
  {
  }

  lemma SymbolsAtoCNotNew3()
    ensures NotNewRange(SymbolsAtoC, 3, 6)
  {
  }

  lemma SymbolsAtoCExpected()
    ensures ExpectedRange(SymbolsAtoC, 0, |SymbolsAtoC|)
  {
    SymbolsAtoCNotNew0();
    SymbolsAtoCPrefixed0();
    PlainExpected(SymbolsAtoC, 0, 3);
    SymbolsAtoCNotNew3();
    SymbolsAtoCPrefixed3();
    PlainExpected(SymbolsAtoC, 3, 6);
    ExpectedRangeJoin(SymbolsAtoC, 0, 3, 6);
  }

  lemma SymbolsFPrefixed0()
    ensures PrefixedRange(SymbolsF, 0, 3, "__x64_sys_")
  {
  }

  lemma SymbolsFNotNew0()
    ensures NotNewRange(SymbolsF, 0, 3)
  {
  }

  lemma SymbolsFPrefixed3()
    ensures PrefixedRange(SymbolsF, 3, 6, "__x64_sys_")
  {
  }

  lemma SymbolsFNotNew3()
    ensures NotNewRange(SymbolsF, 3, 6)
  {
  }

  lemma SymbolsFPrefixed6()
    ensures PrefixedRange(SymbolsF, 6, 9, "__x64_sys_")
  {
  }

  lemma SymbolsFNotNew6()
    ensures NotNewRange(SymbolsF, 6, 9)
  {
  }

  lemma SymbolsFPrefixed9()
    ensures PrefixedRange(SymbolsF, 9, 12, "__x64_sys_")
  {
  }

  lemma SymbolsFNotNew9()
    ensures NotNewRange(SymbolsF, 9, 12)
  {
  }

  lemma SymbolsFPrefixed12()
    ensures PrefixedRange(SymbolsF, 12, 13, "__x64_sys_")
  {
  }

  lemma SymbolsFNotNew12()
    ensures NotNewRange(SymbolsF, 12, 13)
  {
  }

  lemma SymbolsFPrefixed13()
    ensures PrefixedRange(SymbolsF, 13, 14, "__x64_sys_new")
  {
  }

  lemma SymbolsFPrefixed14()
    ensures PrefixedRange(SymbolsF, 14, 17, "__x64_sys_")
  {
  }

  lemma SymbolsFNotNew14()
    ensures NotNewRange(SymbolsF, 14, 17)
  {
  }

  lemma SymbolsFExpected()
    ensures ExpectedRange(SymbolsF, 0, |SymbolsF|)
  {
    SymbolsFNotNew0();
    SymbolsFPrefixed0();
    PlainExpected(SymbolsF, 0, 3);
    SymbolsFNotNew3();
    SymbolsFPrefixed3();
    PlainExpected(SymbolsF, 3, 6);
    SymbolsFNotNew6();
    SymbolsFPrefixed6();
    PlainExpected(SymbolsF, 6, 9);
    SymbolsFNotNew9();
    SymbolsFPrefixed9();
    PlainExpected(SymbolsF, 9, 12);
    SymbolsFNotNew12();
    SymbolsFPrefixed12();
    PlainExpected(SymbolsF, 12, 13);
    SymbolsFPrefixed13();
    assert NewStat(SymbolsF[13].0);
    SymbolsFNotNew14();
    SymbolsFPrefixed14();
    PlainExpected(SymbolsF, 14, 17);
    ExpectedRangeJoin(SymbolsF, 0, 3, 6);
    ExpectedRangeJoin(SymbolsF, 0, 6, 9);
    ExpectedRangeJoin(SymbolsF, 0, 9, 12);
    ExpectedRangeJoin(SymbolsF, 0, 12, 13);
    ExpectedRangeJoin(SymbolsF, 0, 13, 14);
    ExpectedRangeJoin(SymbolsF, 0, 14, 17);
  }

  lemma SymbolsGtoMPrefixed0()
    ensures PrefixedRange(SymbolsGtoM, 0, 3, "__x64_sys_")
  {
  }

  lemma SymbolsGtoMNotNew0()
    ensures NotNewRange(SymbolsGtoM, 0, 3)
  {
  }

  lemma SymbolsGtoMPrefixed3()
    ensures PrefixedRange(SymbolsGtoM, 3, 5, "__x64_sys_")
  {
  }

  lemma SymbolsGtoMNotNew3()
    ensures NotNewRange(SymbolsGtoM, 3, 5)
  {
  }

  lemma SymbolsGtoMPrefixed5()
    ensures PrefixedRange(SymbolsGtoM, 5, 6, "__x64_sys_new")
  {
  }

  lemma SymbolsGtoMPrefixed6()
    ensures PrefixedRange(SymbolsGtoM, 6, 9, "__x64_sys_")
  {
  }

  lemma SymbolsGtoMNotNew6()
    ensures NotNewRange(SymbolsGtoM, 6, 9)
  {
  }

  lemma SymbolsGtoMPrefixed9()
    ensures PrefixedRange(SymbolsGtoM, 9, 12, "__x64_sys_")
  {
  }

  lemma SymbolsGtoMNotNew9()
    ensures NotNewRange(SymbolsGtoM, 9, 12)
  {
  }

  lemma SymbolsGtoMExpected()
    ensures ExpectedRange(SymbolsGtoM, 0, |SymbolsGtoM|)
  {
    SymbolsGtoMNotNew0();
    SymbolsGtoMPrefixed0();
    PlainExpected(SymbolsGtoM, 0, 3);
    SymbolsGtoMNotNew3();
    SymbolsGtoMPrefixed3();
    PlainExpected(SymbolsGtoM, 3, 5);
    SymbolsGtoMPrefixed5();
    assert NewStat(SymbolsGtoM[5].0);
    SymbolsGtoMNotNew6();
    SymbolsGtoMPrefixed6();
    PlainExpected(SymbolsGtoM, 6, 9);
    SymbolsGtoMNotNew9();
    SymbolsGtoMPrefixed9();
    PlainExpected(SymbolsGtoM, 9, 12);
    ExpectedRangeJoin(SymbolsGtoM, 0, 3, 5);
    ExpectedRangeJoin(SymbolsGtoM, 0, 5, 6);
    ExpectedRangeJoin(SymbolsGtoM, 0, 6, 9);
    ExpectedRangeJoin(SymbolsGtoM, 0, 9, 12);
  }

  lemma SymbolsOtoRPrefixed0()
    ensures PrefixedRange(SymbolsOtoR, 0, 3, "__x64_sys_")
  {
  }

  lemma SymbolsOtoRNotNew0()
    ensures NotNewRange(SymbolsOtoR, 0, 3)
  {
  }

  lemma SymbolsOtoRPrefixed3()
    ensures PrefixedRange(SymbolsOtoR, 3, 6, "__x64_sys_")
  {
  }

  lemma SymbolsOtoRNotNew3()
    ensures NotNewRange(SymbolsOtoR, 3, 6)
  {
  }

  lemma SymbolsOtoRPrefixed6()
    ensures PrefixedRange(SymbolsOtoR, 6, 9, "__x64_sys_")
  {
  }

  lemma SymbolsOtoRNotNew6()
    ensures NotNewRange(SymbolsOtoR, 6, 9)
  {
  }

  lemma SymbolsOtoRPrefixed9()
    ensures PrefixedRange(SymbolsOtoR, 9, 12, "__x64_sys_")
  {
  }

  lemma SymbolsOtoRNotNew9()
    ensures NotNewRange(SymbolsOtoR, 9, 12)
  {
  }

  lemma SymbolsOtoRExpected()
    ensures ExpectedRange(SymbolsOtoR, 0, |SymbolsOtoR|)
  {
    SymbolsOtoRNotNew0();
    SymbolsOtoRPrefixed0();
    PlainExpected(SymbolsOtoR, 0, 3);
    SymbolsOtoRNotNew3();
    SymbolsOtoRPrefixed3();
    PlainExpected(SymbolsOtoR, 3, 6);
    SymbolsOtoRNotNew6();
    SymbolsOtoRPrefixed6();
    PlainExpected(SymbolsOtoR, 6, 9);
    SymbolsOtoRNotNew9();
    SymbolsOtoRPrefixed9();
    PlainExpected(SymbolsOtoR, 9, 12);
    ExpectedRangeJoin(SymbolsOtoR, 0, 3, 6);
    ExpectedRangeJoin(SymbolsOtoR, 0, 6, 9);
    ExpectedRangeJoin(SymbolsOtoR, 0, 9, 12);
  }

  lemma SymbolsStoVPrefixed0()
    ensures PrefixedRange(SymbolsStoV, 0, 2, "__x64_sys_")
  {
  }

  lemma SymbolsStoVNotNew0()
    ensures NotNewRange(SymbolsStoV, 0, 2)
  {
  }

  lemma SymbolsStoVPrefixed2()
    ensures PrefixedRange(SymbolsStoV, 2, 3, "__x64_sys_new")
  {
  }

  lemma SymbolsStoVPrefixed3()
    ensures PrefixedRange(SymbolsStoV, 3, 6, "__x64_sys_")
  {
  }

  lemma SymbolsStoVNotNew3()
    ensures NotNewRange(SymbolsStoV, 3, 6)
  {
  }

  lemma SymbolsStoVPrefixed6()
    ensures PrefixedRange(SymbolsStoV, 6, 9, "__x64_sys_")
  {
  }

  lemma SymbolsStoVNotNew6()
    ensures NotNewRange(SymbolsStoV, 6, 9)
  {
  }

  lemma SymbolsStoVPrefixed9()
    ensures PrefixedRange(SymbolsStoV, 9, 12, "__x64_sys_")
  {
  }

  lemma SymbolsStoVNotNew9()
    ensures NotNewRange(SymbolsStoV, 9, 12)
  {
  }

  lemma SymbolsStoVPrefixed12()
    ensures PrefixedRange(SymbolsStoV, 12, 15, "__x64_sys_")
  {
  }

  lemma SymbolsStoVNotNew12()
    ensures NotNewRange(SymbolsStoV, 12, 15)
  {
  }

  lemma SymbolsStoVPrefixed15()
    ensures PrefixedRange(SymbolsStoV, 15, 16, "__x64_sys_")
  {
  }

  lemma SymbolsStoVNotNew15()
    ensures NotNewRange(SymbolsStoV, 15, 16)
  {
  }

  lemma SymbolsStoVExpected()
    ensures ExpectedRange(SymbolsStoV, 0, |SymbolsStoV|)
  {
    SymbolsStoVNotNew0();
    SymbolsStoVPrefixed0();
    PlainExpected(SymbolsStoV, 0, 2);
    SymbolsStoVPrefixed2();
    assert NewStat(SymbolsStoV[2].0);
    SymbolsStoVNotNew3();
    SymbolsStoVPrefixed3();
    PlainExpected(SymbolsStoV, 3, 6);
    SymbolsStoVNotNew6();
    SymbolsStoVPrefixed6();
    PlainExpected(SymbolsStoV, 6, 9);
    SymbolsStoVNotNew9();
    SymbolsStoVPrefixed9();
    PlainExpected(SymbolsStoV, 9, 12);
    SymbolsStoVNotNew12();
    SymbolsStoVPrefixed12();
    PlainExpected(SymbolsStoV, 12, 15);
    SymbolsStoVNotNew15();
    SymbolsStoVPrefixed15();
    PlainExpected(SymbolsStoV, 15, 16);
    ExpectedRangeJoin(SymbolsStoV, 0, 2, 3);
    ExpectedRangeJoin(SymbolsStoV, 0, 3, 6);
    ExpectedRangeJoin(SymbolsStoV, 0, 6, 9);
    ExpectedRangeJoin(SymbolsStoV, 0, 9, 12);
    ExpectedRangeJoin(SymbolsStoV, 0, 12, 15);
    ExpectedRangeJoin(SymbolsStoV, 0, 15, 16);
  }

  /** Every `SYSCALL_SYMBOLS` value is the expected entry point of its key. */
  lemma SymbolValuesExpected()
    ensures ExpectedRange(SyscallSymbols, 0, |SyscallSymbols|)
  {
    SymbolsAtoCExpected();
    SymbolsFExpected();
    SymbolsGtoMExpected();
    SymbolsOtoRExpected();
    SymbolsStoVExpected();
    ExpectedConcat(SymbolsAtoC, SymbolsF);
    ExpectedConcat(SymbolsAtoC + SymbolsF, SymbolsGtoM);
    ExpectedConcat(SymbolsAtoC + SymbolsF + SymbolsGtoM, SymbolsOtoR);
    ExpectedConcat(SymbolsAtoC + SymbolsF + SymbolsGtoM + SymbolsOtoR, SymbolsStoV);
  }

  /** For every mode, `SYSCALL_SYMBOLS.get` finds its expected, non-empty entry point. */
  lemma SymbolOfMode(i: nat)
    requires i < |Modes|
    ensures Get(SyscallSymbols, Modes[i]) == Some(ExpectedSymbol(Modes[i]))
    ensures Truthy(Get(SyscallSymbols, Modes[i]))
  {
    SymbolKeysAreModes();
    Server.ModesDistinct();
    ModesMatchServer();
    SymbolValuesExpected();
    GetAt(SyscallSymbols, i);
  }

  // ---------------------------------------------------------------------
  // ERRNO_NAMES and build_error_variants
  // ---------------------------------------------------------------------

  const ErrnoNames: seq<string> := [
    "EPERM",
    "EACCES",
    "EBADF",
    "EFAULT",
    "EFBIG",
    "EINTR",
    "EINVAL",
    "EIO",
    "EISDIR",
    "ELOOP",
    "EMFILE",
    "ENAMETOOLONG",
    "ENFILE",
    "ENODEV",
    "ENOENT",
    "ENOMEM",
    "ENOSPC",
    "ENOTDIR",
    "ENOTEMPTY",
    "ENXIO",
    "EOVERFLOW",
    "EROFS",
    "ETIMEDOUT",
    "ETXTBSY",
    "EXDEV",
    "EBUSY",
    "EOPNOTSUPP"
  ]
  const PatternPrefix: string := "-1 and errno set to "

  /** The variant `build_error_variants` emits for a known errno. */
  function MakeVariant(name: string, num: int): (v: Variant)
    ensures v.errnoName == Some(name) && v.errnoNum == Some(num) && v.kernelRet == -num
    // the pattern is the prefix followed by exactly what `str()` prints for the errno, which reads back as that number
    ensures v.userspaceReturnPattern == PatternPrefix + Text.IntToString(num)
    ensures Text.StartsWith(v.userspaceReturnPattern, PatternPrefix)
    ensures Text.WithinDigitLimit(num) ==> Text.ParseInt(v.userspaceReturnPattern[|PatternPrefix|..]) == Some(num)
    // for a non-negative errno the suffix is plain decimal digits with no leading zero
    ensures num >= 0 ==>
      var digits := v.userspaceReturnPattern[|PatternPrefix|..];
      |digits| > 0 && Text.AllDigits(digits) && (digits[0] == '0' ==> digits == "0")
  {
    Text.ParseIntOfIntToString(num);
    var pattern := PatternPrefix + Text.IntToString(num);
    assert pattern[..|PatternPrefix|] == PatternPrefix;
    assert pattern[|PatternPrefix|..] == Text.IntToString(num);
    Variant(Some(name), Some(num), -num, pattern,
            "candidates", "automatic candidate list", true, "maybe", "low")
  }

  /** The names of `names` that `errnoOf` knows, in order. */
  function Known(names: seq<string>, errnoOf: map<string, int>): (r: seq<string>)
    ensures |r| <= |names|
    ensures forall n :: n in r <==> n in names && n in errnoOf
  {
    if |names| == 0 then []
    else
      var init := Known(names[..|names| - 1], errnoOf);
      var last := names[|names| - 1];
      assert names == names[..|names| - 1] + [last];
      if last in errnoOf then init + [last] else init
  }

  /** Filtering a concatenation filters each part: the order of the names is kept. */
  lemma {:induction false} KnownConcat(a: seq<string>, b: seq<string>, errnoOf: map<string, int>)
    ensures Known(a + b, errnoOf) == Known(a, errnoOf) + Known(b, errnoOf)
    decreases |b|
  {
    if |b| > 0 {
      var b0 := b[..|b| - 1];
      assert (a + b)[..|a + b| - 1] == a + b0;
      KnownConcat(a, b0, errnoOf);
    } else {
      assert a + b == a;
    }
  }

  /** The variants for `names`: one per name `errnoOf` knows, in order. */
  function Candidates(names: seq<string>, errnoOf: map<string, int>): (vs: seq<Variant>)
    ensures |vs| == |Known(names, errnoOf)|
    ensures forall k :: 0 <= k < |vs| ==>
      vs[k] == MakeVariant(Known(names, errnoOf)[k], errnoOf[Known(names, errnoOf)[k]])
  {
    if |names| == 0 then []
    else
      var init := Candidates(names[..|names| - 1], errnoOf);
      var last := names[|names| - 1];
      if last in errnoOf then init + [MakeVariant(last, errnoOf[last])] else init
  }

  /** The loop of `build_error_variants` over a list of errno names. */
  method VariantsFor(names: seq<string>, errnoOf: map<string, int>) returns (variants: seq<Variant>)
    ensures variants == Candidates(names, errnoOf)
  {
    variants := [];
    for i := 0 to |names|
      invariant variants == Candidates(names[..i], errnoOf)
    {
      var name := names[i];
      assert names[..i + 1][..i] == names[..i];
      if name in errnoOf {
        variants := variants + [MakeVariant(name, errnoOf[name])];
      }
    }
    assert names[..|names|] == names;
  }

  /** `build_error_variants`. */
  method BuildErrorVariants(errnoOf: map<string, int>) returns (variants: seq<Variant>)
    ensures variants == Candidates(ErrnoNames, errnoOf)
    ensures |variants| <= |ErrnoNames|
    // each variant names an errno from ERRNO_NAMES that errnoOf knows, and returns its negation
    ensures forall k :: 0 <= k < |variants| ==>
      && variants[k].errnoName.Some? && variants[k].errnoName.value in ErrnoNames
      && variants[k].errnoName.value in errnoOf
      && variants[k].errnoNum == Some(errnoOf[variants[k].errnoName.value])
      && variants[k].kernelRet == -errnoOf[variants[k].errnoName.value]
  {
    variants := VariantsFor(ErrnoNames, errnoOf);
    CandidateFacts(ErrnoNames, errnoOf);
  }

  /** Each candidate variant names an errno of `names` that `errnoOf` knows, and returns its negation. */
  lemma CandidateFacts(names: seq<string>, errnoOf: map<string, int>)
    ensures var vs := Candidates(names, errnoOf);
      forall k :: 0 <= k < |vs| ==>
        && vs[k].errnoName.Some? && vs[k].errnoName.value in names
        && vs[k].errnoName.value in errnoOf
        && vs[k].errnoNum == Some(errnoOf[vs[k].errnoName.value])
        && vs[k].kernelRet == -errnoOf[vs[k].errnoName.value]
  {
    var known := Known(names, errnoOf);
    forall k | 0 <= k < |known|
      ensures known[k] in names && known[k] in errnoOf
    {
      assert known[k] in known;
    }
  }

  // ---------------------------------------------------------------------
  // The entries of main
  // ---------------------------------------------------------------------

  const Notes: string := "Generated by generate_fs_json.py for FS fault-injection project."

  /** The entry `main` builds for the mode `name`. */
  function MakeEntry(name: string, variants: seq<Variant>): Entry {
    var sym := Get(SyscallSymbols, name);
    Entry(Some(name), sym, None, Truthy(sym), Some("file"), 0, [], "long", true, "maybe",
          Some(variants), None, Notes)
  }

  /** One entry per element of `MODES`, in order. */
  function GeneratedEntries(variants: seq<Variant>): (es: seq<Entry>)
    ensures |es| == |Modes|
  {
    seq(|Modes|, i requires 0 <= i < |Modes| => MakeEntry(Modes[i], variants))
  }

  /** The loop of `main`, over a list of mode names. */
  method EntriesFor(names: seq<string>, variants: seq<Variant>) returns (entries: seq<Entry>)
    ensures |entries| == |names|
    ensures forall k :: 0 <= k < |names| ==> entries[k] == MakeEntry(names[k], variants)
  {
    entries := [];
    for i := 0 to |names|
      invariant |entries| == i
      invariant forall k :: 0 <= k < i ==> entries[k] == MakeEntry(names[k], variants)
    {
      entries := entries + [MakeEntry(names[i], variants)];
    }
  }

  /** The loop of `main` over `MODES`. */
  method BuildEntries(variants: seq<Variant>) returns (entries: seq<Entry>)
    ensures entries == GeneratedEntries(variants)
    ensures |entries| == |Modes|
  {
    entries := EntriesFor(Modes, variants);
  }

  /**
   * Entry `i` is named `MODES[i]`, is filed as a "file" syscall with no
   * symbol override, shares the one variant list, and is probeable through
   * the expected entry point.
   */
  lemma GeneratedEntryAt(variants: seq<Variant>, i: nat)
    requires i < |Modes|
    ensures var e := GeneratedEntries(variants)[i];
      && e.name == Some(Modes[i]) && e.category == Some("file")
      && e.symbolToProbe == None && e.errorVariants == Some(variants)
      && e.canonicalGuess == Some(ExpectedSymbol(Modes[i])) && e.probeable
  {
    SymbolOfMode(i);
  }
}
