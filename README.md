# Kernel_Space_injections in Dafny

This project models the fault-injection rig of `Kernel_Space_injections` and proves properties of the model. The rig has four parts:

- **`reader/fs_injector.c`** is a kernel module. It puts a kretprobe on one syscall entry point. When a call is eligible, it rewrites the return value to `-inject_errno`. It counts its injections up to `max_injections`.
- **`server/server.c`** is a test program. It takes `--mode=<syscall>` and then exercises that syscall forever.
- **`generate_fs_json.py`** writes one metadata entry per syscall mode, each with a list of candidate errno variants.
- **`controller/controller.py`**:
  - finds the running server;
  - reads its mode back from `/proc/<pid>/cmdline`;
  - looks up the metadata for that mode;
  - loads the module on the mode's symbol;
  - writes each usable errno to the module in turn.

Modules:

| Dafny module | file | models |
|---|---|---|
| `Wrappers` | `wrappers.dfy` | `Option`, `Result` |
| `Ints` | `ints.dfy` | `Min`, `Max` |
| `Text` | `text.dfy` | the Python string and bytes behaviour the programs rely on: `strip`, `split()`, `split("=", 1)`, `int()`, `str()` of an int, `bytes.split`, ASCII decoding |
| `FsInjector` | `fs_injector.dfy` | `fs_injector.c`: the handler's decision (`Decide`), one firing (`Fired`), sequences of firings (`Run`, `LoggedIds`), and the module globals as the class `Injector` with `Init`, `Fire`, `Exit` and the sysfs parameter writes |
| `Server` | `server.dfy` | `server.c`: `modes[]`, `MODE_COUNT`, `dispatch[]`, `mode_index`, the argument checks of `main` |
| `Metadata` | `metadata.dfy` | the records of `file_system.json` |
| `Generator` | `generator.dfy` | `generate_fs_json.py`: `MODES`, `SYSCALL_SYMBOLS`, `ERRNO_NAMES`, `build_error_variants`, the entry loop of `main` |
| `Controller` | `controller.dfy` | `controller.py`: `load_fs_metadata`, `find_server_pid_explicit`, `find_server_pid_auto`, `read_server_mode_from_cmdline`, `read_param`/`write_param` text, and the decisions of `main` |
| `Pipeline` | `pipeline.dfy` | how the four fit together |

Integer widths follow the C code:
- The module's parameters and counters are `int32`, with the wrap-around of `atomic_inc` written out in `Inc32`.
- `regs->ax`, and so the old and the new return value, is `int64`.
- The Python integers are unbounded.

Some of the code's behaviour is easy to mistake for something else, so it is stated here as the model has it:
- **`inj_id` is counted on overrides only.** It is incremented only when the handler overrides a call, not on every decision. So `inj_id` always equals the injection count.
- **Logging happens on overrides only.** A line is logged only when a call is overridden.
- **A non-positive pid matches every caller.** The pid filter is `target_pid > 0 && pid != target_pid`, so a negative `target_pid` matches every caller, like 0.
- **The parameters can be written at runtime.** They are sysfs parameters with mode 0644, and the controller writes `inject_errno` while the module is loaded. The model has one setter method per parameter.
- **The limit check is not atomic.** It is a read of the counter followed by a separate increment, not a compare-and-increment. The model covers sequential firings only.

## Model

| member | source | states |
|---|---|---|
| FsInjector.Inc32 | Kernel_Space_injections/reader/fs_injector.c:95-96 | below `INT_MAX`, `atomic_inc` adds exactly one |
| FsInjector.Decide | Kernel_Space_injections/reader/fs_injector.c:64-79 | applies the four skip rules in order. Each rule is stated as an if-and-only-if: the pid filter; the limit, reached once `injections_done_atomic >= max_injections`; safe mode, which leaves a non-negative `old_ret` alone when `unsafe_mode == 0`; and a non-positive errno. An override's new value is exactly `-inject_errno`, negative, and does not depend on `old_ret`. |
| FsInjector.Fired | Kernel_Space_injections/reader/fs_injector.c:58-100 | a skip leaves the return value and all three counters unchanged and logs nothing. An override returns `-inject_errno` and logs the pre-increment `inj_id`. It adds one to `inj_id` and to `injections_done_atomic` and sets `injections_done` equal to the atomic. It keeps the three counters equal and never takes the count past the larger of its old value and `max(max_injections, 0)`. |
| FsInjector.RunCounts | Kernel_Space_injections/reader/fs_injector.c:95-97 | over any sequence of sequential firings the counters stay equal, and the count grows by the number of ids logged |
| FsInjector.RunCeiling | Kernel_Space_injections/reader/fs_injector.c:69-70 | starting within `max(max_injections, 0)`, no sequence of firings takes the count past it |
| FsInjector.LoggedIdsConsecutive | Kernel_Space_injections/reader/fs_injector.c:86-88 | the logged ids are consecutive, starting at the `inj_id` the sequence started with |
| FsInjector.LoggedIdsFromReset | Kernel_Space_injections/reader/fs_injector.c:123-125 | after the reset at init, the logged ids are 0, 1, 2, … and pairwise distinct |
| FsInjector.EligibleCount | Kernel_Space_injections/reader/fs_injector.c:64-79 | when every call passes the pid, safe-mode and errno rules, the number of overrides is exactly the smaller of the number of calls and the injections still allowed |
| FsInjector.EligibleCountFromReset | Kernel_Space_injections/reader/fs_injector.c:123-125 | after init's reset, N eligible calls produce exactly `min(N, max(max_injections, 0))` overrides, and the count ends there |
| FsInjector.DefaultsInjectOnce | Kernel_Space_injections/reader/fs_injector.c:25-45 | loaded with its compiled-in defaults (`DefaultConfig`: `__x64_sys_readlink`, every pid, errno 13, one injection, unsafe mode), the module overrides the first call of any process with -13, logs id 0, and overrides nothing after it |
| FsInjector.Injector.constructor | Kernel_Space_injections/reader/fs_injector.c:25-55 | the module is loaded with the given parameters and all counters at `ATOMIC_INIT(0)`, unregistered |
| FsInjector.Injector.Init | Kernel_Space_injections/reader/fs_injector.c:108-142 | a NULL or empty `target_symbol`, or `inject_errno <= 0`, returns `-EINVAL` before any counter or the probe changes. Otherwise init zeroes the three counters and sets the probe's symbol. A negative registration result is returned as is, with the probe unregistered; otherwise init returns 0 with it registered. |
| FsInjector.Injector.Fire | Kernel_Space_injections/reader/fs_injector.c:58-100 | the new `regs->ax`, the counters and the logged id are exactly those of `Fired` on the old state. The parameters are unchanged, the counters stay equal, the ceiling is kept, and the handler returns 0. |
| FsInjector.Injector.Exit | Kernel_Space_injections/reader/fs_injector.c:144-148 | the probe is unregistered; nothing else changes |
| FsInjector.Injector.SetInjectErrno | Kernel_Space_injections/reader/fs_injector.c:34-35 | a sysfs write changes only `inject_errno` and keeps the ceiling |
| FsInjector.Injector.SetMaxInjections | Kernel_Space_injections/reader/fs_injector.c:39-40 | a sysfs write changes only `max_injections`; the ceiling is kept when the limit does not go down |
| FsInjector.Injector.SetTargetPid | Kernel_Space_injections/reader/fs_injector.c:30-31 | a sysfs write changes only `target_pid` |
| FsInjector.Injector.SetUnsafeMode | Kernel_Space_injections/reader/fs_injector.c:44-45 | a sysfs write changes only `unsafe_mode` |
| FsInjector.Injector.SetTargetSymbol | Kernel_Space_injections/reader/fs_injector.c:25-26 | a sysfs write changes `target_symbol` but not the symbol the registered probe sits on |
| Server.ModesDistinct | Kernel_Space_injections/server/server.c:27-91 | the 63 mode names are pairwise distinct and non-empty |
| Server.DispatchAligned | Kernel_Space_injections/server/server.c:924-988 | `dispatch` has `MODE_COUNT` (63) entries, and entry `i` is the scenario function for `modes[i]` |
| Server.FirstIndex | Kernel_Space_injections/server/server.c:108-115 | returns -1 exactly when the name is absent; otherwise an in-range index of the first equal entry |
| Server.ModeIndex | Kernel_Space_injections/server/server.c:108-115 | returns -1 exactly when `arg` is not a mode; otherwise `i < MODE_COUNT` with `modes[i] == arg`, the only such index |
| Server.ServerMain | Kernel_Space_injections/server/server.c:995-1025 | exits with 1 before any setup when `argc < 2`, when `argv[1]` lacks `--mode=`, or when the mode is unknown. It runs exactly when none of these holds. The mode is `argv[1]` without its 7-character prefix, and `dispatch[idx]` is in bounds and exercises that mode. |
| Server.EmptyModeRejected | Kernel_Space_injections/server/server.c:1003-1014 | `--mode=` with nothing after it names no mode, so it is rejected |
| Generator.ModesMatchServer | Kernel_Space_injections/server/server.c:24-27 | `MODES` equals the server's `modes[]` element for element |
| Generator.Get | Kernel_Space_injections/generate_fs_json.py:211-211 | `dict.get` on the display finds a value exactly when some pair has the key |
| Generator.GetAt | Kernel_Space_injections/generate_fs_json.py:79-143 | with distinct keys, `get` of a key returns the value written beside it |
| Generator.SymbolKeysAreModes | Kernel_Space_injections/generate_fs_json.py:79-143 | the keys of `SYSCALL_SYMBOLS` are `MODES`, in order |
| Generator.SymbolValuesExpected | Kernel_Space_injections/generate_fs_json.py:79-143 | every value is `"__x64_sys_" + name`, except `fstat`, `lstat` and `stat`, which map to `"__x64_sys_new" + name` |
| Generator.SymbolOfMode | Kernel_Space_injections/generate_fs_json.py:211-216 | for every mode, the symbol lookup finds its expected, non-empty entry point, so every entry is probeable |
| Generator.MakeVariant | Kernel_Space_injections/generate_fs_json.py:185-195 | a variant carries the errno's name and number and `kernel_ret == -errno_num`. Its pattern is exactly `"-1 and errno set to "` followed by `str(errno_num)`. For a non-negative errno that is plain digits with no leading zero. Within `int()`'s digit limit it reads back as `errno_num`. |
| Generator.Known | Kernel_Space_injections/generate_fs_json.py:181-184 | the names kept are exactly those the errno lookup knows, and no more than the list |
| Generator.KnownConcat | Kernel_Space_injections/generate_fs_json.py:181-184 | filtering keeps list order: the filter of a concatenation is the concatenation of the filters |
| Generator.Candidates | Kernel_Space_injections/generate_fs_json.py:179-196 | one variant per known name, in list order, each built from that name and its number |
| Generator.VariantsFor | Kernel_Space_injections/generate_fs_json.py:181-195 | the append loop computes exactly the candidate list |
| Generator.BuildErrorVariants | Kernel_Space_injections/generate_fs_json.py:179-196 | `build_error_variants` yields the candidates for `ERRNO_NAMES`, at most 27. Each names an errno from the list that the lookup knows and has `kernel_ret == -errno_num`. |
| Generator.CandidateFacts | Kernel_Space_injections/generate_fs_json.py:185-188 | every candidate names a listed, known errno, with its number and its negation |
| Generator.GeneratedEntries | Kernel_Space_injections/generate_fs_json.py:210-227 | one entry per element of `MODES` |
| Generator.EntriesFor | Kernel_Space_injections/generate_fs_json.py:210-227 | the append loop builds entry `k` from name `k`, one per name |
| Generator.BuildEntries | Kernel_Space_injections/generate_fs_json.py:210-227 | the loop of `main` yields exactly one entry per mode, in `MODES` order |
| Generator.GeneratedEntryAt | Kernel_Space_injections/generate_fs_json.py:211-223 | entry `i` (built by `MakeEntry`, the dict literal of the loop) is named `MODES[i]`, has category `"file"`, `symbol_to_probe` `None`, the shared variant list, `canonical_guess` the expected entry point, and is probeable |
| Text.StripLeading | Kernel_Space_injections/controller/controller.py:63-63 | the result is a suffix that does not start with whitespace, and only whitespace was dropped |
| Text.StripTrailing | Kernel_Space_injections/controller/controller.py:63-63 | the result is a prefix that does not end with whitespace, and only whitespace was dropped |
| Text.StripEmpty | Kernel_Space_injections/controller/controller.py:67-68 | `strip()` (`Strip`, the trailing strip of the leading strip) is empty exactly when the text is all whitespace |
| Text.WordsAreWords | Kernel_Space_injections/controller/controller.py:70-70 | every piece of `split()` (`Words`) is non-empty and free of whitespace |
| Text.WordsEmpty | Kernel_Space_injections/controller/controller.py:70-70 | `split()` is empty exactly when the text is all whitespace |
| Text.AfterFirstPrefix | Kernel_Space_injections/controller/controller.py:48-50 | for an argument starting with `--pid=`, `split("=", 1)[1]` is the text after the prefix |
| Text.NatToString | Kernel_Space_injections/controller/controller.py:131-131 | `str()` of a non-negative int is non-empty decimal digits with no leading zero |
| Text.DigitsValueOfNatToString | Kernel_Space_injections/generate_fs_json.py:189-189 | the digits printed for `n` denote `n` |
| Text.IntStripLeading | Kernel_Space_injections/controller/controller.py:50-50 | `int()` skips leading `" \t\n\v\f\r"` only: the result is a suffix, only those characters were dropped, and it does not start with one |
| Text.IntStripTrailing | Kernel_Space_injections/controller/controller.py:50-50 | likewise for the trailing `" \t\n\v\f\r"` |
| Text.IntStripNoSpace | Kernel_Space_injections/controller/controller.py:125-125 | text with no whitespace is parsed unchanged |
| Text.ParseInt | Kernel_Space_injections/controller/controller.py:50-50 | `int()` fails on whitespace-only text. It also fails when the text starts or ends with one of the separators U+001C..U+001F, which `str.isspace()` counts as whitespace but `int()` does not skip. Its digit part (`ParseDigits`) refuses more than 4300 digits, underscores not counted, which is CPython's default `sys.int_info.default_max_str_digits`. |
| Text.ParseSigned | Kernel_Space_injections/controller/controller.py:50-50 | what parses after the skipped whitespace starts with a digit or a sign and ends with a digit |
| Text.ParseIntOfIntToString | Kernel_Space_injections/controller/controller.py:125-131 | `int(str(n)) == n` exactly when `n` has at most 4300 digits (`WithinDigitLimit`: magnitude below 10^4300); beyond that `int()` raises `ValueError` |
| Text.StripTrailingSpace | Kernel_Space_injections/controller/controller.py:125-125 | stripping a word followed by one whitespace character gives the word |
| Text.SplitOn | Kernel_Space_injections/controller/controller.py:85-85 | `bytes.split` yields at least one piece, none containing the separator |
| Text.JoinSplitOn | Kernel_Space_injections/controller/controller.py:85-85 | joining the pieces with the separator gives back the bytes |
| Text.SplitOnJoin | Kernel_Space_injections/controller/controller.py:85-85 | splitting separator-free pieces joined by it gives back the pieces |
| Text.SplitOnAppend | Kernel_Space_injections/controller/controller.py:85-85 | the piece before the first separator comes first |
| Text.DecodeEncode | Kernel_Space_injections/controller/controller.py:88-88 | decoding the bytes of ASCII text gives back the text |
| Controller.IndexKeys | Kernel_Space_injections/controller/controller.py:31-37 | in `IndexByName`, the dict `load_fs_metadata` builds, a name is indexed exactly when some entry with category `"file"` and a truthy name carries it |
| Controller.IndexLastWins | Kernel_Space_injections/controller/controller.py:37-37 | for duplicate names the later entry replaces the earlier one |
| Controller.LoadFsMetadata | Kernel_Space_injections/controller/controller.py:22-38 | the loop builds exactly the index, and every filed entry is kept and filed under its own name |
| Controller.PidOfText | Kernel_Space_injections/controller/controller.py:49-53 | a `--pid=` value either parses or is invalid; it is never "absent" |
| Controller.PidOfIntToString | Kernel_Space_injections/controller/controller.py:50-53 | `--pid=` followed by `str(n)` names `n` when `n` has at most 4300 digits, and is rejected as invalid (exit 1) otherwise |
| Controller.ExplicitPid | Kernel_Space_injections/controller/controller.py:43-54 | the result is "no pid argument" exactly when no argument starts with `--pid=` |
| Controller.ExplicitPidFirst | Kernel_Space_injections/controller/controller.py:47-53 | the first argument starting with `--pid=` decides, by `int()` of the text after its `=`. Invalid text means exit. |
| Controller.FindServerPidExplicit | Kernel_Space_injections/controller/controller.py:43-54 | the loop with early return computes exactly that, and returns no pid exactly when no argument has the prefix |
| Controller.MaxOf | Kernel_Space_injections/controller/controller.py:71-71 | `max` returns a member that is at least every member |
| Controller.FindServerPidAuto | Kernel_Space_injections/controller/controller.py:57-71 | no server exactly when `pidof` fails or prints only whitespace. Otherwise the result is a listed pid that is at least every listed pid, or the `ValueError` when some word is not an integer. `ParseAll` is the list comprehension of `int()` over the words. |
| Controller.ModeFromParts | Kernel_Space_injections/controller/controller.py:86-91 | no mode exactly when no part starts with `--mode=` |
| Controller.ModeFromPartsFirst | Kernel_Space_injections/controller/controller.py:86-89 | the first part starting with `--mode=` decides, by decoding what follows the prefix |
| Controller.ReadServerModeFromCmdline | Kernel_Space_injections/controller/controller.py:74-91 | a missing file raises "disappeared"; otherwise the result is the decoded mode of the first matching part, or the "no `--mode=`" error |
| Controller.ChooseSymbol | Kernel_Space_injections/controller/controller.py:184-188 | `symbol_to_probe` wins when truthy, else `canonical_guess`. A usable symbol exists exactly when one of the two is truthy. |
| Controller.UsableErrnos | Kernel_Space_injections/controller/controller.py:207-225 | the numbers written are positive, at most one per variant, and none exactly when no variant has a positive `errno_num` |
| Controller.UsableErrnosConcat | Kernel_Space_injections/controller/controller.py:206-212 | the numbers written for two runs of variants, one after the other, are those of the first run followed by those of the second |
| Controller.UsableErrnosOne | Kernel_Space_injections/controller/controller.py:207-212 | a single variant contributes its `errno_num` exactly when it is positive, and nothing otherwise |
| Controller.InjectVariants | Kernel_Space_injections/controller/controller.py:205-233 | only positive errnos are written: those of the usable variants before the sysfs files vanished, in order. The loop breaks exactly when a usable variant comes after that point. |
| Controller.ReadParamOfParamText | Kernel_Space_injections/controller/controller.py:122-131 | what `write_param` writes (`ParamText`) reads back through `read_param` (`ReadParam`) as the same number exactly when it is within `int()`'s 4300-digit limit |
| Controller.Control | Kernel_Space_injections/controller/controller.py:153-237 | a bad `--pid=`, or no server, exits with 1; unparsable `pidof` output raises. An explicit pid wins over `pidof`. When the loop runs: the mode is the one in that pid's cmdline and has an entry; the symbol is the entry's truthy choice; insmod gets `(symbol, pid, 1, 1000, 1)`; and the errnos written are all positive, those of the entry's usable variants. The loop stopped early exactly when a usable variant came after the sysfs files vanished. The loop runs exactly when the entry has a truthy symbol, a non-empty variant list and insmod succeeds. Status 0 is returned exactly when the entry has a truthy symbol and no variants. Within the model, the only uncaught exception is the `ValueError` of unparsable `pidof` output. Status 1 is returned for a vanished `/proc` file, a cmdline without `--mode=`, a mode with no entry, an entry with no truthy symbol, and a failed insmod. |
| Pipeline.EncodeStartsWith | Kernel_Space_injections/controller/controller.py:87-87 | the bytes of ASCII text start with the bytes of a prefix exactly when the text starts with it |
| Pipeline.ModeArgEncoded | Kernel_Space_injections/controller/controller.py:87-88 | `b"--mode="` is the bytes of the server's `"--mode="` |
| Pipeline.CmdlineParts | Kernel_Space_injections/controller/controller.py:85-85 | the first two NUL-separated parts of a cmdline are the first two arguments |
| Pipeline.ModeArgOfEncoded | Kernel_Space_injections/controller/controller.py:86-88 | an argument's bytes start with `--mode=` exactly when it does, and then decode to what follows the prefix |
| Pipeline.ServerModeReadBack | Kernel_Space_injections/server/server.c:1003-1004 | for a server started with `--mode=<m>` as its first argument, the controller reads `m` back from `/proc/<pid>/cmdline` |
| Pipeline.GeneratedMetadataServesMode | Kernel_Space_injections/server/server.c:24-27 | every mode the server accepts has a generated entry. The controller resolves it to the expected x86-64 entry point and the generated variants. |
| Pipeline.AllUsable | Kernel_Space_injections/controller/controller.py:208-212 | when every variant has a positive `errno_num`, each is written, in order |
| Pipeline.UsableCandidates | Kernel_Space_injections/generate_fs_json.py:181-188 | when every errno number is positive, the controller writes the number of every generated variant, in order |
| Pipeline.ControllerModuleOverrides | Kernel_Space_injections/controller/controller.py:200-225 | with the controller's configuration (unsafe mode, limit 1000) and a positive errno written, the module overrides every call of the server's pid with `-errno`, whatever it returned, until the limit |
| Pipeline.ControllerModuleSparesOthers | Kernel_Space_injections/reader/fs_injector.c:64-66 | with a positive server pid, every other process is left alone |
| Pipeline.ControllerModuleCount | Kernel_Space_injections/reader/fs_injector.c:69-70 | over a run of the server's calls, the number of overrides is the smaller of the number of calls and the injections still allowed |

## Left out

- Concurrency: firings are sequential. The limit check at `fs_injector.c:69` and the increment at `:96` are not one atomic step, so concurrent firings could pass `max_injections`. No concurrent ceiling is claimed.
- Kernel facilities are parameters or are left out: resolving the symbol, `register_kretprobe` (its result is the parameter of `Init`), `unregister_kretprobe`, `current->pid` (the parameter of `Fire`), `current->comm`, `ktime_get_real` and the `pr_info`/`pr_err` text. `maxactive` is also left out.
- FsInjector.Injector.SetTargetSymbol: a runtime write to `target_symbol` leaves the registered probe's pointer to the old string; the lifetime of that string is not modelled.
- FsInjector.Injector.Exit: requires a registered probe, since the kernel only calls exit after a successful init.
- The `sc_*` scenario functions, `sandbox_init`, `log_fail`, `usage` and the endless `usleep` loop of `server.c` are straight-line syscalls and output. A dispatch entry is modelled as the name of the syscall its function exercises (`ScenarioFn`).
- Output is left out: the `printf` lines of the server; the `print` lines of the controller and the generator; the log formats.
- The controller's subprocesses are parameters or are left out:
  - `pidof` output is the parameter `pidofOut`; output that is not text, and a missing `pidof` binary, are not modelled.
  - Exceptions that escape `main` but are not modelled: the `FileNotFoundError` of a missing `insmod` binary, which the handler for `CalledProcessError` does not catch; a `write_param` that fails because the sysfs file vanished after the read; and a missing or malformed `file_system.json`.
  - `insmod` success is the parameter `insmodOk`.
  - `rmmod` is not modelled. It runs in `insmod_module` before `insmod`, and again in the `finally` block.
- The controller's file reads are parameters:
  - `/proc/<pid>/cmdline` is a map from pid to bytes; errors other than a missing file are not modelled.
  - `file_system.json` is the list of records `json.load` returns; field values of types other than those the generator writes are not modelled.
- Controller.InjectVariants: the moment the sysfs parameters vanish is modelled as the index `goneFrom` from which reading `injections_done` fails. The timed polling of `wait_for_injection` only chooses a printed message and is left out.
- Generator.BuildErrorVariants: Python's `errno` module is the map `errnoOf`, defined on the names it knows. Writing the JSON file and creating its directory are left out.
- Text.Decode: UTF-8 decoding is modelled for ASCII bytes only; any other byte becomes U+FFFD, where Python decodes multi-byte sequences.
- Text.ParseInt: models `int()` on ASCII text only: optional surrounding `" \t\n\v\f\r"`, one sign, and at most 4300 digits with single underscores. Python's non-ASCII digits and whitespace are not modelled, and neither is a changed `sys.set_int_max_str_digits` setting.
- Text.IntToString: `str()` and f-string formatting of an int with more than 4300 digits raise `ValueError` in CPython; the model prints every int. The programs print only pids and errno numbers taken from the metadata.
- Text.IsSpace: covers the ASCII whitespace of `str.isspace()` only.
- The constant tables are written as five consecutive runs split by initial letter. Their concatenation is the table in source order.
