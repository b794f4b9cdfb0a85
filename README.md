# ArceOS file layer, task times, mounts and syscall entry — a Dafny model

This project models five pieces of the ArceOS kernel and proves properties of them:

- the POSIX file layer (`api/arceos_posix_api/src/imp/fs.rs`). This covers how open flags become backend `OpenOptions`, the fallback that opens a path as a file and then as a directory, the `dirfd` rule of `openat`/`mkdirat`/`unlinkat`, `lseek`'s `whence`, the `stat` record of a `File`, what a `Directory` refuses, `read_file` and `getcwd`;
- per-task CPU time accounting (`modules/axtask/src/times.rs`);
- mount-target path normalisation with `mount`/`unmount` (`modules/axfs/src/api/mount.rs`);
- the `utimensat` timestamp sentinels (`api/arceos_posix_api/src/ctypes_ext.rs`);
- the system-call entry (`modules/axsyscall/src/lib.rs`): number-to-handler routing, the handlers whose answer is fixed, the NUL scan behind `get_user_str`, and the zero-padded name fields of `uname`.

Modules, one per source file, plus a shared one:

| file | module | models |
|---|---|---|
| `errors.dfy` | `Errors` | `LinuxError`, `AxError`, `Result`, `Option` |
| `machine_int.dfy` | `MachineInt` | 64-bit integers and the `as` casts between them |
| `posix_fs.dfy` | `PosixFs` | `fs.rs` |
| `task_times.dfy` | `TaskTimes` | `times.rs` |
| `mount.dfy` | `Mount` | `mount.rs` |
| `ctypes_ext.dfy` | `CtypesExt` | `ctypes_ext.rs` |
| `syscall.dfy` | `AxSyscall` | `axsyscall/src/lib.rs` |

How the modelling choices map onto the code:

- **The backend filesystem** (`axfs::fops`, `axfs::api`) is the datatype `PosixFs.Backend`. Its fields are the backend entry points, as total functions, so whatever they answer is an input to every operation.
- **The descriptor table** (`fd_ops`, which is not part of this model) is the value `PosixFs.FdTable`. Lookup fails with `EBADF`. Insertion takes the smallest free descriptor below a capacity and fails with `EMFILE` when there is none.
- **A downcast** (`into_any().downcast::<T>()`) is a test of the `File`/`Directory` variant.
- **Open entry points** return `Opened`. It holds the result, the table after the call, and the backend opens the call issued, in order. That sequence is what "exactly one directory retry" is stated about.
- **`Times` and the C `timespec`** change through `&mut self`, so each is a class. Their methods are proved against transition functions on values (`TaskTimes.Updated`, `CtypesExt.Utime`), and the lemmas are about those functions.
- **`mount`/`unmount`** change process-wide state, so they are methods of the class `Mount.Root`.
- **Imperative helpers.** `GetStrLen`, `InitBytesFromStr`, `ReadFile` and `SysGetcwd` are loops. `InitBytesFromStr` and `SysGetcwd` write the caller's array in place; `ReadFile` fills a buffer it allocates itself, as `read_file` does.
- **Clocks and tick counters** (`current_ticks`, `wall_time`) are parameters.

## Behaviour modelled as written

In each case below the code does something other than what POSIX practice or the surrounding comments would suggest, and the model follows the code.

- **A failed downcast.** `File::from_fd` and `Directory::from_fd` turn it into `EINVAL`, not "bad file descriptor" (`EBADF`). Only `read_file` uses `EBADF` for a non-`File` object.
- **The open fallback.** A directory retry that fails is not remapped to "not a directory". The directory attempt's own error is returned and the file attempt's error is dropped. The fallback also runs when the file opened but could not be registered, for example because the table was full (`PosixFs.FullTableError`).
- **`O_EXEC`** sets `create_new`, not `execute`.
- **The path a `Directory` keeps.** It is not normalised or made absolute. The code stores the filename exactly as it was passed to the open call, relative or not.
- **Timestamps in `stat`.** There is no per-file `atime`/`mtime` overlay. `File` has no such fields: `File::stat` leaves every timestamp at zero, and `utimensat` itself is not part of this model (only the sentinel update `set_as_utime` is).
- **`lstat`** does not behave like `stat`. The code writes an all-zero record and never looks at the path.
- **`sys_openat`** returns a bare `-1` when its filename does not convert, not an error code. A C caller reads that as `-EPERM`, which is how `PosixFs.SysOpenat` reports it.
- **The `exit_group` number.** `LINUX_SYSCALL_EXIT_GROUP` is 0x53, which is `fdatasync` in the RISC-V 64 Linux ABI; there `exit_group` is 0x5e. The model keeps 0x53. A real `exit_group` (0x5e) falls to the default arm and answers 0 (`AxSyscall.LinuxExitGroupNumberUnrouted`).
- **`update_time`** assigns the elapsed ticks to `utime`/`stime` rather than adding them. Each update therefore keeps only the length of the last interval (`TaskTimes.UpdateKeepsOnlyLastInterval`). The callers that would show whether this is intended (the `into_kernel`/`into_user` hooks and `times(2)`) are outside this model, so it is modelled as written and not reported as a defect.

## Model

| member | source | states |
|---|---|---|
| MachineInt.ToI64 | api/arceos_posix_api/src/imp/fs.rs:59-60 | `as i64` of a `u64` (and `as isize` of the tick count, `modules/axtask/src/times.rs:66`) is the value congruent modulo 2^64 in the signed range |
| MachineInt.ToU64 | api/arceos_posix_api/src/imp/fs.rs:179 | `st_size as usize` is the value congruent modulo 2^64 in the unsigned range |
| MachineInt.CastsRoundTrip | api/arceos_posix_api/src/imp/fs.rs:59-60 | the two casts undo each other, so `read_file` sees the size the backend reported |
| PosixFs.OptionsOf | api/arceos_posix_api/src/imp/fs.rs:147-175 | the options the flags denote always include read or write, and never `execute` |
| PosixFs.FlagsToOptions | api/arceos_posix_api/src/imp/fs.rs:147-175 | the setter sequence on a fresh `OpenOptions` produces exactly the options the flag bits denote (`OptionsOf`); `mode` plays no part |
| PosixFs.AccessModeDecoding | api/arceos_posix_api/src/imp/fs.rs:150-157 | low bits 0 give read only, 1 write only, 2 and 3 read and write; at least one of read/write is always set |
| PosixFs.EachFlagSetsItsOption | api/arceos_posix_api/src/imp/fs.rs:158-173 | adding `O_APPEND`, `O_TRUNC`, `O_CREAT`, `O_EXEC` or `O_DIRECTORY` to any flags sets exactly the option that bit names and leaves every other option unchanged |
| PosixFs.ExecuteNeverSet | api/arceos_posix_api/src/imp/fs.rs:167-170 | no flags select `execute`; `O_EXEC` selects `create_new` instead |
| PosixFs.UnrecognisedBitsIgnored | api/arceos_posix_api/src/imp/fs.rs:147-175 | flags that agree on the recognised bits give the same options |
| PosixFs.LowestFree | api/arceos_posix_api/src/imp/fs.rs:27-29 | the descriptor found is free, below the capacity, and every smaller one at or above the start is in use; no result means all of them are in use |
| PosixFs.AddFileLike | api/arceos_posix_api/src/imp/fs.rs:27-29 | registration fails (with `EMFILE`) exactly when every descriptor below the capacity is in use; otherwise the object is stored at the smallest free descriptor and nothing else changes |
| PosixFs.FileFromFd | api/arceos_posix_api/src/imp/fs.rs:31-36 | `File::from_fd` succeeds exactly on a descriptor holding a `File` and yields its handle; otherwise `EINVAL` for a `Directory` and `EBADF` for an unused descriptor |
| PosixFs.AddFileLikeKeepsValid | api/arceos_posix_api/src/imp/fs.rs:27-29 | registration keeps every used descriptor inside `[0, capacity)` |
| PosixFs.NegativeDescriptorIsBad | api/arceos_posix_api/src/imp/fs.rs:31-36 | in such a table a negative descriptor is never in use, so lookup and both downcasts give `EBADF` |
| PosixFs.DirectoryFromFd | api/arceos_posix_api/src/imp/fs.rs:105-110 | a successful `Directory::from_fd` yields a `Directory` |
| PosixFs.FromFdOutcomes | api/arceos_posix_api/src/imp/fs.rs:31-36 | an unknown descriptor gives `EBADF` from both downcasts; an object of the other kind gives `EINVAL`; a matching one is returned |
| PosixFs.DirRetryOptions | api/arceos_posix_api/src/imp/fs.rs:272-274 | the retry options have `execute` on and `create_new` off, and every other option as given |
| PosixFs.FinishStep | api/arceos_posix_api/src/imp/fs.rs:264-281 | registering an opened object leaves the table consistent and stores that object at the returned descriptor |
| PosixFs.AddFileOrDirectoryFd | api/arceos_posix_api/src/imp/fs.rs:253-282 | the table step holds (unchanged on error, one object at the smallest free descriptor on success); the file open comes first, and a second call, if any, is the directory open with the retry options |
| PosixFs.FallbackLemma | api/arceos_posix_api/src/imp/fs.rs:253-282 | the file open always comes first; the directory open (with the retry options) is issued exactly when the file open or its registration failed; its error is then the result; a success stores a `File` or a `Directory` with the given path; the table stays consistent |
| PosixFs.FullTableError | api/arceos_posix_api/src/imp/fs.rs:264-278 | with the table full, a file that opened is still dropped for the directory retry; the caller sees the retry's error, or `EMFILE`; the table is unchanged |
| PosixFs.SysOpen | api/arceos_posix_api/src/imp/fs.rs:201-216 | the table step holds for all arguments; a bad filename is the error with no backend call; at most two opens are issued |
| PosixFs.SysOpenDirectoryOnly | api/arceos_posix_api/src/imp/fs.rs:205-208 | with `O_DIRECTORY`, `sys_open` issues a single directory open with the options as decoded, never a file open; its error is the result with the table unchanged, and a success registers `Directory(handle, filename)` at the smallest free descriptor |
| PosixFs.SysOpenFallsBack | api/arceos_posix_api/src/imp/fs.rs:209-214 | without `O_DIRECTORY`, `sys_open` is the fallback over the cwd-based backend opens |
| PosixFs.SysOpenat | api/arceos_posix_api/src/imp/fs.rs:218-249 | the table step holds for all arguments; a bad filename gives the bare -1 (`EPERM`) with no backend call; at most two opens are issued |
| PosixFs.DirfdRouting | api/arceos_posix_api/src/imp/fs.rs:236-248 | for `openat`, `mkdirat` and `unlinkat`: an absolute path or `AT_FDCWD` acts as the plain call; otherwise an unknown `dirfd` is `EBADF`, a `File` is `EINVAL` (table untouched, no backend call), and a `Directory` has the operation done on its handle: for `openat` the fallback runs over `open_file_at`/`open_dir_at` of that handle, storing the opened `File`, or the retry's error, or the opened `Directory` |
| PosixFs.SysMkdirat | api/arceos_posix_api/src/imp/fs.rs:350-365 | success is 0, needs a converted path, and for a path relative to `dirfd` needs a `Directory` at `dirfd` |
| PosixFs.SysUnlinkat | api/arceos_posix_api/src/imp/fs.rs:412-427 | success is 0, needs a converted path, and for a path relative to `dirfd` needs a `Directory` at `dirfd` |
| PosixFs.BadPathArgument | api/arceos_posix_api/src/imp/fs.rs:230-232 | a path argument that does not convert is the error of `open`, `mkdirat`, `unlinkat`, `chdir` and `rename` before any backend call; `openat` returns a bare -1 instead |
| PosixFs.SysChdir | api/arceos_posix_api/src/imp/fs.rs:367-374 | succeeds, with 0, exactly when the path converts and `set_current_dir` succeeds |
| PosixFs.SysRename | api/arceos_posix_api/src/imp/fs.rs:400-408 | succeeds, with 0, exactly when both paths convert and the backend rename succeeds |
| PosixFs.PassThroughCalls | api/arceos_posix_api/src/imp/fs.rs:367-408 | `chdir` and `rename` succeed, with 0, exactly when the backend call does, and otherwise return its error |
| PosixFs.WhenceToSeekFrom | api/arceos_posix_api/src/imp/fs.rs:290-295 | a seek position exists exactly for whence 0, 1 and 2 |
| PosixFs.SysLseek | api/arceos_posix_api/src/imp/fs.rs:287-299 | a whence outside 0..2 is `EINVAL`; a valid whence on an unknown descriptor is `EBADF`; a success needs a `File` at `fd` |
| PosixFs.LseekWhence | api/arceos_posix_api/src/imp/fs.rs:287-299 | whence 0, 1, 2 select start (offset as `u64`), current and end; any other whence is `EINVAL` whatever the descriptor; a valid whence on an unknown descriptor is `EBADF`; a `File` is sought through the backend, a `Directory` is `EINVAL` |
| PosixFs.ModeWord | api/arceos_posix_api/src/imp/fs.rs:50-52 | the low 12 bits of the mode word are those of the permissions, and when the permissions fit in 12 bits the bits from 12 up are the file type |
| PosixFs.StatFromMetadata | api/arceos_posix_api/src/imp/fs.rs:48-64 | `File::stat` has inode and link count 1, uid and gid 1000, block size 512, the packed mode word, the backend's size and block count (recovered by the cast back), and everything else zero |
| PosixFs.FileLikeStat | api/arceos_posix_api/src/imp/fs.rs:48-64 | a `Directory` gives `EBADF`; any record returned has inode 1, uid and gid 1000 and block size 512 |
| PosixFs.FileLikeRead | api/arceos_posix_api/src/imp/fs.rs:40-42 | a `Directory` gives `EBADF`; a `File` gives its backend handle's answer |
| PosixFs.FileLikeWrite | api/arceos_posix_api/src/imp/fs.rs:44-46 | a `Directory` gives `EBADF`; a `File` gives its backend handle's answer |
| PosixFs.FileLikePoll | api/arceos_posix_api/src/imp/fs.rs:70-75 | always readable; writable exactly for a `File` |
| PosixFs.FileLikeSetNonblocking | api/arceos_posix_api/src/imp/fs.rs:77-79 | always accepted |
| PosixFs.DirectoryCapabilities | api/arceos_posix_api/src/imp/fs.rs:117-144 | a `Directory` refuses read, write and stat with `EBADF`, polls readable and not writable, and accepts `set_nonblocking` |
| PosixFs.FileCapabilities | api/arceos_posix_api/src/imp/fs.rs:39-80 | a `File` passes read, write and attribute queries to its backend handle and polls readable and writable |
| PosixFs.SysStat | api/arceos_posix_api/src/imp/fs.rs:304-318 | a null buffer is `EFAULT`; a record returned needs a converted path and has inode and link count 1 and block size 512 |
| PosixFs.SysFstat | api/arceos_posix_api/src/imp/fs.rs:323-333 | a null buffer is `EFAULT`; a record returned needs a `File` at `fd` |
| PosixFs.SysLstat | api/arceos_posix_api/src/imp/fs.rs:338-348 | fails exactly for a null buffer, with `EFAULT`; otherwise the all-zero record |
| PosixFs.StatEntryPoints | api/arceos_posix_api/src/imp/fs.rs:304-348 | a null buffer is `EFAULT` for `stat`, `fstat` and `lstat` before anything else; a bad path is `stat`'s error; `stat` opens the path read-only and reports its `File::stat`, passing through the error of the open or of the stat; `fstat` of a `File` reports that file's `File::stat` or passes on its error; `fstat` of an unknown descriptor or a `Directory` is `EBADF`; `lstat` gives the all-zero record whatever its path |
| PosixFs.ReadFileSpec | api/arceos_posix_api/src/imp/fs.rs:177-195 | a returned buffer is at most `size` bytes and comes from a `File` at `fd` |
| PosixFs.ReadFile | api/arceos_posix_api/src/imp/fs.rs:177-195 | the method's result is `ReadFileSpec`: lookup, stat, downcast to `File` (`EBADF`), offset check (`EINVAL`), a zeroed buffer of the bounded length filled by `read_at` |
| PosixFs.ReadFileBounds | api/arceos_posix_api/src/imp/fs.rs:186-191 | a returned buffer has length `min(size, file_size - offset)` and never reaches past the end of the file; its bytes are those `read_at` returns at `offset`, zero-padded, and an error of that `read_at` is passed through; an offset at or past the end is `EINVAL`; a `Directory` is `EBADF` |
| PosixFs.SysGetcwd | api/arceos_posix_api/src/imp/fs.rs:377-394 | a null buffer gives a null result; when the cwd is shorter than `size` it is copied to the buffer's start with a terminating zero and no later byte changes; otherwise `ERANGE` with the buffer untouched (so `size == len + 1` succeeds and `size == len` fails); an error of `current_dir` is passed on |
| TaskTimes.IsValidState | modules/axtask/src/times.rs:122-127 | valid only with a known mode and a timestamp other than -1; `Kernel(-1)`, `User(-1)` and `None` are invalid |
| TaskTimes.ToWait | modules/axtask/src/times.rs:114-120 | the mode is kept and a known mode's timestamp becomes -1 |
| TaskTimes.Restarted | modules/axtask/src/times.rs:69-79 | the mode is kept and a known mode's timestamp becomes `now` |
| TaskTimes.Updated | modules/axtask/src/times.rs:95-112 | the result is never valid, keeps the mode, and changes at most one accumulator |
| TaskTimes.TmsNewEmpty | modules/axtask/src/times.rs:15-22 | every field of the empty record is zero |
| TaskTimes.CreateFromTimes | modules/axtask/src/times.rs:24-31 | the process's `utime`/`stime` become `tms_utime`/`tms_stime`, the children's become `tms_cutime`/`tms_cstime` |
| TaskTimes.Times.constructor | modules/axtask/src/times.rs:50-56 | starts as `User(-1)` with nothing accumulated, so `is_valid()` is false |
| TaskTimes.Times.IsValid | modules/axtask/src/times.rs:122-127 | a valid `Times` has a known mode and a timestamp other than -1 |
| TaskTimes.Times.Add | modules/axtask/src/times.rs:58-61 | component-wise sum of the accumulators, `start_time` untouched |
| TaskTimes.Times.SetStartTime | modules/axtask/src/times.rs:81-87 | `Kernel(t)` or `User(t)` as asked; accumulators untouched |
| TaskTimes.Times.SetCurrTime | modules/axtask/src/times.rs:64-67 | the interval opens at the tick count cast to `isize` |
| TaskTimes.Times.ResetTime | modules/axtask/src/times.rs:69-79 | the kind is kept and only its timestamp replaced; `None` stays `None`; accumulators untouched |
| TaskTimes.Times.ChangeToWait | modules/axtask/src/times.rs:114-120 | the kind is kept and its timestamp becomes -1; accumulators untouched |
| TaskTimes.Times.UpdateTime | modules/axtask/src/times.rs:95-112 | the new state is `Updated` of the old; an invalid state is unchanged; from `Kernel(s)` `stime` becomes `cur - s`, from `User(s)` `utime` does, the other accumulator is kept, and the interval is closed |
| TaskTimes.Times.UpdateTimeByCurr | modules/axtask/src/times.rs:89-92 | `update_time` at the tick count cast to `isize` |
| TaskTimes.NewIsWaiting | modules/axtask/src/times.rs:50-56 | the initial state is not valid, so `update_time` leaves it as it is |
| TaskTimes.NewSnapshotIsEmpty | modules/axtask/src/times.rs:15-31 | a snapshot of two initial `Times` is the empty `Tms` |
| TaskTimes.UpdateInvalidIsNoop | modules/axtask/src/times.rs:96-99 | on a waiting or `None` state `update_time` changes nothing |
| TaskTimes.UpdateAssignsElapsed | modules/axtask/src/times.rs:100-111 | from an open kernel interval starting at `t`, `stime` becomes `cur - t` and `utime` is kept; from a user one the roles swap; the kind stays, with timestamp -1 |
| TaskTimes.UpdateClosesInterval | modules/axtask/src/times.rs:111-127 | after `update_time` the state is invalid, a second `update_time` is a no-op, and the kind is kept |
| TaskTimes.UpdateKeepsOnlyLastInterval | modules/axtask/src/times.rs:100-107 | two user intervals of 5 and 10 ticks leave `utime` at 10, not 15: the update assigns rather than accumulates |
| TaskTimes.RestartKeepsMode | modules/axtask/src/times.rs:69-79 | `reset_time` keeps the kind, leaves `None` alone, and the result is valid exactly when the kind is known and the new timestamp is not -1 |
| TaskTimes.SmallTicksOpenInterval | modules/axtask/src/times.rs:64-67 | a tick count below 2^63 never casts to the -1 sentinel, so `set_curr_time` always opens an interval |
| Mount.ToRootPath | modules/axfs/src/api/mount.rs:46-60 | the empty path is `InvalidInput` and nothing else fails; an absolute path is kept; a relative one has the length of `cwd + "/" + path` less any leading `./` |
| Mount.RelativeJoin | modules/axfs/src/api/mount.rs:53-59 | a relative path is `cwd`, `/`, and the path minus exactly one leading `./` |
| Mount.NoCollapsing | modules/axfs/src/api/mount.rs:53-59 | `././a` keeps its second `./` and `../a` is not resolved |
| Mount.ToRootPathAbsolute | modules/axfs/src/api/mount.rs:50-59 | with an absolute (or empty) cwd every accepted path becomes absolute |
| Mount.ToRootPathIdempotent | modules/axfs/src/api/mount.rs:50-59 | with such a cwd, normalising the result again returns it unchanged |
| Mount.RelativeCwdNotIdempotent | modules/axfs/src/api/mount.rs:53-59 | with a relative cwd the join is applied again: `b` becomes `a/b`, then `a/a/b` |
| Mount.Root.Mount | modules/axfs/src/api/mount.rs:7-37 | an unknown source gives -1 and the table is untouched; otherwise the filesystem is stored under the normalised target and 0 returned when attaching is accepted, -1 with the table untouched when not |
| Mount.Root.Unmount | modules/axfs/src/api/mount.rs:39-44 | the normalised target is detached and 0 is returned |
| Mount.MountThenUnmount | modules/axfs/src/api/mount.rs:25-44 | a mount followed by an unmount of the same target leaves no mount point at its normalised path |
| CtypesExt.Utime | api/arceos_posix_api/src/ctypes_ext.rs:11-19 | the new value is the clock reading, the old value or the argument, and the argument whenever its `tv_nsec` is not a sentinel |
| CtypesExt.Timespec.SetAsUtime | api/arceos_posix_api/src/ctypes_ext.rs:11-19 | `UTIME_NOW` stores the clock reading, `UTIME_OMIT` keeps the old value, any other `tv_nsec` stores the argument; the new value is `Utime` of the old |
| CtypesExt.UtimeNowTakesClock | api/arceos_posix_api/src/ctypes_ext.rs:13-15 | `UTIME_NOW` yields the clock reading whatever the old value |
| CtypesExt.UtimeOmitKeeps | api/arceos_posix_api/src/ctypes_ext.rs:16 | `UTIME_OMIT` yields the old value whatever the clock |
| CtypesExt.UtimeLiteralCopies | api/arceos_posix_api/src/ctypes_ext.rs:17 | any other `tv_nsec` yields the argument's `tv_sec` and `tv_nsec` |
| CtypesExt.ExactlyOneCase | api/arceos_posix_api/src/ctypes_ext.rs:3-4 | the two sentinels differ, so exactly one of the three cases applies |
| CtypesExt.OnlyNsecInspected | api/arceos_posix_api/src/ctypes_ext.rs:12 | for the sentinels, the argument's `tv_sec` has no effect |
| CtypesExt.UtimeIdempotent | api/arceos_posix_api/src/ctypes_ext.rs:12-18 | applying the same argument twice (with the same clock reading) is applying it once |
| AxSyscall.Route | modules/axsyscall/src/lib.rs:18-80 | a number that reaches a handler is that handler's registered number |
| AxSyscall.DoSyscall | modules/axsyscall/src/lib.rs:18-63 | an unregistered number answers 0; `uname` answers 0; a delegated call goes to the handler its number routes to |
| AxSyscall.LinuxSyscallClose | modules/axsyscall/src/lib.rs:126-129 | always 0 |
| AxSyscall.LinuxSyscallExitGroup | modules/axsyscall/src/lib.rs:236-239 | always 0 |
| AxSyscall.LinuxSyscallFstatat | modules/axsyscall/src/lib.rs:158-171 | the fixed answer 0 exactly when `AT_EMPTY_PATH` is clear; otherwise the call goes to `fileops::fstatat` |
| AxSyscall.RouteInvertsNumber | modules/axsyscall/src/lib.rs:18-80 | the syscall numbers are pairwise distinct: each handler is reached by its own number and by no other |
| AxSyscall.UnknownMeansUnregistered | modules/axsyscall/src/lib.rs:59-61 | a number falls to the default arm exactly when it is none of the thirteen registered numbers |
| AxSyscall.DispatchOutcomes | modules/axsyscall/src/lib.rs:18-63 | `readlinkat` returns `usize::MAX`; `close`, `exit_group`, `uname` and unknown numbers return 0; `fstatat` has the fixed answer 0 exactly when `AT_EMPTY_PATH` is clear and goes to its handler otherwise; every other known number goes to its own handler, and a delegated call only to that one |
| AxSyscall.LinuxExitGroupNumberUnrouted | modules/axsyscall/src/lib.rs:56-76 | 0x5e, the RISC-V 64 Linux `exit_group`, is unregistered and answers 0, while 0x53 reaches the `exit_group` stub |
| AxSyscall.GetStrLen | modules/axsyscall/src/lib.rs:87-93 | given a NUL at or after `ptr`, the length is the distance to the first one: that byte is zero and every earlier byte is not |
| AxSyscall.GetUserStr | modules/axsyscall/src/lib.rs:99-116 | the string is the memory from `ptr` up to the first NUL, and contains no zero byte |
| AxSyscall.Padded | modules/axsyscall/src/lib.rs:209-216 | the text at the front and zeros behind it, to the full field length |
| AxSyscall.InitBytesFromStr | modules/axsyscall/src/lib.rs:209-216 | given `len(src) <= len(dst)`, the field becomes `src` followed by zeros to its full length |
| AxSyscall.Utsname.constructor | modules/axsyscall/src/lib.rs:181-191 | six distinct fields of `UTS_LEN + 1` bytes |
| AxSyscall.LinuxSyscallUname | modules/axsyscall/src/lib.rs:193-207 | every field holds its fixed text zero-padded to 65 bytes, and 0 is returned, which is `DoSyscall`'s answer for `uname` |
| AxSyscall.PaddedIsTerminated | modules/axsyscall/src/lib.rs:209-216 | a text shorter than its field stays NUL-terminated inside it |

## Left out

- **Errno encoding.** `syscall_body!` turns a result into a C return value, and that encoding is not modelled. Entry points return the `LinuxResult` itself, and `sys_lseek` returns the `u64` offset before its cast to `off_t`.
- **The backend.** The backend filesystem (`axfs::fops`, `axfs::api`) only supplies answers. What a real driver does with an open, read, seek, mkdir, remove, rename or chdir is not modelled.
- **Open flag values.** `ctypes` is not part of this model, so the flag bits are the generic Linux values of musl's `fcntl.h` (`O_CREAT` 0o100, `O_TRUNC` 0o1000, `O_APPEND` 0o2000, `O_DIRECTORY` 0o200000, `O_EXEC` 0o10000000). The flag lemmas rely only on these being distinct single bits outside the access-mode bits `0x3`.
- **The descriptor table.** `fd_ops` is not part of this model. `PosixFs.FdTable` assumes the smallest free descriptor below a fixed capacity. The routing, `lseek` and stat lemmas hold for every table, well formed (`PosixFs.ValidTable`) or not; in a well-formed one a negative descriptor is `EBADF` (`PosixFs.NegativeDescriptorIsBad`). Closing a descriptor does not appear in the modelled code.
- **Path decoding.** `char_ptr_to_str` is not part of this model: a path argument is the converted string or an error of unspecified kind. The UTF-8 check of `raw_ptr_to_ref_str` and its panic are left out, along with `enable_sum`/`disable_sum`.
- **Locking.** The `Mutex` around backend handles only provides mutual exclusion and has no sequential meaning. Concurrent access to the descriptor table and the mount table is not modelled.
- **`sys_mount` and `sys_umount`** forward unchanged to `mount`/`unmount`, which are `Mount.Root.Mount` and `Mount.Root.Unmount`.
- **`Directory::path`** is the `path` field of the `Directory` variant. `Directory::from_path` is the directory branch of `PosixFs.SysOpen`.
- **Driving `Times`.** The `into_kernel`/`into_user` hooks (`times.rs:130-148`, feature-gated trap plumbing) and `current()` are left out. Tick counts and wall-clock readings are parameters.
- **`modules/axfs/src/api/times.rs`** has only feature-gated `todo!()` and foreign calls, and `trap_kernel.rs` only handler tables, so neither is modelled.
- **The other syscall handlers.** `openat`, `read`, `write`, `writev`, `fstatat` with `AT_EMPTY_PATH`, `mmap`, `brk`, `munmap` and `exit` forward to `fileops`, `mmap`, `memory_addr` and `task`, which are not part of this model, so they appear only as `Delegates(handler)`. `uname` is not among them: its answer is the fixed 0 and its struct write is `LinuxSyscallUname`. This also covers `mmap`'s alignment assertion, `brk`'s `align_up_4k` and `munmap`'s `unimplemented!()` panic.
- TaskTimes.Times.Add: `isize` overflow of the accumulators is not modelled (integers are unbounded), and the source would panic or wrap there.
- TaskTimes.Times.UpdateTime: `cur - start` is unbounded subtraction, whereas the source's `isize` subtraction would overflow for extreme values.
- Mount.ToRootPath: `root::current_dir()` is taken to be infallible, so the `?` on it is not modelled.
- Mount.Root.Mount: the `unwrap` panics on non-UTF-8 C strings are left out. The panic of `to_root_path(target).unwrap()` on an empty target is stated as a precondition that applies once the source has been found. `Unmount` has the same precondition unconditionally. `root::mount_fs` is not part of this model, so whether it accepts the attach is the `attachAccepted` input.
- AxSyscall.LinuxSyscallUname: the null-pointer `unwrap` panic is left out. The six fields are taken to be distinct buffers, as the fields of a C struct are.
- PosixFs.ReadFile: the byte count `read_at` returns is ignored, as in the source. A short read leaves the rest of the buffer zero, which is what `Filled` states.
