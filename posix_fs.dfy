/**
 * The POSIX file layer (api/arceos_posix_api/src/imp/fs.rs).
 *
 * The backend filesystem (`axfs::fops`, `axfs::api`) is the datatype
 * `Backend`, whose fields are the backend entry points as total functions;
 * what they answer is an input of every operation here. The file descriptor
 * table (`fd_ops::add_file_like` / `get_file_like`) is the value `FdTable`:
 * lookup fails with `EBADF`, insertion takes the smallest free descriptor
 * below a fixed capacity and fails with `EMFILE` when there is none. The two
 * kinds of file-like object, `File` and `Directory`, are the variants of
 * `FileLike`; a downcast is a test of the variant.
 *
 * Entry points return the `LinuxResult` that `syscall_body!` turns into a C
 * return value; that encoding is not modelled.
 */
module PosixFs {
  import opened Errors
  import opened CtypesExt
  import opened MachineInt

  // ---------------------------------------------------------------------
  // Open flags and options
  // ---------------------------------------------------------------------

  // Open flag bits of the generic Linux ABI (musl's <fcntl.h>).
  const O_RDONLY: bv32 := 0
  const O_WRONLY: bv32 := 1
  const O_CREAT: bv32 := 0x40        // 0o100
  const O_TRUNC: bv32 := 0x200       // 0o1000
  const O_APPEND: bv32 := 0x400      // 0o2000
  const O_DIRECTORY: bv32 := 0x1_0000  // 0o200000
  const O_EXEC: bv32 := 0x20_0000    // 0o10000000, the same bit as O_PATH

  /** The only bits `flags_to_options` looks at. */
  const RECOGNISED: bv32 := 0x3 | O_APPEND | O_TRUNC | O_CREAT | O_EXEC | O_DIRECTORY

  const AT_FDCWD: int := -100

  /** `axfs::fops::OpenOptions`. */
  datatype OpenOptions = OpenOptions(
    read: bool, write: bool, execute: bool, append: bool,
    truncate: bool, create: bool, createNew: bool, directory: bool)

  /** `OpenOptions::new()`: nothing set. */
  const NoOptions := OpenOptions(false, false, false, false, false, false, false, false)

  /**
   * What the open flags denote, bit by bit: the low two bits select read,
   * write or both (both for 2 and for 3), `O_APPEND`, `O_TRUNC`, `O_CREAT`
   * and `O_DIRECTORY` select their own option, `O_EXEC` selects
   * `create_new`, and nothing selects `execute`.
   */
  function OptionsOf(flags: bv32): (r: OpenOptions)
    ensures r.read || r.write
    ensures !r.execute
  {
    var access := flags & 0x3;
    OpenOptions(
      read := access != O_WRONLY,
      write := access != O_RDONLY,
      execute := false,
      append := flags & O_APPEND != 0,
      truncate := flags & O_TRUNC != 0,
      create := flags & O_CREAT != 0,
      createNew := flags & O_EXEC != 0,
      directory := flags & O_DIRECTORY != 0)
  }

  /** `flags_to_options(flags, mode)`: successive setter calls on a fresh `OpenOptions`; `mode` is ignored. */
  method FlagsToOptions(flags: bv32, mode: bv32) returns (options: OpenOptions)
    ensures options == OptionsOf(flags)
  {
    options := NoOptions;
    var access := flags & 0x3;
    if access == O_RDONLY {
      options := options.(read := true);
    } else if access == O_WRONLY {
      options := options.(write := true);
    } else {
      options := options.(read := true);
      options := options.(write := true);
    }
    if flags & O_APPEND != 0 {
      options := options.(append := true);
    }
    if flags & O_TRUNC != 0 {
      options := options.(truncate := true);
    }
    if flags & O_CREAT != 0 {
      options := options.(create := true);
    }
    if flags & O_EXEC != 0 {
      options := options.(createNew := true);
    }
    if flags & O_DIRECTORY != 0 {
      options := options.(directory := true);
    }
  }

  /** Access mode: read-only, write-only, and read+write for every other value of the low two bits. */
  lemma AccessModeDecoding(flags: bv32)
    ensures flags & 0x3 == O_RDONLY ==> OptionsOf(flags).read && !OptionsOf(flags).write
    ensures flags & 0x3 == O_WRONLY ==> !OptionsOf(flags).read && OptionsOf(flags).write
    ensures flags & 0x3 != O_RDONLY && flags & 0x3 != O_WRONLY ==>
              OptionsOf(flags).read && OptionsOf(flags).write
    ensures OptionsOf(flags).read || OptionsOf(flags).write
  {
  }

  /** The option each single-bit flag names; `O_EXEC` names `create_new`. */
  function OptionOfBit(o: OpenOptions, bit: bv32): OpenOptions
  {
    if bit == O_APPEND then o.(append := true)
    else if bit == O_TRUNC then o.(truncate := true)
    else if bit == O_CREAT then o.(create := true)
    else if bit == O_EXEC then o.(createNew := true)
    else if bit == O_DIRECTORY then o.(directory := true)
    else o
  }

  /** Setting one of the single-bit flags sets exactly its own option and leaves every other one as it was. */
  lemma EachFlagSetsItsOption(flags: bv32, bit: bv32)
    requires bit in {O_APPEND, O_TRUNC, O_CREAT, O_EXEC, O_DIRECTORY}
    ensures OptionsOf(flags | bit) == OptionOfBit(OptionsOf(flags), bit)
  {
  }

  /** No flag selects `execute`. */
  lemma ExecuteNeverSet(flags: bv32)
    ensures !OptionsOf(flags).execute
    ensures OptionsOf(flags | O_EXEC).createNew && !OptionsOf(flags | O_EXEC).execute
  {
  }

  /** No bit outside the recognised ones changes the options. */
  lemma UnrecognisedBitsIgnored(f1: bv32, f2: bv32)
    requires f1 & RECOGNISED == f2 & RECOGNISED
    ensures OptionsOf(f1) == OptionsOf(f2)
  {
    assert f1 & 0x3 == (f1 & RECOGNISED) & 0x3;
    assert f2 & 0x3 == (f2 & RECOGNISED) & 0x3;
    assert f1 & O_APPEND == (f1 & RECOGNISED) & O_APPEND;
    assert f2 & O_APPEND == (f2 & RECOGNISED) & O_APPEND;
    assert f1 & O_TRUNC == (f1 & RECOGNISED) & O_TRUNC;
    assert f2 & O_TRUNC == (f2 & RECOGNISED) & O_TRUNC;
    assert f1 & O_CREAT == (f1 & RECOGNISED) & O_CREAT;
    assert f2 & O_CREAT == (f2 & RECOGNISED) & O_CREAT;
    assert f1 & O_EXEC == (f1 & RECOGNISED) & O_EXEC;
    assert f2 & O_EXEC == (f2 & RECOGNISED) & O_EXEC;
    assert f1 & O_DIRECTORY == (f1 & RECOGNISED) & O_DIRECTORY;
    assert f2 & O_DIRECTORY == (f2 & RECOGNISED) & O_DIRECTORY;
  }

  // ---------------------------------------------------------------------
  // Backend, file-like objects, descriptor table
  // ---------------------------------------------------------------------

  datatype FileHandle = FileHandle(id: nat)
  datatype DirHandle = DirHandle(id: nat)

  /** The file-like objects of this layer; a `Directory` keeps the path it was opened with. */
  datatype FileLike = File(file: FileHandle) | Directory(dir: DirHandle, path: string)

  /** What the backend's `get_attr` reports. */
  datatype Metadata = Metadata(fileType: bv8, perm: bv16, size: U64, blocks: U64)

  datatype SeekFrom = Start(pos: U64) | Current(delta: I64) | End(delta: I64)

  datatype Backend = Backend(
    openFile: (string, OpenOptions) -> Result<FileHandle, LinuxError>,
    openDir: (string, OpenOptions) -> Result<DirHandle, LinuxError>,
    openFileAt: (DirHandle, string, OpenOptions) -> Result<FileHandle, LinuxError>,
    openDirAt: (DirHandle, string, OpenOptions) -> Result<DirHandle, LinuxError>,
    getAttr: FileHandle -> Result<Metadata, LinuxError>,
    read: (FileHandle, nat) -> Result<nat, LinuxError>,
    write: (FileHandle, seq<bv8>) -> Result<nat, LinuxError>,
    readAt: (FileHandle, U64, nat) -> Result<seq<bv8>, LinuxError>,
    seek: (FileHandle, SeekFrom) -> Result<U64, LinuxError>,
    createDir: string -> Result<(), LinuxError>,
    createDirAt: (DirHandle, string) -> Result<(), LinuxError>,
    removeFile: string -> Result<(), LinuxError>,
    removeFileAt: (DirHandle, string) -> Result<(), LinuxError>,
    setCurrentDir: string -> Result<(), LinuxError>,
    rename: (string, string) -> Result<(), LinuxError>)

  /**
   * A C string argument after `char_ptr_to_str`: the path, or the error the
   * conversion reported (a null pointer, say); `utils` is not part of this
   * model, so which error is left open.
   */
  type PathArg = Result<string, LinuxError>

  datatype FdTable = FdTable(entries: map<int, FileLike>, capacity: nat)

  /** `get_file_like(fd)`. */
  function GetFileLike(t: FdTable, fd: int): (r: Result<FileLike, LinuxError>)
  {
    if fd in t.entries then Ok(t.entries[fd]) else Err(EBADF)
  }

  /** The smallest descriptor at or above `from` and below the capacity that is not in use. */
  function LowestFree(t: FdTable, from: nat): (r: Option<nat>)
    decreases t.capacity - from
    ensures r.Some? ==> from <= r.value < t.capacity && r.value !in t.entries
    ensures r.Some? ==> forall k :: from <= k < r.value ==> k in t.entries
    ensures r.None? ==> forall k :: from <= k < t.capacity ==> k in t.entries
  {
    if from >= t.capacity then None
    else if from !in t.entries then Some(from)
    else LowestFree(t, from + 1)
  }

  datatype Registered = Registered(fd: int, table: FdTable)

  /** `add_file_like(obj)`: the smallest free descriptor, or `EMFILE` when every one is in use. */
  function AddFileLike(t: FdTable, obj: FileLike): (r: Result<Registered, LinuxError>)
    ensures r.Err? <==> forall k :: 0 <= k < t.capacity ==> k in t.entries
    ensures r.Err? ==> r.error == EMFILE
    ensures r.Ok? ==>
      && 0 <= r.value.fd < t.capacity
      && r.value.fd !in t.entries
      && (forall k :: 0 <= k < r.value.fd ==> k in t.entries)
      && r.value.table == t.(entries := t.entries[r.value.fd := obj])
  {
    match LowestFree(t, 0)
    case None => Err(EMFILE)
    case Some(fd) => Ok(Registered(fd, t.(entries := t.entries[fd := obj])))
  }

  /** `File::from_fd` / `Directory::from_fd`: the lookup, then the downcast, which fails with `EINVAL`. */
  function FileFromFd(t: FdTable, fd: int): (r: Result<FileHandle, LinuxError>)
    ensures r.Ok? <==> fd in t.entries && t.entries[fd].File?
    ensures r.Ok? ==> r.value == t.entries[fd].file
    ensures r.Err? ==> r.error == if fd in t.entries then EINVAL else EBADF
  {
    match GetFileLike(t, fd)
    case Err(e) => Err(e)
    case Ok(obj) => if obj.File? then Ok(obj.file) else Err(EINVAL)
  }

  function DirectoryFromFd(t: FdTable, fd: int): (r: Result<FileLike, LinuxError>)
    ensures r.Ok? ==> r.value.Directory?
  {
    match GetFileLike(t, fd)
    case Err(e) => Err(e)
    case Ok(obj) => if obj.Directory? then Ok(obj) else Err(EINVAL)
  }

  /** The downcasts: a missing descriptor is `EBADF`, an object of the other kind is `EINVAL`. */
  lemma FromFdOutcomes(t: FdTable, fd: int)
    ensures fd !in t.entries ==> FileFromFd(t, fd) == Err(EBADF) && DirectoryFromFd(t, fd) == Err(EBADF)
    ensures fd in t.entries && t.entries[fd].File? ==>
              FileFromFd(t, fd) == Ok(t.entries[fd].file) && DirectoryFromFd(t, fd) == Err(EINVAL)
    ensures fd in t.entries && t.entries[fd].Directory? ==>
              FileFromFd(t, fd) == Err(EINVAL) && DirectoryFromFd(t, fd) == Ok(t.entries[fd])
  {
  }

  /** Every descriptor in use lies in `[0, capacity)`, as the table hands them out. */
  ghost predicate ValidTable(t: FdTable)
  {
    forall fd :: fd in t.entries ==> 0 <= fd < t.capacity
  }

  /** Registration keeps the table well formed. */
  lemma AddFileLikeKeepsValid(t: FdTable, obj: FileLike)
    requires ValidTable(t)
    ensures AddFileLike(t, obj).Ok? ==> ValidTable(AddFileLike(t, obj).value.table)
  {
  }

  /** In a well-formed table a negative descriptor is never in use: every lookup through it is `EBADF`. */
  lemma NegativeDescriptorIsBad(t: FdTable, fd: int)
    requires ValidTable(t) && fd < 0
    ensures GetFileLike(t, fd) == Err(EBADF)
    ensures FileFromFd(t, fd) == Err(EBADF) && DirectoryFromFd(t, fd) == Err(EBADF)
  {
  }

  // ---------------------------------------------------------------------
  // Opening: the file-then-directory fallback
  // ---------------------------------------------------------------------

  /** A backend open issued by an open call, with the options it was given. */
  datatype OpenCall = OpenFileCall(path: string, options: OpenOptions) | OpenDirCall(path: string, options: OpenOptions)

  /** The result of an open entry point, the descriptor table after it, and the backend opens it issued in order. */
  datatype Opened = Opened(result: Result<int, LinuxError>, table: FdTable, calls: seq<OpenCall>)

  /** The options of the directory retry: `execute` forced on, `create_new` forced off. */
  function DirRetryOptions(options: OpenOptions): (r: OpenOptions)
    ensures r.execute && !r.createNew
    ensures r.(execute := options.execute, createNew := options.createNew) == options
  {
    options.(execute := true, createNew := false)
  }

  /** `.map(File::new).and_then(add_to_fd_table)`: wrap an opened object and register it. */
  function Register(t: FdTable, attempt: Result<FileLike, LinuxError>): (r: Result<Registered, LinuxError>)
  {
    match attempt
    case Err(e) => Err(e)
    case Ok(obj) => AddFileLike(t, obj)
  }

  function AsFile(r: Result<FileHandle, LinuxError>): Result<FileLike, LinuxError>
  {
    match r
    case Err(e) => Err(e)
    case Ok(h) => Ok(File(h))
  }

  function AsDirectory(r: Result<DirHandle, LinuxError>, path: string): Result<FileLike, LinuxError>
  {
    match r
    case Err(e) => Err(e)
    case Ok(d) => Ok(Directory(d, path))
  }

  /** The outcome of a registration attempt: its descriptor and table, or its error and the table untouched. */
  function Finish(t: FdTable, reg: Result<Registered, LinuxError>, calls: seq<OpenCall>): Opened
  {
    match reg
    case Ok(Registered(fd, t')) => Opened(Ok(fd), t', calls)
    case Err(e) => Opened(Err(e), t, calls)
  }

  /**
   * `add_file_or_directory_fd(open_file, open_dir, filename, options)`: open
   * as a file and register it; on any error of either step, open as a
   * directory with the retry options and register that instead.
   */
  function AddFileOrDirectoryFd(
    openFile: (string, OpenOptions) -> Result<FileHandle, LinuxError>,
    openDir: (string, OpenOptions) -> Result<DirHandle, LinuxError>,
    t: FdTable, filename: string, options: OpenOptions): (o: Opened)
    ensures TableStep(t, o)
    ensures 1 <= |o.calls| <= 2 && o.calls[0] == OpenFileCall(filename, options)
    ensures |o.calls| == 2 ==> o.calls[1] == OpenDirCall(filename, DirRetryOptions(options))
  {
    var asFile := Register(t, AsFile(openFile(filename, options)));
    if asFile.Ok? then
      Finish(t, asFile, [OpenFileCall(filename, options)])
    else
      var retry := DirRetryOptions(options);
      Finish(t, Register(t, AsDirectory(openDir(filename, retry), filename)),
             [OpenFileCall(filename, options), OpenDirCall(filename, retry)])
  }

  /**
   * The descriptor table stays consistent: a failed open leaves it as it
   * was; a successful one adds exactly one object, at the smallest free
   * descriptor.
   */
  ghost predicate TableStep(t: FdTable, o: Opened)
  {
    && (o.result.Err? ==> o.table == t)
    && (o.result.Ok? ==>
          var fd := o.result.value;
          && 0 <= fd < t.capacity
          && fd !in t.entries
          && (forall k :: 0 <= k < fd ==> k in t.entries)
          && fd in o.table.entries
          && o.table == t.(entries := t.entries[fd := o.table.entries[fd]]))
  }

  lemma FinishStep(t: FdTable, reg: Result<Registered, LinuxError>, calls: seq<OpenCall>, obj: FileLike)
    requires reg.Err? || reg == AddFileLike(t, obj)
    ensures TableStep(t, Finish(t, reg, calls))
    ensures Finish(t, reg, calls).result.Ok? ==>
              Finish(t, reg, calls).table.entries[Finish(t, reg, calls).result.value] == obj
  {
  }

  /**
   * The fallback: the file open is always tried first; the directory open
   * is tried exactly once, with the retry options, when the file open or its
   * registration failed, and then its outcome is the result (the file error
   * is dropped).
   */
  lemma FallbackLemma(
    openFile: (string, OpenOptions) -> Result<FileHandle, LinuxError>,
    openDir: (string, OpenOptions) -> Result<DirHandle, LinuxError>,
    t: FdTable, filename: string, options: OpenOptions)
    ensures var o := AddFileOrDirectoryFd(openFile, openDir, t, filename, options);
      var fileFailed := openFile(filename, options).Err? || AddFileLike(t, File(openFile(filename, options).value)).Err?;
      var dirOpened := openDir(filename, DirRetryOptions(options));
      && TableStep(t, o)
      && 1 <= |o.calls| <= 2
      && o.calls[0] == OpenFileCall(filename, options)
      && (|o.calls| == 2 <==> fileFailed)
      && (!fileFailed ==> o.result.Ok? && o.table.entries[o.result.value] == File(openFile(filename, options).value))
      && (fileFailed ==>
            && o.calls[1] == OpenDirCall(filename, DirRetryOptions(options))
            && (dirOpened.Err? ==> o.result == Err(dirOpened.error))
            && (dirOpened.Ok? ==> o == Finish(t, AddFileLike(t, Directory(dirOpened.value, filename)), o.calls))
            && (o.result.Ok? ==> o.table.entries[o.result.value] == Directory(dirOpened.value, filename)))
  {
    var asFile := Register(t, AsFile(openFile(filename, options)));
    if asFile.Ok? {
      FinishStep(t, asFile, [OpenFileCall(filename, options)], File(openFile(filename, options).value));
    } else {
      var retry := DirRetryOptions(options);
      var dirOpened := openDir(filename, retry);
      var reg := Register(t, AsDirectory(dirOpened, filename));
      var calls := [OpenFileCall(filename, options), OpenDirCall(filename, retry)];
      if dirOpened.Ok? {
        FinishStep(t, reg, calls, Directory(dirOpened.value, filename));
      } else {
        FinishStep(t, reg, calls, File(FileHandle(0)));
      }
    }
  }

  /**
   * With the descriptor table full, a successfully opened file is dropped,
   * the directory retry runs anyway, and the caller sees its error, or
   * `EMFILE` if the path also opens as a directory.
   */
  lemma FullTableError(
    openFile: (string, OpenOptions) -> Result<FileHandle, LinuxError>,
    openDir: (string, OpenOptions) -> Result<DirHandle, LinuxError>,
    t: FdTable, filename: string, options: OpenOptions)
    requires forall k :: 0 <= k < t.capacity ==> k in t.entries
    requires openFile(filename, options).Ok?
    ensures var o := AddFileOrDirectoryFd(openFile, openDir, t, filename, options);
      var dirOpened := openDir(filename, DirRetryOptions(options));
      && o.table == t
      && |o.calls| == 2
      && o.result == Err(if dirOpened.Err? then dirOpened.error else EMFILE)
  {
  }

  /**
   * `sys_open(filename, flags, mode)`: a bad filename is its error; with
   * `O_DIRECTORY` only a directory open, with the options as decoded;
   * otherwise the fallback.
   */
  function SysOpen(backend: Backend, t: FdTable, filename: PathArg, flags: bv32, mode: bv32): (o: Opened)
    ensures TableStep(t, o)
    ensures filename.Err? ==> o == Opened(Err(filename.error), t, [])
    ensures |o.calls| <= 2
  {
    var options := OptionsOf(flags);
    match filename
    case Err(e) => Opened(Err(e), t, [])
    case Ok(name) =>
      if options.directory then
        Finish(t, Register(t, AsDirectory(backend.openDir(name, options), name)),
               [OpenDirCall(name, options)])
      else
        AddFileOrDirectoryFd(backend.openFile, backend.openDir, t, name, options)
  }

  /** `O_DIRECTORY` makes `sys_open` skip the file attempt and the retry options. */
  lemma SysOpenDirectoryOnly(backend: Backend, t: FdTable, filename: string, flags: bv32, mode: bv32)
    requires flags & O_DIRECTORY != 0
    ensures SysOpen(backend, t, Ok(filename), flags, mode).calls == [OpenDirCall(filename, OptionsOf(flags))]
    ensures TableStep(t, SysOpen(backend, t, Ok(filename), flags, mode))
    ensures var d := backend.openDir(filename, OptionsOf(flags));
      var o := SysOpen(backend, t, Ok(filename), flags, mode);
      && (d.Err? ==> o.result == Err(d.error) && o.table == t)
      && (d.Ok? ==> o == Finish(t, AddFileLike(t, Directory(d.value, filename)), o.calls))
      && (o.result.Ok? ==> d.Ok? && o.table.entries[o.result.value] == Directory(d.value, filename))
  {
    var options := OptionsOf(flags);
    var d := backend.openDir(filename, options);
    FinishStep(t, Register(t, AsDirectory(d, filename)), [OpenDirCall(filename, options)],
               if d.Ok? then Directory(d.value, filename) else File(FileHandle(0)));
  }

  /** Without `O_DIRECTORY`, `sys_open` is the fallback over the cwd-based backend opens. */
  lemma SysOpenFallsBack(backend: Backend, t: FdTable, filename: string, flags: bv32, mode: bv32)
    requires flags & O_DIRECTORY == 0
    ensures SysOpen(backend, t, Ok(filename), flags, mode)
         == AddFileOrDirectoryFd(backend.openFile, backend.openDir, t, filename, OptionsOf(flags))
  {
  }

  /** The `dirfd` rule: an absolute path or `AT_FDCWD` means the current directory. */
  predicate UsesCwd(dirfd: int, path: string)
  {
    (|path| > 0 && path[0] == '/') || dirfd == AT_FDCWD
  }

  /**
   * `sys_openat(dirfd, filename, flags, mode)`: the cwd case is `sys_open`;
   * otherwise `dirfd` must be a `Directory` and the fallback runs on its
   * backend handle (even with `O_DIRECTORY`). A bad filename makes the call
   * return a bare -1 instead of an error code; a C caller reads that as
   * `-EPERM`, which is how it appears here.
   */
  function SysOpenat(backend: Backend, t: FdTable, dirfd: int, filename: PathArg, flags: bv32, mode: bv32): (o: Opened)
    ensures TableStep(t, o)
    ensures filename.Err? ==> o == Opened(Err(EPERM), t, [])
    ensures |o.calls| <= 2
  {
    match filename
    case Err(_) => Opened(Err(EPERM), t, [])
    case Ok(name) =>
      if UsesCwd(dirfd, name) then
        SysOpen(backend, t, Ok(name), flags, mode)
      else
        match DirectoryFromFd(t, dirfd)
        case Err(e) => Opened(Err(e), t, [])
        case Ok(dir) =>
          AddFileOrDirectoryFd(
            (p: string, o: OpenOptions) => backend.openFileAt(dir.dir, p, o),
            (p: string, o: OpenOptions) => backend.openDirAt(dir.dir, p, o),
            t, name, OptionsOf(flags))
  }

  /** `sys_mkdirat(dirfd, pathname, mode)`: a bad pathname is its error; `mode` is ignored. */
  function SysMkdirat(backend: Backend, t: FdTable, dirfd: int, pathArg: PathArg, mode: bv32): (r: Result<int, LinuxError>)
    ensures r.Ok? ==> r.value == 0 && pathArg.Ok?
    ensures r.Ok? && !UsesCwd(dirfd, pathArg.value) ==> dirfd in t.entries && t.entries[dirfd].Directory?
  {
    if pathArg.Err? then Err(pathArg.error)
    else
    var pathname := pathArg.value;
    if UsesCwd(dirfd, pathname) then
      match backend.createDir(pathname)
      case Ok(_) => Ok(0)
      case Err(e) => Err(e)
    else
      match DirectoryFromFd(t, dirfd)
      case Err(e) => Err(e)
      case Ok(dir) =>
        match backend.createDirAt(dir.dir, pathname)
        case Ok(_) => Ok(0)
        case Err(e) => Err(e)
  }

  /** `sys_unlinkat(dirfd, pathname, flags)`: a bad pathname is its error; `flags` is ignored. */
  function SysUnlinkat(backend: Backend, t: FdTable, dirfd: int, pathArg: PathArg, flags: int): (r: Result<int, LinuxError>)
    ensures r.Ok? ==> r.value == 0 && pathArg.Ok?
    ensures r.Ok? && !UsesCwd(dirfd, pathArg.value) ==> dirfd in t.entries && t.entries[dirfd].Directory?
  {
    if pathArg.Err? then Err(pathArg.error)
    else
    var pathname := pathArg.value;
    if UsesCwd(dirfd, pathname) then
      match backend.removeFile(pathname)
      case Ok(_) => Ok(0)
      case Err(e) => Err(e)
    else
      match DirectoryFromFd(t, dirfd)
      case Err(e) => Err(e)
      case Ok(dir) =>
        match backend.removeFileAt(dir.dir, pathname)
        case Ok(_) => Ok(0)
        case Err(e) => Err(e)
  }

  function Status(r: Result<(), LinuxError>): Result<int, LinuxError>
  {
    if r.Ok? then Ok(0) else Err(r.error)
  }

  /**
   * The `dirfd` routing of `openat`, `mkdirat` and `unlinkat`: the cwd case
   * behaves as the plain call; otherwise a missing descriptor is `EBADF`, a
   * `File` is `EINVAL`, and a `Directory` has the call done on its handle.
   */
  lemma DirfdRouting(backend: Backend, t: FdTable, dirfd: int, path: string, flags: bv32, mode: bv32, uflags: int)
    ensures UsesCwd(dirfd, path) ==>
      && SysOpenat(backend, t, dirfd, Ok(path), flags, mode) == SysOpen(backend, t, Ok(path), flags, mode)
      && SysMkdirat(backend, t, dirfd, Ok(path), mode) == Status(backend.createDir(path))
      && SysUnlinkat(backend, t, dirfd, Ok(path), uflags) == Status(backend.removeFile(path))
    ensures !UsesCwd(dirfd, path) && dirfd !in t.entries ==>
      && SysOpenat(backend, t, dirfd, Ok(path), flags, mode) == Opened(Err(EBADF), t, [])
      && SysMkdirat(backend, t, dirfd, Ok(path), mode) == Err(EBADF)
      && SysUnlinkat(backend, t, dirfd, Ok(path), uflags) == Err(EBADF)
    ensures !UsesCwd(dirfd, path) && dirfd in t.entries && t.entries[dirfd].File? ==>
      && SysOpenat(backend, t, dirfd, Ok(path), flags, mode) == Opened(Err(EINVAL), t, [])
      && SysMkdirat(backend, t, dirfd, Ok(path), mode) == Err(EINVAL)
      && SysUnlinkat(backend, t, dirfd, Ok(path), uflags) == Err(EINVAL)
    ensures !UsesCwd(dirfd, path) && dirfd in t.entries && t.entries[dirfd].Directory? ==>
      var d := t.entries[dirfd].dir;
      && SysMkdirat(backend, t, dirfd, Ok(path), mode) == Status(backend.createDirAt(d, path))
      && SysUnlinkat(backend, t, dirfd, Ok(path), uflags) == Status(backend.removeFileAt(d, path))
      && SysOpenat(backend, t, dirfd, Ok(path), flags, mode).calls[0] == OpenFileCall(path, OptionsOf(flags))
    // For `openat` on a `Directory`, both opens go through the directory's own handle.
    ensures !UsesCwd(dirfd, path) && dirfd in t.entries && t.entries[dirfd].Directory? ==>
      var d := t.entries[dirfd].dir;
      var o := SysOpenat(backend, t, dirfd, Ok(path), flags, mode);
      var f := backend.openFileAt(d, path, OptionsOf(flags));
      var sub := backend.openDirAt(d, path, DirRetryOptions(OptionsOf(flags)));
      var fileFailed := f.Err? || AddFileLike(t, File(f.value)).Err?;
      && TableStep(t, o)
      && (|o.calls| == 2 <==> fileFailed)
      && (!fileFailed ==> o.result.Ok? && o.table.entries[o.result.value] == File(f.value))
      && (fileFailed && sub.Err? ==> o.result == Err(sub.error))
      && (fileFailed && sub.Ok? ==> o == Finish(t, AddFileLike(t, Directory(sub.value, path)), o.calls))
      && (fileFailed && o.result.Ok? ==> o.table.entries[o.result.value] == Directory(sub.value, path))
  {
    if !UsesCwd(dirfd, path) && dirfd in t.entries && t.entries[dirfd].Directory? {
      var d := t.entries[dirfd].dir;
      FallbackLemma(
        (p: string, o: OpenOptions) => backend.openFileAt(d, p, o),
        (p: string, o: OpenOptions) => backend.openDirAt(d, p, o),
        t, path, OptionsOf(flags));
    }
  }

  /** `sys_chdir(path)`. */
  function SysChdir(backend: Backend, path: PathArg): (r: Result<int, LinuxError>)
    ensures r.Ok? <==> path.Ok? && backend.setCurrentDir(path.value).Ok?
    ensures r.Ok? ==> r.value == 0
  {
    match path
    case Err(e) => Err(e)
    case Ok(p) => Status(backend.setCurrentDir(p))
  }

  /** `sys_rename(old, new)`: both names are converted, the old one first. */
  function SysRename(backend: Backend, oldPath: PathArg, newPath: PathArg): (r: Result<int, LinuxError>)
    ensures r.Ok? <==> oldPath.Ok? && newPath.Ok? && backend.rename(oldPath.value, newPath.value).Ok?
    ensures r.Ok? ==> r.value == 0
  {
    match oldPath
    case Err(e) => Err(e)
    case Ok(o) =>
      match newPath
      case Err(e) => Err(e)
      case Ok(n) => Status(backend.rename(o, n))
  }

  /**
   * A path argument that does not convert is the call's error, before any
   * backend call or descriptor lookup, except in `sys_openat`, which then
   * returns a bare -1.
   */
  lemma BadPathArgument(backend: Backend, t: FdTable, dirfd: int, e: LinuxError, good: PathArg, flags: bv32, mode: bv32, uflags: int)
    ensures SysOpen(backend, t, Err(e), flags, mode) == Opened(Err(e), t, [])
    ensures SysOpenat(backend, t, dirfd, Err(e), flags, mode) == Opened(Err(EPERM), t, [])
    ensures SysMkdirat(backend, t, dirfd, Err(e), mode) == Err(e)
    ensures SysUnlinkat(backend, t, dirfd, Err(e), uflags) == Err(e)
    ensures SysChdir(backend, Err(e)) == Err(e)
    ensures SysRename(backend, Err(e), good) == Err(e)
    ensures good.Ok? ==> SysRename(backend, good, Err(e)) == Err(e)
  {
  }

  /** When the path arguments convert, the pass-through calls are the backend's verdict. */
  lemma PassThroughCalls(backend: Backend, p: string, q: string)
    ensures SysChdir(backend, Ok(p)).Ok? <==> backend.setCurrentDir(p).Ok?
    ensures SysChdir(backend, Ok(p)).Ok? ==> SysChdir(backend, Ok(p)).value == 0
    ensures backend.setCurrentDir(p).Err? ==> SysChdir(backend, Ok(p)) == Err(backend.setCurrentDir(p).error)
    ensures backend.rename(p, q).Ok? ==> SysRename(backend, Ok(p), Ok(q)) == Ok(0)
    ensures SysRename(backend, Ok(p), Ok(q)).Ok? <==> backend.rename(p, q).Ok?
    ensures backend.rename(p, q).Err? ==> SysRename(backend, Ok(p), Ok(q)) == Err(backend.rename(p, q).error)
  {
  }

  // ---------------------------------------------------------------------
  // lseek
  // ---------------------------------------------------------------------

  /** The `whence` decoding of `sys_lseek`; `offset as u64` for an absolute position. */
  function WhenceToSeekFrom(whence: int, offset: I64): (r: Option<SeekFrom>)
    ensures r.Some? <==> 0 <= whence <= 2
  {
    if whence == 0 then Some(Start(ToU64(offset)))
    else if whence == 1 then Some(Current(offset))
    else if whence == 2 then Some(End(offset))
    else None
  }

  /** `sys_lseek(fd, offset, whence)`. */
  function SysLseek(backend: Backend, t: FdTable, fd: int, offset: I64, whence: int): (r: Result<U64, LinuxError>)
    ensures !(0 <= whence <= 2) ==> r == Err(EINVAL)
    ensures 0 <= whence <= 2 && fd !in t.entries ==> r == Err(EBADF)
    ensures r.Ok? ==> fd in t.entries && t.entries[fd].File?
  {
    match WhenceToSeekFrom(whence, offset)
    case None => Err(EINVAL)
    case Some(pos) =>
      match FileFromFd(t, fd)
      case Err(e) => Err(e)
      case Ok(h) => backend.seek(h, pos)
  }

  /** Whence 0, 1, 2 select start, current and end; any other value is `EINVAL` before the descriptor is looked at. */
  lemma LseekWhence(backend: Backend, t: FdTable, fd: int, offset: I64, whence: int)
    ensures whence == 0 ==> WhenceToSeekFrom(whence, offset) == Some(Start(ToU64(offset)))
    ensures whence == 1 ==> WhenceToSeekFrom(whence, offset) == Some(Current(offset))
    ensures whence == 2 ==> WhenceToSeekFrom(whence, offset) == Some(End(offset))
    ensures whence !in {0, 1, 2} ==> SysLseek(backend, t, fd, offset, whence) == Err(EINVAL)
    ensures whence in {0, 1, 2} && fd in t.entries && t.entries[fd].File? ==>
      SysLseek(backend, t, fd, offset, whence) == backend.seek(t.entries[fd].file, WhenceToSeekFrom(whence, offset).value)
    ensures whence in {0, 1, 2} && fd in t.entries && t.entries[fd].Directory? ==>
      SysLseek(backend, t, fd, offset, whence) == Err(EINVAL)
    ensures whence in {0, 1, 2} && fd !in t.entries ==> SysLseek(backend, t, fd, offset, whence) == Err(EBADF)
  {
  }

  // ---------------------------------------------------------------------
  // stat and the capabilities of the two object kinds
  // ---------------------------------------------------------------------

  /** `ctypes::stat`; the fields `File::stat` does not set keep their defaults (zero). */
  datatype Stat = Stat(
    dev: int, ino: int, mode: bv32, nlink: int, uid: int, gid: int, rdev: int,
    size: I64, blksize: int, blocks: I64,
    atime: TimespecValue, mtime: TimespecValue, ctime: TimespecValue)

  const DefaultStat := Stat(0, 0, 0, 0, 0, 0, 0, 0, 0, 0, ZeroTimespec, ZeroTimespec, ZeroTimespec)

  /** The mode word: file type above bit 12, permission bits below. */
  function ModeWord(fileType: bv8, perm: bv16): (r: bv32)
    ensures r & 0xFFF == (perm as bv32) & 0xFFF
    ensures perm < 0x1000 ==> r >> 12 == fileType as bv32
  {
    ((fileType as bv32) << 12) | (perm as bv32)
  }

  /** `File::stat` on the metadata `get_attr` reported. */
  function StatFromMetadata(m: Metadata): (st: Stat)
    ensures st.ino == 1 && st.nlink == 1 && st.uid == 1000 && st.gid == 1000 && st.blksize == 512
    ensures st.mode == ModeWord(m.fileType, m.perm)
    ensures ToU64(st.size) == m.size && ToU64(st.blocks) == m.blocks
    ensures st.dev == 0 && st.rdev == 0
    ensures st.atime == ZeroTimespec && st.mtime == ZeroTimespec && st.ctime == ZeroTimespec
  {
    DefaultStat.(
      ino := 1, nlink := 1, mode := ModeWord(m.fileType, m.perm),
      uid := 1000, gid := 1000, size := ToI64(m.size), blocks := ToI64(m.blocks), blksize := 512)
  }

  datatype PollState = PollState(readable: bool, writable: bool)

  /** `FileLike::stat`. */
  function FileLikeStat(backend: Backend, obj: FileLike): (r: Result<Stat, LinuxError>)
    ensures obj.Directory? ==> r == Err(EBADF)
    ensures r.Ok? ==> r.value.ino == 1 && r.value.uid == 1000 && r.value.gid == 1000 && r.value.blksize == 512
  {
    match obj
    case File(h) =>
      (match backend.getAttr(h)
       case Err(e) => Err(e)
       case Ok(m) => Ok(StatFromMetadata(m)))
    case Directory(_, _) => Err(EBADF)
  }

  /** `FileLike::read` into a buffer of `len` bytes. */
  function FileLikeRead(backend: Backend, obj: FileLike, len: nat): (r: Result<nat, LinuxError>)
    ensures obj.Directory? ==> r == Err(EBADF)
    ensures obj.File? ==> r == backend.read(obj.file, len)
  {
    match obj
    case File(h) => backend.read(h, len)
    case Directory(_, _) => Err(EBADF)
  }

  /** `FileLike::write`. */
  function FileLikeWrite(backend: Backend, obj: FileLike, data: seq<bv8>): (r: Result<nat, LinuxError>)
    ensures obj.Directory? ==> r == Err(EBADF)
    ensures obj.File? ==> r == backend.write(obj.file, data)
  {
    match obj
    case File(h) => backend.write(h, data)
    case Directory(_, _) => Err(EBADF)
  }

  /** `FileLike::poll`. */
  function FileLikePoll(obj: FileLike): (r: PollState)
    ensures r.readable
    ensures r.writable <==> obj.File?
  {
    match obj
    case File(_) => PollState(true, true)
    case Directory(_, _) => PollState(true, false)
  }

  /** `FileLike::set_nonblocking`: accepted and ignored by both kinds. */
  function FileLikeSetNonblocking(obj: FileLike, nonblocking: bool): (r: Result<(), LinuxError>)
    ensures r.Ok?
  {
    Ok(())
  }

  /** A `Directory` refuses reading, writing and stat with `EBADF`, polls readable and not writable. */
  lemma DirectoryCapabilities(backend: Backend, d: DirHandle, path: string, len: nat, data: seq<bv8>, nb: bool)
    ensures FileLikeRead(backend, Directory(d, path), len) == Err(EBADF)
    ensures FileLikeWrite(backend, Directory(d, path), data) == Err(EBADF)
    ensures FileLikeStat(backend, Directory(d, path)) == Err(EBADF)
    ensures FileLikePoll(Directory(d, path)) == PollState(true, false)
    ensures FileLikeSetNonblocking(Directory(d, path), nb).Ok?
  {
  }

  /** A `File` passes reading, writing and stat through to its backend handle and polls readable and writable. */
  lemma FileCapabilities(backend: Backend, h: FileHandle, len: nat, data: seq<bv8>)
    ensures FileLikeRead(backend, File(h), len) == backend.read(h, len)
    ensures FileLikeWrite(backend, File(h), data) == backend.write(h, data)
    ensures backend.getAttr(h).Ok? ==> FileLikeStat(backend, File(h)) == Ok(StatFromMetadata(backend.getAttr(h).value))
    ensures backend.getAttr(h).Err? ==> FileLikeStat(backend, File(h)) == Err(backend.getAttr(h).error)
    ensures FileLikePoll(File(h)) == PollState(true, true)
  {
  }

  /** `sys_stat(path, buf)`: on `Ok(st)` the call wrote `st` to `*buf` and returned 0. */
  function SysStat(backend: Backend, path: PathArg, bufIsNull: bool): (r: Result<Stat, LinuxError>)
    ensures bufIsNull ==> r == Err(EFAULT)
    ensures r.Ok? ==> path.Ok? && r.value.ino == 1 && r.value.nlink == 1 && r.value.blksize == 512
  {
    if bufIsNull then Err(EFAULT)
    else if path.Err? then Err(path.error)
    else
      match backend.openFile(path.value, NoOptions.(read := true))
      case Err(e) => Err(e)
      case Ok(h) => FileLikeStat(backend, File(h))
  }

  /** `sys_fstat(fd, buf)`. */
  function SysFstat(backend: Backend, t: FdTable, fd: int, bufIsNull: bool): (r: Result<Stat, LinuxError>)
    ensures bufIsNull ==> r == Err(EFAULT)
    ensures r.Ok? ==> fd in t.entries && t.entries[fd].File? && r.value.blksize == 512
  {
    if bufIsNull then Err(EFAULT)
    else
      match GetFileLike(t, fd)
      case Err(e) => Err(e)
      case Ok(obj) => FileLikeStat(backend, obj)
  }

  /** `sys_lstat(path, buf)`: a stub that writes the default `stat`; the path is converted but never checked. */
  function SysLstat(path: PathArg, bufIsNull: bool): (r: Result<Stat, LinuxError>)
    ensures r.Err? <==> bufIsNull
    ensures r.Err? ==> r.error == EFAULT
    ensures r.Ok? ==> r.value.ino == 0 && r.value.mode == 0 && r.value.size == 0 && r.value.uid == 0
  {
    if bufIsNull then Err(EFAULT) else Ok(DefaultStat)
  }

  /** A null output buffer is `EFAULT` before anything else; `fstat` of a directory is `EBADF`; `lstat` is the all-zero record. */
  lemma StatEntryPoints(backend: Backend, t: FdTable, path: PathArg, fd: int)
    ensures SysStat(backend, path, true) == Err(EFAULT)
    ensures SysFstat(backend, t, fd, true) == Err(EFAULT)
    ensures SysLstat(path, true) == Err(EFAULT)
    ensures SysLstat(path, false) == Ok(DefaultStat)
    ensures fd !in t.entries ==> SysFstat(backend, t, fd, false) == Err(EBADF)
    ensures fd in t.entries && t.entries[fd].Directory? ==> SysFstat(backend, t, fd, false) == Err(EBADF)
    ensures path.Err? ==> SysStat(backend, path, false) == Err(path.error)
    ensures path.Ok? ==> var h := backend.openFile(path.value, NoOptions.(read := true));
      && (h.Err? ==> SysStat(backend, path, false) == Err(h.error))
      && (h.Ok? && backend.getAttr(h.value).Err? ==>
            SysStat(backend, path, false) == Err(backend.getAttr(h.value).error))
      && (h.Ok? && backend.getAttr(h.value).Ok? ==>
            SysStat(backend, path, false) == Ok(StatFromMetadata(backend.getAttr(h.value).value)))
    ensures fd in t.entries && t.entries[fd].File? ==> var a := backend.getAttr(t.entries[fd].file);
      && (a.Ok? ==> SysFstat(backend, t, fd, false) == Ok(StatFromMetadata(a.value)))
      && (a.Err? ==> SysFstat(backend, t, fd, false) == Err(a.error))
  {
  }

  // ---------------------------------------------------------------------
  // read_file and getcwd
  // ---------------------------------------------------------------------

  function Min(a: int, b: int): int
  {
    if a < b then a else b
  }

  /** A zeroed buffer of `n` bytes after the backend wrote `got` at its start. */
  function Filled(got: seq<bv8>, n: nat): (r: seq<bv8>)
    ensures |r| == n
    ensures forall i :: 0 <= i < n ==> r[i] == if i < |got| then got[i] else 0
  {
    seq(n, i => if 0 <= i < |got| then got[i] else 0)
  }

  /**
   * What `read_file(fd, offset, size)` returns: the object's size comes from
   * its stat, the downcast to `File` fails with `EBADF`, an offset at or past
   * the end is `EINVAL`, and the buffer has `min(size, file_size - offset)`
   * bytes, filled from `read_at`.
   */
  function ReadFileSpec(backend: Backend, t: FdTable, fd: int, offset: U64, size: U64): (r: Result<seq<bv8>, LinuxError>)
    ensures r.Ok? ==> |r.value| <= size && fd in t.entries && t.entries[fd].File?
  {
    match GetFileLike(t, fd)
    case Err(e) => Err(e)
    case Ok(obj) =>
      match FileLikeStat(backend, obj)
      case Err(e) => Err(e)
      case Ok(st) =>
        var fileSize := ToU64(st.size);
        if !obj.File? then Err(EBADF)
        else if offset >= fileSize then Err(EINVAL)
        else
          var n := Min(size, fileSize - offset);
          match backend.readAt(obj.file, offset, n)
          case Err(e) => Err(e)
          case Ok(got) => Ok(Filled(got, n))
  }

  /** `read_file`: allocate a zeroed buffer and let the backend fill it. */
  method ReadFile(backend: Backend, t: FdTable, fd: int, offset: U64, size: U64)
    returns (r: Result<seq<bv8>, LinuxError>)
    ensures r == ReadFileSpec(backend, t, fd, offset, size)
  {
    var obj;
    match GetFileLike(t, fd) {
      case Err(e) => return Err(e);
      case Ok(o) => obj := o;
    }
    var st;
    match FileLikeStat(backend, obj) {
      case Err(e) => return Err(e);
      case Ok(s) => st := s;
    }
    var fileSize := ToU64(st.size);
    if !obj.File? {
      return Err(EBADF);
    }
    if offset >= fileSize {
      return Err(EINVAL);
    }
    var n := Min(size, fileSize - offset);
    var buf := new bv8[n](_ => 0);
    var got;
    match backend.readAt(obj.file, offset, n) {
      case Err(e) => return Err(e);
      case Ok(g) => got := g;
    }
    var m := Min(|got|, n);
    var i := 0;
    while i < m
      invariant 0 <= i <= m
      invariant forall k :: 0 <= k < i ==> buf[k] == got[k]
      invariant forall k :: i <= k < n ==> buf[k] == 0
    {
      buf[i] := got[i];
      i := i + 1;
    }
    assert buf[..] == Filled(got, n);
    return Ok(buf[..]);
  }

  /** The buffer `read_file` returns never reaches past the end of the file. */
  lemma ReadFileBounds(backend: Backend, t: FdTable, fd: int, offset: U64, size: U64)
    ensures var r := ReadFileSpec(backend, t, fd, offset, size);
      r.Ok? ==>
        && fd in t.entries && t.entries[fd].File?
        && backend.getAttr(t.entries[fd].file).Ok?
        && var fileSize := backend.getAttr(t.entries[fd].file).value.size;
           offset < fileSize
           && |r.value| == Min(size, fileSize - offset)
           && offset + |r.value| <= fileSize
    ensures fd in t.entries && t.entries[fd].File? && backend.getAttr(t.entries[fd].file).Ok?
            && offset >= backend.getAttr(t.entries[fd].file).value.size ==>
              ReadFileSpec(backend, t, fd, offset, size) == Err(EINVAL)
    ensures fd in t.entries && t.entries[fd].Directory? ==> ReadFileSpec(backend, t, fd, offset, size) == Err(EBADF)
    // The bytes are those `read_at` delivers at `offset`, and its error is passed on.
    ensures var r := ReadFileSpec(backend, t, fd, offset, size);
      r.Ok? ==>
        var got := backend.readAt(t.entries[fd].file, offset, |r.value|);
        got.Ok? && r.value == Filled(got.value, |r.value|)
    ensures fd in t.entries && t.entries[fd].File? && backend.getAttr(t.entries[fd].file).Ok?
            && offset < backend.getAttr(t.entries[fd].file).value.size ==>
      var n := Min(size, backend.getAttr(t.entries[fd].file).value.size - offset);
      var got := backend.readAt(t.entries[fd].file, offset, n);
      got.Err? ==> ReadFileSpec(backend, t, fd, offset, size) == Err(got.error)
  {
    if fd in t.entries && t.entries[fd].File? && backend.getAttr(t.entries[fd].file).Ok? {
      var m := backend.getAttr(t.entries[fd].file).value;
      assert ToU64(StatFromMetadata(m).size) == m.size;
    }
  }

  /**
   * `sys_getcwd(buf, size)`: a null `buf` gives a null result; otherwise
   * the current directory (`current_dir()`, whose error is passed on) and a
   * terminating zero are copied to the start of `buf` when they fit in `size`
   * bytes, else `ERANGE` and `buf` is untouched.
   */
  method SysGetcwd(buf: array?<bv8>, size: nat, cwd: Result<seq<bv8>, LinuxError>)
    returns (r: Result<array?<bv8>, LinuxError>)
    requires buf != null ==> size <= buf.Length
    modifies buf
    ensures buf == null ==> r == Ok(null)
    ensures buf != null && cwd.Err? ==> r == Err(cwd.error) && buf[..] == old(buf[..])
    ensures buf != null && cwd.Ok? && |cwd.value| < size ==>
              && r == Ok(buf)
              && buf[..|cwd.value|] == cwd.value
              && buf[|cwd.value|] == 0
              && buf[|cwd.value| + 1..] == old(buf[|cwd.value| + 1..])
    ensures buf != null && cwd.Ok? && |cwd.value| >= size ==> r == Err(ERANGE) && buf[..] == old(buf[..])
  {
    if buf == null {
      return Ok(null);
    }
    if cwd.Err? {
      return Err(cwd.error);
    }
    var path := cwd.value;
    if |path| < size {
      var i := 0;
      while i < |path|
        invariant 0 <= i <= |path|
        invariant buf[..i] == path[..i]
        invariant buf[i..] == old(buf[i..])
      {
        buf[i] := path[i];
        i := i + 1;
      }
      buf[|path|] := 0;
      return Ok(buf);
    } else {
      return Err(ERANGE);
    }
  }
}
