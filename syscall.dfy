/**
 * The system-call entry of the kernel (modules/axsyscall/src/lib.rs): the
 * routing of a syscall number to its handler, the handlers whose answer is
 * fixed, and the byte helpers that read a NUL-terminated user string and
 * fill fixed-size name fields.
 *
 * Handlers that forward to `fileops`, `mmap` or `task` (not part of this
 * model) are reported as `Delegates(handler)`; the handlers whose value is
 * decided here are `Returns(value)`. User memory is a byte sequence indexed
 * by address; enabling and disabling supervisor access to it is not modelled.
 */
module AxSyscall {

  const USIZE_MAX: bv64 := 0xFFFF_FFFF_FFFF_FFFF

  /** Six machine-word arguments. */
  type SyscallArgs = a: seq<bv64> | |a| == 6 witness [0, 0, 0, 0, 0, 0]

  const AT_FDCWD: int := -100
  const AT_EMPTY_PATH: bv64 := 0x1000

  // Syscall numbers handled here, as the kernel defines them. They follow the
  // RISC-V 64 Linux ABI except `SYS_EXIT_GROUP`: 0x53 (83) is `fdatasync`
  // there, and `exit_group` is 0x5e (94).
  const SYS_OPENAT: bv64 := 0x38
  const SYS_CLOSE: bv64 := 0x39
  const SYS_READ: bv64 := 0x3f
  const SYS_WRITE: bv64 := 0x40
  const SYS_WRITEV: bv64 := 0x42
  const SYS_READLINKAT: bv64 := 0x4e
  const SYS_FSTATAT: bv64 := 0x4f
  const SYS_EXIT: bv64 := 0x5d
  const SYS_EXIT_GROUP: bv64 := 0x53
  const SYS_UNAME: bv64 := 0xa0
  const SYS_BRK: bv64 := 0xd6
  const SYS_MUNMAP: bv64 := 0xd7
  const SYS_MMAP: bv64 := 0xde

  datatype Handler =
    | OpenAt | Close | Read | Write | Writev | Readlinkat | Fstatat
    | Exit | ExitGroup | Uname | Brk | Munmap | Mmap | Unknown

  /** The arm of the `do_syscall` match that a syscall number selects. */
  function Route(sysno: bv64): (h: Handler)
    ensures h != Unknown ==> Number(h) == sysno
  {
    if sysno == SYS_OPENAT then OpenAt
    else if sysno == SYS_CLOSE then Close
    else if sysno == SYS_READ then Read
    else if sysno == SYS_WRITE then Write
    else if sysno == SYS_WRITEV then Writev
    else if sysno == SYS_READLINKAT then Readlinkat
    else if sysno == SYS_FSTATAT then Fstatat
    else if sysno == SYS_UNAME then Uname
    else if sysno == SYS_BRK then Brk
    else if sysno == SYS_MUNMAP then Munmap
    else if sysno == SYS_MMAP then Mmap
    else if sysno == SYS_EXIT then Exit
    else if sysno == SYS_EXIT_GROUP then ExitGroup
    else Unknown
  }

  /** The number each handler is registered under, as a table independent of `Route`. */
  function Number(h: Handler): bv64
    requires h != Unknown
  {
    match h
    case OpenAt => SYS_OPENAT
    case Close => SYS_CLOSE
    case Read => SYS_READ
    case Write => SYS_WRITE
    case Writev => SYS_WRITEV
    case Readlinkat => SYS_READLINKAT
    case Fstatat => SYS_FSTATAT
    case Exit => SYS_EXIT
    case ExitGroup => SYS_EXIT_GROUP
    case Uname => SYS_UNAME
    case Brk => SYS_BRK
    case Munmap => SYS_MUNMAP
    case Mmap => SYS_MMAP
  }

  /**
   * The numbers are pairwise distinct, so routing and the table are inverse:
   * every handler is reached by its own number and by no other.
   */
  lemma RouteInvertsNumber(h: Handler, sysno: bv64)
    ensures h != Unknown ==> Route(Number(h)) == h
    ensures Route(sysno) != Unknown ==> Number(Route(sysno)) == sysno
    ensures h != Unknown && sysno != Number(h) ==> Route(sysno) != h
  {
  }

  datatype Dispatch = Returns(value: bv64) | Delegates(handler: Handler)

  /** `linux_syscall_close`: a stub that always succeeds. */
  function LinuxSyscallClose(args: SyscallArgs): (r: bv64)
    ensures r == 0
  {
    0
  }

  /** `linux_syscall_exit_group`: a stub that always succeeds. */
  function LinuxSyscallExitGroup(args: SyscallArgs): (r: bv64)
    ensures r == 0
  {
    0
  }

  /**
   * `linux_syscall_fstatat(dirfd, pathname, statbuf, flags)`: without
   * `AT_EMPTY_PATH` in `flags` nothing is looked up and 0 is returned;
   * with it the call goes to `fileops::fstatat`.
   */
  function LinuxSyscallFstatat(args: SyscallArgs): (r: Dispatch)
    ensures r.Returns? <==> args[3] & AT_EMPTY_PATH == 0
    ensures r.Returns? ==> r.value == 0
    ensures r.Delegates? ==> r.handler == Fstatat
  {
    if args[3] & AT_EMPTY_PATH == 0 then Returns(0) else Delegates(Fstatat)
  }

  /** `do_syscall(args, sysno)`. */
  function DoSyscall(args: SyscallArgs, sysno: bv64): (r: Dispatch)
    ensures Route(sysno) == Unknown ==> r == Returns(0)
    ensures r.Delegates? ==> r.handler == Route(sysno) && r.handler != Unknown
  {
    match Route(sysno)
    case Readlinkat => Returns(USIZE_MAX)
    case Close => Returns(LinuxSyscallClose(args))
    case ExitGroup => Returns(LinuxSyscallExitGroup(args))
    case Fstatat => LinuxSyscallFstatat(args)
    case Uname => Returns(0)  // the answer of `LinuxSyscallUname`, which also fills `*args[0]`
    case Unknown => Returns(0)
    case h => Delegates(h)
  }

  /**
   * The answers fixed by this file: `readlinkat` is `usize::MAX`, `close`,
   * `exit_group`, `uname` and every unknown number are 0, and `fstatat` is 0 exactly
   * when `AT_EMPTY_PATH` is clear; every other known number goes to its own
   * handler.
   */
  lemma DispatchOutcomes(args: SyscallArgs, sysno: bv64)
    ensures DoSyscall(args, SYS_READLINKAT) == Returns(USIZE_MAX)
    ensures DoSyscall(args, SYS_CLOSE) == Returns(0)
    ensures DoSyscall(args, SYS_EXIT_GROUP) == Returns(0)
    ensures Route(sysno) == Unknown ==> DoSyscall(args, sysno) == Returns(0)
    ensures DoSyscall(args, SYS_FSTATAT) == Returns(0) <==> args[3] & AT_EMPTY_PATH == 0
    ensures DoSyscall(args, sysno).Delegates? ==>
      Route(sysno) == DoSyscall(args, sysno).handler
      && DoSyscall(args, sysno).handler in {OpenAt, Read, Write, Writev, Fstatat, Exit, Brk, Munmap, Mmap}
    ensures DoSyscall(args, SYS_UNAME) == Returns(0)
    ensures Route(sysno) in {OpenAt, Read, Write, Writev, Exit, Brk, Munmap, Mmap} ==>
      DoSyscall(args, sysno) == Delegates(Route(sysno))
    ensures args[3] & AT_EMPTY_PATH != 0 ==> DoSyscall(args, SYS_FSTATAT) == Delegates(Fstatat)
  {
  }

  /**
   * The Linux `exit_group` number of RISC-V 64 (0x5e) is not among the
   * registered ones: it falls to the default arm and answers 0, while 0x53
   * reaches the `exit_group` stub.
   */
  lemma LinuxExitGroupNumberUnrouted(args: SyscallArgs)
    ensures Route(0x5e) == Unknown && DoSyscall(args, 0x5e) == Returns(0)
    ensures Route(0x53) == ExitGroup
  {
  }

  /** An unknown number is one that is none of the registered ones. */
  lemma UnknownMeansUnregistered(sysno: bv64)
    ensures Route(sysno) == Unknown <==>
      sysno !in {SYS_OPENAT, SYS_CLOSE, SYS_READ, SYS_WRITE, SYS_WRITEV, SYS_READLINKAT, SYS_FSTATAT,
                 SYS_EXIT, SYS_EXIT_GROUP, SYS_UNAME, SYS_BRK, SYS_MUNMAP, SYS_MMAP}
  {
  }

  // ---------------------------------------------------------------------
  // User strings
  // ---------------------------------------------------------------------

  /** A NUL byte at or after `ptr`, as `get_str_len` demands of its caller. */
  ghost predicate Terminated(mem: seq<bv8>, ptr: nat)
  {
    exists k :: ptr <= k < |mem| && mem[k] == 0
  }

  /**
   * `get_str_len(ptr)`: advance from `ptr` until a zero byte; the distance is
   * the length of the string, every byte before the zero being non-zero.
   */
  method GetStrLen(mem: seq<bv8>, ptr: nat) returns (len: nat)
    requires Terminated(mem, ptr)
    ensures ptr + len < |mem| && mem[ptr + len] == 0
    ensures forall i :: ptr <= i < ptr + len ==> mem[i] != 0
  {
    var cur := ptr;
    while mem[cur] != 0
      invariant ptr <= cur < |mem|
      invariant forall i :: ptr <= i < cur ==> mem[i] != 0
      invariant exists k :: cur <= k < |mem| && mem[k] == 0
      decreases |mem| - cur
    {
      cur := cur + 1;
    }
    len := cur - ptr;
  }

  /**
   * `get_user_str(ptr)` up to the UTF-8 check: the bytes from `ptr` to the
   * first zero, which are the memory there and contain no zero.
   */
  method GetUserStr(mem: seq<bv8>, ptr: nat) returns (s: seq<bv8>)
    requires Terminated(mem, ptr)
    ensures ptr + |s| < |mem| && s == mem[ptr..ptr + |s|]
    ensures mem[ptr + |s|] == 0
    ensures forall i :: 0 <= i < |s| ==> s[i] != 0
  {
    var len := GetStrLen(mem, ptr);
    s := mem[ptr..ptr + len];
    assert forall i :: 0 <= i < |s| ==> s[i] == mem[ptr + i];
  }

  // ---------------------------------------------------------------------
  // Fixed-size name fields (uname)
  // ---------------------------------------------------------------------

  const UTS_LEN: nat := 64

  /** `src` followed by zeros up to `n` bytes. */
  function Padded(src: seq<bv8>, n: nat): (r: seq<bv8>)
    requires |src| <= n
    ensures |r| == n && r[..|src|] == src
    ensures forall i :: |src| <= i < n ==> r[i] == 0
  {
    src + seq(n - |src|, _ => 0)
  }

  /** `init_bytes_from_str(dst, src)`: `src` at the front, zeros behind; `split_at_mut` panics when `src` is longer. */
  method InitBytesFromStr(dst: array<bv8>, src: seq<bv8>)
    requires |src| <= dst.Length
    modifies dst
    ensures dst[..] == Padded(src, dst.Length)
  {
    var i := 0;
    while i < |src|
      invariant 0 <= i <= |src|
      invariant dst[..i] == src[..i]
    {
      dst[i] := src[i];
      i := i + 1;
    }
    while i < dst.Length
      invariant |src| <= i <= dst.Length
      invariant dst[..|src|] == src
      invariant forall k :: |src| <= k < i ==> dst[k] == 0
    {
      dst[i] := 0;
      i := i + 1;
    }
    assert dst[..] == Padded(src, dst.Length);
  }

  /** The bytes of an ASCII text. */
  function Ascii(s: string): (r: seq<bv8>)
    ensures |r| == |s|
  {
    seq(|s|, i requires 0 <= i < |s| => (s[i] as int % 256) as bv8)
  }

  /** `struct utsname`: six fields of `UTS_LEN + 1` bytes. */
  class Utsname {
    var sysname: array<bv8>
    var nodename: array<bv8>
    var release: array<bv8>
    var version: array<bv8>
    var machine: array<bv8>
    var domainname: array<bv8>

    /** The six fields are distinct buffers of `UTS_LEN + 1` bytes. */
    ghost predicate Valid()
      reads this
    {
      && sysname.Length == UTS_LEN + 1 && nodename.Length == UTS_LEN + 1
      && release.Length == UTS_LEN + 1 && version.Length == UTS_LEN + 1
      && machine.Length == UTS_LEN + 1 && domainname.Length == UTS_LEN + 1
      && sysname != nodename && sysname != release && sysname != version
      && sysname != machine && sysname != domainname
      && nodename != release && nodename != version && nodename != machine && nodename != domainname
      && release != version && release != machine && release != domainname
      && version != machine && version != domainname
      && machine != domainname
    }

    constructor ()
      ensures Valid()
      ensures fresh(sysname) && fresh(nodename) && fresh(release)
      ensures fresh(version) && fresh(machine) && fresh(domainname)
    {
      sysname := new bv8[UTS_LEN + 1];
      nodename := new bv8[UTS_LEN + 1];
      release := new bv8[UTS_LEN + 1];
      version := new bv8[UTS_LEN + 1];
      machine := new bv8[UTS_LEN + 1];
      domainname := new bv8[UTS_LEN + 1];
    }
  }

  const SYSNAME := "Linux"
  const NODENAME := "host"
  const DOMAINNAME := "(none)"
  const RELEASE := "5.9.0-rc4+"
  const VERSION := "#1337 SMP Fri Mar 4 09:36:42 CST 2022"
  const MACHINE := "riscv64"

  /**
   * `linux_syscall_uname`: every field holds its fixed text, zero-padded to
   * the full field; the call returns 0.
   */
  method LinuxSyscallUname(args: SyscallArgs, u: Utsname) returns (r: bv64)
    requires u.Valid()
    modifies u.sysname, u.nodename, u.release, u.version, u.machine, u.domainname
    ensures r == 0 && DoSyscall(args, SYS_UNAME) == Returns(r)
    ensures u.sysname[..] == Padded(Ascii(SYSNAME), UTS_LEN + 1)
    ensures u.nodename[..] == Padded(Ascii(NODENAME), UTS_LEN + 1)
    ensures u.domainname[..] == Padded(Ascii(DOMAINNAME), UTS_LEN + 1)
    ensures u.release[..] == Padded(Ascii(RELEASE), UTS_LEN + 1)
    ensures u.version[..] == Padded(Ascii(VERSION), UTS_LEN + 1)
    ensures u.machine[..] == Padded(Ascii(MACHINE), UTS_LEN + 1)
  {
    InitBytesFromStr(u.sysname, Ascii(SYSNAME));
    InitBytesFromStr(u.nodename, Ascii(NODENAME));
    InitBytesFromStr(u.domainname, Ascii(DOMAINNAME));
    InitBytesFromStr(u.release, Ascii(RELEASE));
    InitBytesFromStr(u.version, Ascii(VERSION));
    InitBytesFromStr(u.machine, Ascii(MACHINE));
    return 0;
  }

  /** Each name field stays a C string: its text, then a zero byte within the field. */
  lemma PaddedIsTerminated(src: seq<bv8>, n: nat)
    requires |src| < n
    ensures Terminated(Padded(src, n), 0)
    ensures Padded(src, n)[|src|] == 0
  {
    assert Padded(src, n)[|src|] == 0;
  }
}
