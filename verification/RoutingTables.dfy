/**
 Which decoder an argument gets: the tables of src/arg_routing.c, one clause a row, and beside
 them an account of the same facts by syscall instead of by decoder. Names are numbered: the
 source compares string literals, and only whether two of them are the same matters here. A
 number that stands for no constant below is a name that no table holds.
 */
module RoutingTables {

  /** The decoders: those of the entry stop's chain in its order, the four that only the exit
      stop's chain has, those of arguments the kernel fills in, and the plain fallback. */
  datatype Decoder =
    | Str | Argv | OpenFlags | ProtFlags | MapFlags | MountFlags | EpollOp | EpollEvent | SocketDomain
    | SocketType | SockoptLevel | SockoptOptname | FdSet | MsgFlags | PrctlOption | PrctlName | Dirfd
    | RlimitIn | WaitidIdtype | WaitidOptions | SchedPolicy | Renameat2Flags | MremapFlags | MemfdFlags
    | EventfdFlags | RlimitResource | FileMode | OpenMode | Pipe2Flags | GetrandomFlags | FlockOp
    | MadviseAdvice | FutexOp | AtFlags | UnlinkatFlags | FaccessatFlags | SignalNumber | LseekWhence
    | FcntlCmd | SigprocmaskHow | AccessMode | ClockId | TimespecIn | CloneFlags | Clone3Args | IoctlRequest
    | MsghdrIn | BufferIn | SockaddrIn | IovecIn | SigactionNew | StatxMask | Wait4Options | RusageWho
    | BufferOut | SockaddrOut | WaitStatus | MsghdrOut | StatOut | GetdentsOut | SigactionOld | TimespecOut
    | RusageOut | RlimitOut | EpollEvents | PollFds | StatxOut | IovecOut | Plain

  const ACCEPT := 1
  const ACCEPT4 := 2
  const ACCESS := 3
  const BIND := 4
  const CHDIR := 5
  const CHMOD := 6
  const CHOWN := 7
  const CHROOT := 8
  const CLOCK_GETRES := 9
  const CLOCK_GETTIME := 10
  const CLOCK_NANOSLEEP := 11
  const CLOCK_SETTIME := 12
  const CLONE := 13
  const CLONE3 := 14
  const CONNECT := 15
  const CREAT := 16
  const EPOLL_CTL := 17
  const EPOLL_PWAIT := 18
  const EPOLL_WAIT := 19
  const EVENTFD2 := 20
  const EXECVE := 21
  const EXECVEAT := 22
  const FACCESSAT := 23
  const FACCESSAT2 := 24
  const FCHMOD := 25
  const FCHMODAT := 26
  const FCHMODAT2 := 27
  const FCHOWNAT := 28
  const FCNTL := 29
  const FLOCK := 30
  const FSTAT := 31
  const FUTEX := 32
  const FUTIMESAT := 33
  const GETDENTS64 := 34
  const GETPEERNAME := 35
  const GETRANDOM := 36
  const GETRLIMIT := 37
  const GETRUSAGE := 38
  const GETSOCKNAME := 39
  const GETSOCKOPT := 40
  const IOCTL := 41
  const KILL := 42
  const LCHOWN := 43
  const LINK := 44
  const LINKAT := 45
  const LSEEK := 46
  const LSTAT := 47
  const MADVISE := 48
  const MEMFD_CREATE := 49
  const MKDIR := 50
  const MKDIRAT := 51
  const MKNOD := 52
  const MKNODAT := 53
  const MMAP := 54
  const MOUNT := 55
  const MPROTECT := 56
  const MREMAP := 57
  const NAME_TO_HANDLE_AT := 58
  const NANOSLEEP := 59
  const NEWFSTATAT := 60
  const OPEN := 61
  const OPENAT := 62
  const OPENAT2 := 63
  const PIPE2 := 64
  const PIVOT_ROOT := 65
  const POLL := 66
  const PPOLL := 67
  const PRCTL := 68
  const PREAD64 := 69
  const PRLIMIT64 := 70
  const PSELECT6 := 71
  const PWRITE64 := 72
  const READ := 73
  const READLINK := 74
  const READLINKAT := 75
  const READV := 76
  const RECVFROM := 77
  const RECVMSG := 78
  const RENAME := 79
  const RENAMEAT := 80
  const RENAMEAT2 := 81
  const RMDIR := 82
  const RT_SIGACTION := 83
  const RT_SIGPROCMASK := 84
  const SCHED_SETSCHEDULER := 85
  const SELECT := 86
  const SENDMSG := 87
  const SENDTO := 88
  const SETRLIMIT := 89
  const SETSOCKOPT := 90
  const SOCKET := 91
  const SOCKETPAIR := 92
  const STAT := 93
  const STATFS := 94
  const STATX := 95
  const SYMLINK := 96
  const SYMLINKAT := 97
  const TGKILL := 98
  const TKILL := 99
  const TRUNCATE := 100
  const UMASK := 101
  const UMOUNT2 := 102
  const UNLINK := 103
  const UNLINKAT := 104
  const UTIME := 105
  const UTIMENSAT := 106
  const UTIMES := 107
  const WAIT4 := 108
  const WAITID := 109
  const WRITE := 110
  const WRITEV := 111

  // ----- The tables: bit i of the mask of s is set, or slot i is its buffer -----

  predicate StrArgs(s: nat, i: nat) {
    || ((s == OPEN || s == CREAT || s == ACCESS || s == STAT || s == LSTAT || s == EXECVE || s == UNLINK ||
       s == MKDIR || s == RMDIR || s == CHDIR || s == MEMFD_CREATE || s == READLINK || s == CHMOD || s == CHOWN
       || s == LCHOWN || s == TRUNCATE || s == STATFS || s == UMOUNT2 || s == CHROOT || s == UTIME || s ==
       UTIMES) && i == 0)
    || ((s == OPENAT || s == FACCESSAT || s == FACCESSAT2 || s == NEWFSTATAT || s == STATX || s == EXECVEAT
       || s == UNLINKAT || s == MKDIRAT || s == READLINKAT || s == FCHMODAT || s == FCHOWNAT || s == FUTIMESAT)
       && i == 1)
    || ((s == RENAME || s == SYMLINK || s == LINK || s == PIVOT_ROOT) && (i == 0 || i == 1))
    || ((s == RENAMEAT || s == RENAMEAT2 || s == LINKAT) && (i == 1 || i == 3))
    || (s == SYMLINKAT && (i == 0 || i == 2))
    || (s == MOUNT && (i == 0 || i == 1 || i == 2))
  }
  predicate ArgvArgs(s: nat, i: nat) {
    || (s == EXECVE && (i == 1 || i == 2))
    || (s == EXECVEAT && (i == 2 || i == 3))
  }
  predicate OpenFlagsArgs(s: nat, i: nat) {
    || (s == OPEN && i == 1)
    || (s == OPENAT && i == 2)
  }
  predicate ProtFlagsArgs(s: nat, i: nat) { (s == MMAP || s == MPROTECT) && i == 2 }
  predicate MapFlagsArgs(s: nat, i: nat) { s == MMAP && i == 3 }
  predicate MountFlagsArgs(s: nat, i: nat) { s == MOUNT && i == 3 }
  predicate EpollOpArgs(s: nat, i: nat) { s == EPOLL_CTL && i == 1 }
  predicate EpollEventArgs(s: nat, i: nat) { s == EPOLL_CTL && i == 3 }
  predicate SocketDomainArgs(s: nat, i: nat) { (s == SOCKET || s == SOCKETPAIR) && i == 0 }
  predicate SocketTypeArgs(s: nat, i: nat) { (s == SOCKET || s == SOCKETPAIR) && i == 1 }
  predicate SockoptLevelArgs(s: nat, i: nat) { (s == SETSOCKOPT || s == GETSOCKOPT) && i == 1 }
  predicate SockoptOptnameArgs(s: nat, i: nat) { (s == SETSOCKOPT || s == GETSOCKOPT) && i == 2 }
  predicate FdSetArgs(s: nat, i: nat) { (s == SELECT || s == PSELECT6) && (i == 1 || i == 2 || i == 3) }
  predicate MsgFlagsArgs(s: nat, i: nat) {
    || ((s == SENDTO || s == RECVFROM) && i == 3)
    || ((s == SENDMSG || s == RECVMSG) && i == 2)
  }
  predicate PrctlOptionArgs(s: nat, i: nat) { s == PRCTL && i == 0 }
  predicate PrctlNameArgs(s: nat, i: nat) { s == PRCTL && i == 1 }
  predicate DirfdArgs(s: nat, i: nat) {
    || ((s == OPENAT || s == OPENAT2 || s == FACCESSAT || s == FACCESSAT2 || s == UNLINKAT || s == MKDIRAT
       || s == MKNODAT || s == NEWFSTATAT || s == STATX || s == READLINKAT || s == FCHMODAT || s == FCHMODAT2
       || s == FCHOWNAT || s == FUTIMESAT || s == UTIMENSAT || s == EXECVEAT || s == NAME_TO_HANDLE_AT) && i ==
       0)
    || ((s == RENAMEAT || s == RENAMEAT2 || s == LINKAT) && (i == 0 || i == 2))
    || (s == SYMLINKAT && i == 1)
  }
  predicate RlimitInArgs(s: nat, i: nat) {
    || (s == SETRLIMIT && i == 1)
    || (s == PRLIMIT64 && i == 2)
  }
  predicate WaitidIdtypeArgs(s: nat, i: nat) { s == WAITID && i == 0 }
  predicate WaitidOptionsArgs(s: nat, i: nat) { s == WAITID && i == 3 }
  predicate SchedPolicyArgs(s: nat, i: nat) { s == SCHED_SETSCHEDULER && i == 1 }
  predicate Renameat2FlagsArgs(s: nat, i: nat) { s == RENAMEAT2 && i == 4 }
  predicate MremapFlagsArgs(s: nat, i: nat) { s == MREMAP && i == 3 }
  predicate MemfdFlagsArgs(s: nat, i: nat) { s == MEMFD_CREATE && i == 1 }
  predicate EventfdFlagsArgs(s: nat, i: nat) { s == EVENTFD2 && i == 1 }
  predicate RlimitResourceArgs(s: nat, i: nat) {
    || ((s == GETRLIMIT || s == SETRLIMIT) && i == 0)
    || (s == PRLIMIT64 && i == 1)
  }
  predicate FileModeArgs(s: nat, i: nat) {
    || ((s == CHMOD || s == FCHMOD || s == MKDIR || s == MKNOD || s == CREAT) && i == 1)
    || ((s == FCHMODAT || s == FCHMODAT2 || s == MKDIRAT || s == MKNODAT) && i == 2)
    || (s == UMASK && i == 0)
  }
  predicate OpenModeArgs(s: nat, i: nat) {
    || (s == OPEN && i == 2)
    || (s == OPENAT && i == 3)
  }
  predicate Pipe2FlagsArgs(s: nat, i: nat) { s == PIPE2 && i == 1 }
  predicate GetrandomFlagsArgs(s: nat, i: nat) { s == GETRANDOM && i == 2 }
  predicate FlockOpArgs(s: nat, i: nat) { s == FLOCK && i == 1 }
  predicate MadviseAdviceArgs(s: nat, i: nat) { s == MADVISE && i == 2 }
  predicate FutexOpArgs(s: nat, i: nat) { s == FUTEX && i == 1 }
  predicate AtFlagsArgs(s: nat, i: nat) {
    || ((s == NEWFSTATAT || s == UTIMENSAT || s == FCHMODAT2) && i == 3)
    || (s == STATX && i == 2)
    || ((s == LINKAT || s == FCHOWNAT || s == EXECVEAT) && i == 4)
  }
  predicate UnlinkatFlagsArgs(s: nat, i: nat) { s == UNLINKAT && i == 2 }
  predicate FaccessatFlagsArgs(s: nat, i: nat) { s == FACCESSAT2 && i == 3 }
  predicate SignalNumberArgs(s: nat, i: nat) {
    || ((s == KILL || s == TKILL) && i == 1)
    || (s == TGKILL && i == 2)
    || (s == RT_SIGACTION && i == 0)
  }
  predicate LseekWhenceArgs(s: nat, i: nat) { s == LSEEK && i == 2 }
  predicate FcntlCmdArgs(s: nat, i: nat) { s == FCNTL && i == 1 }
  predicate SigprocmaskHowArgs(s: nat, i: nat) { s == RT_SIGPROCMASK && i == 0 }
  predicate AccessModeArgs(s: nat, i: nat) {
    || (s == ACCESS && i == 1)
    || ((s == FACCESSAT || s == FACCESSAT2) && i == 2)
  }
  predicate ClockIdArgs(s: nat, i: nat) {
    (s == CLOCK_GETTIME || s == CLOCK_SETTIME || s == CLOCK_GETRES || s == CLOCK_NANOSLEEP) && i == 0
  }
  predicate TimespecInArgs(s: nat, i: nat) {
    || (s == CLOCK_SETTIME && i == 1)
    || (s == NANOSLEEP && i == 0)
    || (s == CLOCK_NANOSLEEP && i == 2)
  }
  predicate CloneFlagsArgs(s: nat, i: nat) { s == CLONE && i == 0 }
  predicate Clone3ArgsArgs(s: nat, i: nat) { s == CLONE3 && i == 0 }
  predicate IoctlRequestArgs(s: nat, i: nat) { s == IOCTL && i == 1 }
  predicate MsghdrInArgs(s: nat, i: nat) { s == SENDMSG && i == 1 }
  predicate BufferInArgs(s: nat, i: nat) { (s == WRITE || s == PWRITE64) && i == 1 }
  predicate SockaddrInArgs(s: nat, i: nat) {
    || ((s == CONNECT || s == BIND) && i == 1)
    || (s == SENDTO && i == 4)
  }
  predicate IovecInArgs(s: nat, i: nat) { s == WRITEV && i == 1 }
  predicate SigactionNewArgs(s: nat, i: nat) { s == RT_SIGACTION && i == 1 }
  predicate StatxMaskArgs(s: nat, i: nat) { s == STATX && i == 3 }
  predicate Wait4OptionsArgs(s: nat, i: nat) { s == WAIT4 && i == 2 }
  predicate RusageWhoArgs(s: nat, i: nat) { s == GETRUSAGE && i == 0 }
  predicate BufferOutArgs(s: nat, i: nat) { (s == READ || s == PREAD64 || s == RECVFROM) && i == 1 }
  predicate SockaddrOutArgs(s: nat, i: nat) {
    || ((s == ACCEPT || s == ACCEPT4 || s == GETSOCKNAME || s == GETPEERNAME) && i == 1)
    || (s == RECVFROM && i == 4)
  }
  predicate WaitStatusArgs(s: nat, i: nat) { s == WAIT4 && i == 1 }
  predicate MsghdrOutArgs(s: nat, i: nat) { s == RECVMSG && i == 1 }
  predicate StatOutArgs(s: nat, i: nat) {
    || ((s == STAT || s == LSTAT || s == FSTAT) && i == 1)
    || (s == NEWFSTATAT && i == 2)
  }
  predicate GetdentsOutArgs(s: nat, i: nat) { s == GETDENTS64 && i == 1 }
  predicate SigactionOldArgs(s: nat, i: nat) { s == RT_SIGACTION && i == 2 }
  predicate TimespecOutArgs(s: nat, i: nat) {
    || ((s == CLOCK_GETTIME || s == NANOSLEEP) && i == 1)
    || (s == CLOCK_NANOSLEEP && i == 3)
  }
  predicate RusageOutArgs(s: nat, i: nat) {
    || (s == WAIT4 && i == 3)
    || (s == GETRUSAGE && i == 1)
  }
  predicate RlimitOutArgs(s: nat, i: nat) {
    || (s == GETRLIMIT && i == 1)
    || (s == PRLIMIT64 && i == 3)
  }
  predicate EpollEventsArgs(s: nat, i: nat) { (s == EPOLL_WAIT || s == EPOLL_PWAIT) && i == 1 }
  predicate PollFdsArgs(s: nat, i: nat) { (s == POLL || s == PPOLL) && i == 0 }
  predicate StatxOutArgs(s: nat, i: nat) { s == STATX && i == 4 }
  predicate IovecOutArgs(s: nat, i: nat) { s == READV && i == 1 }

  /** Whether the table of a decoder claims slot i of a syscall. */
  predicate Claims(d: Decoder, s: nat, i: nat) {
    match d
    case Str => StrArgs(s, i)
    case Argv => ArgvArgs(s, i)
    case OpenFlags => OpenFlagsArgs(s, i)
    case ProtFlags => ProtFlagsArgs(s, i)
    case MapFlags => MapFlagsArgs(s, i)
    case MountFlags => MountFlagsArgs(s, i)
    case EpollOp => EpollOpArgs(s, i)
    case EpollEvent => EpollEventArgs(s, i)
    case SocketDomain => SocketDomainArgs(s, i)
    case SocketType => SocketTypeArgs(s, i)
    case SockoptLevel => SockoptLevelArgs(s, i)
    case SockoptOptname => SockoptOptnameArgs(s, i)
    case FdSet => FdSetArgs(s, i)
    case MsgFlags => MsgFlagsArgs(s, i)
    case PrctlOption => PrctlOptionArgs(s, i)
    case PrctlName => PrctlNameArgs(s, i)
    case Dirfd => DirfdArgs(s, i)
    case RlimitIn => RlimitInArgs(s, i)
    case WaitidIdtype => WaitidIdtypeArgs(s, i)
    case WaitidOptions => WaitidOptionsArgs(s, i)
    case SchedPolicy => SchedPolicyArgs(s, i)
    case Renameat2Flags => Renameat2FlagsArgs(s, i)
    case MremapFlags => MremapFlagsArgs(s, i)
    case MemfdFlags => MemfdFlagsArgs(s, i)
    case EventfdFlags => EventfdFlagsArgs(s, i)
    case RlimitResource => RlimitResourceArgs(s, i)
    case FileMode => FileModeArgs(s, i)
    case OpenMode => OpenModeArgs(s, i)
    case Pipe2Flags => Pipe2FlagsArgs(s, i)
    case GetrandomFlags => GetrandomFlagsArgs(s, i)
    case FlockOp => FlockOpArgs(s, i)
    case MadviseAdvice => MadviseAdviceArgs(s, i)
    case FutexOp => FutexOpArgs(s, i)
    case AtFlags => AtFlagsArgs(s, i)
    case UnlinkatFlags => UnlinkatFlagsArgs(s, i)
    case FaccessatFlags => FaccessatFlagsArgs(s, i)
    case SignalNumber => SignalNumberArgs(s, i)
    case LseekWhence => LseekWhenceArgs(s, i)
    case FcntlCmd => FcntlCmdArgs(s, i)
    case SigprocmaskHow => SigprocmaskHowArgs(s, i)
    case AccessMode => AccessModeArgs(s, i)
    case ClockId => ClockIdArgs(s, i)
    case TimespecIn => TimespecInArgs(s, i)
    case CloneFlags => CloneFlagsArgs(s, i)
    case Clone3Args => Clone3ArgsArgs(s, i)
    case IoctlRequest => IoctlRequestArgs(s, i)
    case MsghdrIn => MsghdrInArgs(s, i)
    case BufferIn => BufferInArgs(s, i)
    case SockaddrIn => SockaddrInArgs(s, i)
    case IovecIn => IovecInArgs(s, i)
    case SigactionNew => SigactionNewArgs(s, i)
    case StatxMask => StatxMaskArgs(s, i)
    case Wait4Options => Wait4OptionsArgs(s, i)
    case RusageWho => RusageWhoArgs(s, i)
    case BufferOut => BufferOutArgs(s, i)
    case SockaddrOut => SockaddrOutArgs(s, i)
    case WaitStatus => WaitStatusArgs(s, i)
    case MsghdrOut => MsghdrOutArgs(s, i)
    case StatOut => StatOutArgs(s, i)
    case GetdentsOut => GetdentsOutArgs(s, i)
    case SigactionOld => SigactionOldArgs(s, i)
    case TimespecOut => TimespecOutArgs(s, i)
    case RusageOut => RusageOutArgs(s, i)
    case RlimitOut => RlimitOutArgs(s, i)
    case EpollEvents => EpollEventsArgs(s, i)
    case PollFds => PollFdsArgs(s, i)
    case StatxOut => StatxOutArgs(s, i)
    case IovecOut => IovecOutArgs(s, i)
    case Plain => false
  }

  /** syscall_argc, for the names that some table holds; -1 otherwise. */
  function Argc(s: nat): int {
    if s == CHDIR || s == CHROOT || s == RMDIR || s == UMASK || s == UNLINK then 1
    else if s == ACCESS || s == CHMOD || s == CLOCK_GETRES || s == CLOCK_GETTIME || s == CLOCK_SETTIME ||
       s == CLONE3 || s == CREAT || s == EVENTFD2 || s == FCHMOD || s == FLOCK || s == FSTAT ||
       s == GETRLIMIT || s == GETRUSAGE || s == KILL || s == LINK || s == LSTAT || s == MEMFD_CREATE ||
       s == MKDIR || s == NANOSLEEP || s == PIPE2 || s == PIVOT_ROOT || s == RENAME || s == SETRLIMIT ||
       s == STAT || s == STATFS || s == SYMLINK || s == TKILL || s == TRUNCATE || s == UMOUNT2 || s == UTIME ||
       s == UTIMES then 2
    else if s == ACCEPT || s == BIND || s == CHOWN || s == CONNECT || s == EXECVE || s == FACCESSAT ||
       s == FCHMODAT || s == FCNTL || s == FUTIMESAT || s == GETDENTS64 || s == GETPEERNAME ||
       s == GETRANDOM || s == GETSOCKNAME || s == IOCTL || s == LCHOWN || s == LSEEK || s == MADVISE ||
       s == MKDIRAT || s == MKNOD || s == MPROTECT || s == OPEN || s == POLL || s == READ || s == READLINK ||
       s == READV || s == RECVMSG || s == SCHED_SETSCHEDULER || s == SENDMSG || s == SOCKET ||
       s == SYMLINKAT || s == TGKILL || s == UNLINKAT || s == WRITE || s == WRITEV then 3
    else if s == ACCEPT4 || s == CLOCK_NANOSLEEP || s == EPOLL_CTL || s == EPOLL_WAIT || s == FACCESSAT2 ||
       s == FCHMODAT2 || s == MKNODAT || s == NEWFSTATAT || s == OPENAT || s == OPENAT2 || s == PREAD64 ||
       s == PRLIMIT64 || s == PWRITE64 || s == READLINKAT || s == RENAMEAT || s == RT_SIGACTION ||
       s == RT_SIGPROCMASK || s == SOCKETPAIR || s == UTIMENSAT || s == WAIT4 then 4
    else if s == CLONE || s == EXECVEAT || s == FCHOWNAT || s == GETSOCKOPT || s == LINKAT || s == MOUNT ||
       s == MREMAP || s == NAME_TO_HANDLE_AT || s == PPOLL || s == PRCTL || s == RENAMEAT2 || s == SELECT ||
       s == SETSOCKOPT || s == STATX || s == WAITID then 5
    else if s == EPOLL_PWAIT || s == FUTEX || s == MMAP || s == PSELECT6 || s == RECVFROM || s == SENDTO then 6
    else -1
  }

  /** How many arguments print_call shows. */
  function PrintedArgs(s: nat): nat {
    if Argc(s) < 0 || Argc(s) > 6 then 6 else Argc(s)
  }

  // ----- The same facts by syscall -----

  /** What argument i of a syscall is; Plain where nothing is known about it. */
  function Slot(s: nat, i: nat): Decoder {
    if s == ACCEPT then (if i == 1 then SockaddrOut else Plain)
    else if s == ACCEPT4 then (if i == 1 then SockaddrOut else Plain)
    else if s == ACCESS then (if i == 0 then Str else if i == 1 then AccessMode else Plain)
    else if s == BIND then (if i == 1 then SockaddrIn else Plain)
    else if s == CHDIR then (if i == 0 then Str else Plain)
    else if s == CHMOD then (if i == 0 then Str else if i == 1 then FileMode else Plain)
    else if s == CHOWN then (if i == 0 then Str else Plain)
    else if s == CHROOT then (if i == 0 then Str else Plain)
    else if s == CLOCK_GETRES then (if i == 0 then ClockId else Plain)
    else if s == CLOCK_GETTIME then (if i == 0 then ClockId else if i == 1 then TimespecOut else Plain)
    else if s == CLOCK_NANOSLEEP then (if i == 0 then ClockId else if i == 2 then TimespecIn else if i == 3
      then TimespecOut else Plain)
    else if s == CLOCK_SETTIME then (if i == 0 then ClockId else if i == 1 then TimespecIn else Plain)
    else if s == CLONE then (if i == 0 then CloneFlags else Plain)
    else if s == CLONE3 then (if i == 0 then Clone3Args else Plain)
    else if s == CONNECT then (if i == 1 then SockaddrIn else Plain)
    else if s == CREAT then (if i == 0 then Str else if i == 1 then FileMode else Plain)
    else if s == EPOLL_CTL then (if i == 1 then EpollOp else if i == 3 then EpollEvent else Plain)
    else if s == EPOLL_PWAIT then (if i == 1 then EpollEvents else Plain)
    else if s == EPOLL_WAIT then (if i == 1 then EpollEvents else Plain)
    else if s == EVENTFD2 then (if i == 1 then EventfdFlags else Plain)
    else if s == EXECVE then (if i == 0 then Str else if i == 1 then Argv else if i == 2 then Argv else Plain)
    else if s == EXECVEAT then (if i == 0 then Dirfd else if i == 1 then Str else if i == 2 then Argv else if
      i == 3 then Argv else if i == 4 then AtFlags else Plain)
    else if s == FACCESSAT then (if i == 0 then Dirfd else if i == 1 then Str else if i == 2 then AccessMode
      else Plain)
    else if s == FACCESSAT2 then (if i == 0 then Dirfd else if i == 1 then Str else if i == 2 then AccessMode
      else if i == 3 then FaccessatFlags else Plain)
    else if s == FCHMOD then (if i == 1 then FileMode else Plain)
    else if s == FCHMODAT then (if i == 0 then Dirfd else if i == 1 then Str else if i == 2 then FileMode
      else Plain)
    else if s == FCHMODAT2 then (if i == 0 then Dirfd else if i == 2 then FileMode else if i == 3 then
      AtFlags else Plain)
    else if s == FCHOWNAT then (if i == 0 then Dirfd else if i == 1 then Str else if i == 4 then AtFlags else
      Plain)
    else if s == FCNTL then (if i == 1 then FcntlCmd else Plain)
    else if s == FLOCK then (if i == 1 then FlockOp else Plain)
    else if s == FSTAT then (if i == 1 then StatOut else Plain)
    else if s == FUTEX then (if i == 1 then FutexOp else Plain)
    else if s == FUTIMESAT then (if i == 0 then Dirfd else if i == 1 then Str else Plain)
    else if s == GETDENTS64 then (if i == 1 then GetdentsOut else Plain)
    else if s == GETPEERNAME then (if i == 1 then SockaddrOut else Plain)
    else if s == GETRANDOM then (if i == 2 then GetrandomFlags else Plain)
    else if s == GETRLIMIT then (if i == 0 then RlimitResource else if i == 1 then RlimitOut else Plain)
    else if s == GETRUSAGE then (if i == 0 then RusageWho else if i == 1 then RusageOut else Plain)
    else if s == GETSOCKNAME then (if i == 1 then SockaddrOut else Plain)
    else if s == GETSOCKOPT then (if i == 1 then SockoptLevel else if i == 2 then SockoptOptname else Plain)
    else if s == IOCTL then (if i == 1 then IoctlRequest else Plain)
    else if s == KILL then (if i == 1 then SignalNumber else Plain)
    else if s == LCHOWN then (if i == 0 then Str else Plain)
    else if s == LINK then (if i == 0 then Str else if i == 1 then Str else Plain)
    else if s == LINKAT then (if i == 0 then Dirfd else if i == 1 then Str else if i == 2 then Dirfd else if
      i == 3 then Str else if i == 4 then AtFlags else Plain)
    else if s == LSEEK then (if i == 2 then LseekWhence else Plain)
    else if s == LSTAT then (if i == 0 then Str else if i == 1 then StatOut else Plain)
    else if s == MADVISE then (if i == 2 then MadviseAdvice else Plain)
    else if s == MEMFD_CREATE then (if i == 0 then Str else if i == 1 then MemfdFlags else Plain)
    else if s == MKDIR then (if i == 0 then Str else if i == 1 then FileMode else Plain)
    else if s == MKDIRAT then (if i == 0 then Dirfd else if i == 1 then Str else if i == 2 then FileMode else
      Plain)
    else if s == MKNOD then (if i == 1 then FileMode else Plain)
    else if s == MKNODAT then (if i == 0 then Dirfd else if i == 2 then FileMode else Plain)
    else if s == MMAP then (if i == 2 then ProtFlags else if i == 3 then MapFlags else Plain)
    else if s == MOUNT then (if i == 0 then Str else if i == 1 then Str else if i == 2 then Str else if i ==
      3 then MountFlags else Plain)
    else if s == MPROTECT then (if i == 2 then ProtFlags else Plain)
    else if s == MREMAP then (if i == 3 then MremapFlags else Plain)
    else if s == NAME_TO_HANDLE_AT then (if i == 0 then Dirfd else Plain)
    else if s == NANOSLEEP then (if i == 0 then TimespecIn else if i == 1 then TimespecOut else Plain)
    else if s == NEWFSTATAT then (if i == 0 then Dirfd else if i == 1 then Str else if i == 2 then StatOut
      else if i == 3 then AtFlags else Plain)
    else if s == OPEN then (if i == 0 then Str else if i == 1 then OpenFlags else if i == 2 then OpenMode
      else Plain)
    else if s == OPENAT then (if i == 0 then Dirfd else if i == 1 then Str else if i == 2 then OpenFlags else
      if i == 3 then OpenMode else Plain)
    else if s == OPENAT2 then (if i == 0 then Dirfd else Plain)
    else if s == PIPE2 then (if i == 1 then Pipe2Flags else Plain)
    else if s == PIVOT_ROOT then (if i == 0 then Str else if i == 1 then Str else Plain)
    else if s == POLL then (if i == 0 then PollFds else Plain)
    else if s == PPOLL then (if i == 0 then PollFds else Plain)
    else if s == PRCTL then (if i == 0 then PrctlOption else if i == 1 then PrctlName else Plain)
    else if s == PREAD64 then (if i == 1 then BufferOut else Plain)
    else if s == PRLIMIT64 then (if i == 1 then RlimitResource else if i == 2 then RlimitIn else if i == 3
      then RlimitOut else Plain)
    else if s == PSELECT6 then (if i == 1 then FdSet else if i == 2 then FdSet else if i == 3 then FdSet else
      Plain)
    else if s == PWRITE64 then (if i == 1 then BufferIn else Plain)
    else if s == READ then (if i == 1 then BufferOut else Plain)
    else if s == READLINK then (if i == 0 then Str else Plain)
    else if s == READLINKAT then (if i == 0 then Dirfd else if i == 1 then Str else Plain)
    else if s == READV then (if i == 1 then IovecOut else Plain)
    else if s == RECVFROM then (if i == 1 then BufferOut else if i == 3 then MsgFlags else if i == 4 then
      SockaddrOut else Plain)
    else if s == RECVMSG then (if i == 1 then MsghdrOut else if i == 2 then MsgFlags else Plain)
    else if s == RENAME then (if i == 0 then Str else if i == 1 then Str else Plain)
    else if s == RENAMEAT then (if i == 0 then Dirfd else if i == 1 then Str else if i == 2 then Dirfd else
      if i == 3 then Str else Plain)
    else if s == RENAMEAT2 then (if i == 0 then Dirfd else if i == 1 then Str else if i == 2 then Dirfd else
      if i == 3 then Str else if i == 4 then Renameat2Flags else Plain)
    else if s == RMDIR then (if i == 0 then Str else Plain)
    else if s == RT_SIGACTION then (if i == 0 then SignalNumber else if i == 1 then SigactionNew else if i ==
      2 then SigactionOld else Plain)
    else if s == RT_SIGPROCMASK then (if i == 0 then SigprocmaskHow else Plain)
    else if s == SCHED_SETSCHEDULER then (if i == 1 then SchedPolicy else Plain)
    else if s == SELECT then (if i == 1 then FdSet else if i == 2 then FdSet else if i == 3 then FdSet else
      Plain)
    else if s == SENDMSG then (if i == 1 then MsghdrIn else if i == 2 then MsgFlags else Plain)
    else if s == SENDTO then (if i == 3 then MsgFlags else if i == 4 then SockaddrIn else Plain)
    else if s == SETRLIMIT then (if i == 0 then RlimitResource else if i == 1 then RlimitIn else Plain)
    else if s == SETSOCKOPT then (if i == 1 then SockoptLevel else if i == 2 then SockoptOptname else Plain)
    else if s == SOCKET then (if i == 0 then SocketDomain else if i == 1 then SocketType else Plain)
    else if s == SOCKETPAIR then (if i == 0 then SocketDomain else if i == 1 then SocketType else Plain)
    else if s == STAT then (if i == 0 then Str else if i == 1 then StatOut else Plain)
    else if s == STATFS then (if i == 0 then Str else Plain)
    else if s == STATX then (if i == 0 then Dirfd else if i == 1 then Str else if i == 2 then AtFlags else if
      i == 3 then StatxMask else if i == 4 then StatxOut else Plain)
    else if s == SYMLINK then (if i == 0 then Str else if i == 1 then Str else Plain)
    else if s == SYMLINKAT then (if i == 0 then Str else if i == 1 then Dirfd else if i == 2 then Str else
      Plain)
    else if s == TGKILL then (if i == 2 then SignalNumber else Plain)
    else if s == TKILL then (if i == 1 then SignalNumber else Plain)
    else if s == TRUNCATE then (if i == 0 then Str else Plain)
    else if s == UMASK then (if i == 0 then FileMode else Plain)
    else if s == UMOUNT2 then (if i == 0 then Str else Plain)
    else if s == UNLINK then (if i == 0 then Str else Plain)
    else if s == UNLINKAT then (if i == 0 then Dirfd else if i == 1 then Str else if i == 2 then
      UnlinkatFlags else Plain)
    else if s == UTIME then (if i == 0 then Str else Plain)
    else if s == UTIMENSAT then (if i == 0 then Dirfd else if i == 3 then AtFlags else Plain)
    else if s == UTIMES then (if i == 0 then Str else Plain)
    else if s == WAIT4 then (if i == 1 then WaitStatus else if i == 2 then Wait4Options else if i == 3 then
      RusageOut else Plain)
    else if s == WAITID then (if i == 0 then WaitidIdtype else if i == 3 then WaitidOptions else Plain)
    else if s == WRITE then (if i == 1 then BufferIn else Plain)
    else if s == WRITEV then (if i == 1 then IovecIn else Plain)
    else Plain
  }

  /** Decoders of arguments that the kernel fills in. */
  predicate KernelFilled(d: Decoder) {
    || d.BufferOut? || d.SockaddrOut? || d.WaitStatus? || d.MsghdrOut? || d.StatOut? || d.GetdentsOut? ||
       d.SigactionOld? || d.TimespecOut? || d.RusageOut? || d.RlimitOut? || d.EpollEvents? || d.PollFds? ||
       d.StatxOut? || d.IovecOut?
  }

  /** Decoders of caller-populated arguments that the exit stop's chain has. */
  predicate CallerAtExit(d: Decoder) {
    || d.Str? || d.SignalNumber? || d.SigactionNew? || d.TimespecIn? || d.ClockId? || d.StatxMask? ||
       d.MsgFlags? || d.Dirfd? || d.AtFlags? || d.Wait4Options? || d.RusageWho? || d.RlimitResource? ||
       d.RlimitIn?
  }

  /** Decoders that only the exit stop's chain has. */
  predicate ExitOnly(d: Decoder) {
    KernelFilled(d) || d.SigactionNew? || d.StatxMask? || d.Wait4Options? || d.RusageWho?
  }

  lemma {:induction false} ClaimedIsSlot0(s: nat, i: nat)
    ensures StrArgs(s, i) ==> Slot(s, i) == Str
    ensures ArgvArgs(s, i) ==> Slot(s, i) == Argv
    ensures OpenFlagsArgs(s, i) ==> Slot(s, i) == OpenFlags
    ensures ProtFlagsArgs(s, i) ==> Slot(s, i) == ProtFlags
    ensures MapFlagsArgs(s, i) ==> Slot(s, i) == MapFlags
    ensures MountFlagsArgs(s, i) ==> Slot(s, i) == MountFlags
    ensures EpollOpArgs(s, i) ==> Slot(s, i) == EpollOp
    ensures EpollEventArgs(s, i) ==> Slot(s, i) == EpollEvent
    ensures SocketDomainArgs(s, i) ==> Slot(s, i) == SocketDomain
    ensures SocketTypeArgs(s, i) ==> Slot(s, i) == SocketType
    ensures SockoptLevelArgs(s, i) ==> Slot(s, i) == SockoptLevel
    ensures SockoptOptnameArgs(s, i) ==> Slot(s, i) == SockoptOptname
    ensures FdSetArgs(s, i) ==> Slot(s, i) == FdSet
    ensures MsgFlagsArgs(s, i) ==> Slot(s, i) == MsgFlags
    ensures PrctlOptionArgs(s, i) ==> Slot(s, i) == PrctlOption
    ensures PrctlNameArgs(s, i) ==> Slot(s, i) == PrctlName
    ensures DirfdArgs(s, i) ==> Slot(s, i) == Dirfd
  {
  }

  lemma {:induction false} ClaimedIsSlot1(s: nat, i: nat)
    ensures RlimitInArgs(s, i) ==> Slot(s, i) == RlimitIn
    ensures WaitidIdtypeArgs(s, i) ==> Slot(s, i) == WaitidIdtype
    ensures WaitidOptionsArgs(s, i) ==> Slot(s, i) == WaitidOptions
    ensures SchedPolicyArgs(s, i) ==> Slot(s, i) == SchedPolicy
    ensures Renameat2FlagsArgs(s, i) ==> Slot(s, i) == Renameat2Flags
    ensures MremapFlagsArgs(s, i) ==> Slot(s, i) == MremapFlags
    ensures MemfdFlagsArgs(s, i) ==> Slot(s, i) == MemfdFlags
    ensures EventfdFlagsArgs(s, i) ==> Slot(s, i) == EventfdFlags
    ensures RlimitResourceArgs(s, i) ==> Slot(s, i) == RlimitResource
    ensures FileModeArgs(s, i) ==> Slot(s, i) == FileMode
    ensures OpenModeArgs(s, i) ==> Slot(s, i) == OpenMode
    ensures Pipe2FlagsArgs(s, i) ==> Slot(s, i) == Pipe2Flags
    ensures GetrandomFlagsArgs(s, i) ==> Slot(s, i) == GetrandomFlags
    ensures FlockOpArgs(s, i) ==> Slot(s, i) == FlockOp
    ensures MadviseAdviceArgs(s, i) ==> Slot(s, i) == MadviseAdvice
    ensures FutexOpArgs(s, i) ==> Slot(s, i) == FutexOp
    ensures AtFlagsArgs(s, i) ==> Slot(s, i) == AtFlags
  {
  }

  lemma {:induction false} ClaimedIsSlot2(s: nat, i: nat)
    ensures UnlinkatFlagsArgs(s, i) ==> Slot(s, i) == UnlinkatFlags
    ensures FaccessatFlagsArgs(s, i) ==> Slot(s, i) == FaccessatFlags
    ensures SignalNumberArgs(s, i) ==> Slot(s, i) == SignalNumber
    ensures LseekWhenceArgs(s, i) ==> Slot(s, i) == LseekWhence
    ensures FcntlCmdArgs(s, i) ==> Slot(s, i) == FcntlCmd
    ensures SigprocmaskHowArgs(s, i) ==> Slot(s, i) == SigprocmaskHow
    ensures AccessModeArgs(s, i) ==> Slot(s, i) == AccessMode
    ensures ClockIdArgs(s, i) ==> Slot(s, i) == ClockId
    ensures TimespecInArgs(s, i) ==> Slot(s, i) == TimespecIn
    ensures CloneFlagsArgs(s, i) ==> Slot(s, i) == CloneFlags
    ensures Clone3ArgsArgs(s, i) ==> Slot(s, i) == Clone3Args
    ensures IoctlRequestArgs(s, i) ==> Slot(s, i) == IoctlRequest
    ensures MsghdrInArgs(s, i) ==> Slot(s, i) == MsghdrIn
    ensures BufferInArgs(s, i) ==> Slot(s, i) == BufferIn
    ensures SockaddrInArgs(s, i) ==> Slot(s, i) == SockaddrIn
    ensures IovecInArgs(s, i) ==> Slot(s, i) == IovecIn
    ensures SigactionNewArgs(s, i) ==> Slot(s, i) == SigactionNew
  {
  }

  lemma {:induction false} ClaimedIsSlot3(s: nat, i: nat)
    ensures StatxMaskArgs(s, i) ==> Slot(s, i) == StatxMask
    ensures Wait4OptionsArgs(s, i) ==> Slot(s, i) == Wait4Options
    ensures RusageWhoArgs(s, i) ==> Slot(s, i) == RusageWho
    ensures BufferOutArgs(s, i) ==> Slot(s, i) == BufferOut
    ensures SockaddrOutArgs(s, i) ==> Slot(s, i) == SockaddrOut
    ensures WaitStatusArgs(s, i) ==> Slot(s, i) == WaitStatus
    ensures MsghdrOutArgs(s, i) ==> Slot(s, i) == MsghdrOut
    ensures StatOutArgs(s, i) ==> Slot(s, i) == StatOut
    ensures GetdentsOutArgs(s, i) ==> Slot(s, i) == GetdentsOut
    ensures SigactionOldArgs(s, i) ==> Slot(s, i) == SigactionOld
    ensures TimespecOutArgs(s, i) ==> Slot(s, i) == TimespecOut
    ensures RusageOutArgs(s, i) ==> Slot(s, i) == RusageOut
    ensures RlimitOutArgs(s, i) ==> Slot(s, i) == RlimitOut
    ensures EpollEventsArgs(s, i) ==> Slot(s, i) == EpollEvents
    ensures PollFdsArgs(s, i) ==> Slot(s, i) == PollFds
    ensures StatxOutArgs(s, i) ==> Slot(s, i) == StatxOut
    ensures IovecOutArgs(s, i) ==> Slot(s, i) == IovecOut
  {
  }

  lemma {:induction false} ClaimedIsSlot(d: Decoder, s: nat, i: nat)
    requires Claims(d, s, i)
    ensures Slot(s, i) == d
  {
    match d
    case Str | Argv | OpenFlags | ProtFlags | MapFlags | MountFlags | EpollOp | EpollEvent | SocketDomain |
      SocketType | SockoptLevel | SockoptOptname | FdSet | MsgFlags | PrctlOption | PrctlName | Dirfd =>
      ClaimedIsSlot0(s, i);
    case RlimitIn | WaitidIdtype | WaitidOptions | SchedPolicy | Renameat2Flags | MremapFlags | MemfdFlags |
      EventfdFlags | RlimitResource | FileMode | OpenMode | Pipe2Flags | GetrandomFlags | FlockOp |
      MadviseAdvice | FutexOp | AtFlags => ClaimedIsSlot1(s, i);
    case UnlinkatFlags | FaccessatFlags | SignalNumber | LseekWhence | FcntlCmd | SigprocmaskHow | AccessMode
      | ClockId | TimespecIn | CloneFlags | Clone3Args | IoctlRequest | MsghdrIn | BufferIn | SockaddrIn |
      IovecIn | SigactionNew => ClaimedIsSlot2(s, i);
    case StatxMask | Wait4Options | RusageWho | BufferOut | SockaddrOut | WaitStatus | MsghdrOut | StatOut |
      GetdentsOut | SigactionOld | TimespecOut | RusageOut | RlimitOut | EpollEvents | PollFds | StatxOut |
      IovecOut => ClaimedIsSlot3(s, i);
  }

  lemma {:induction false} SlotIsClaimed0(s: nat, i: nat)
    requires ACCEPT <= s <= CLONE3 && Slot(s, i) != Plain
    ensures Claims(Slot(s, i), s, i)
  {
  }

  lemma {:induction false} SlotIsClaimed1(s: nat, i: nat)
    requires CONNECT <= s <= FCHOWNAT && Slot(s, i) != Plain
    ensures Claims(Slot(s, i), s, i)
  {
  }

  lemma {:induction false} SlotIsClaimed2(s: nat, i: nat)
    requires FCNTL <= s <= KILL && Slot(s, i) != Plain
    ensures Claims(Slot(s, i), s, i)
  {
  }

  lemma {:induction false} SlotIsClaimed3(s: nat, i: nat)
    requires LCHOWN <= s <= MPROTECT && Slot(s, i) != Plain
    ensures Claims(Slot(s, i), s, i)
  {
  }

  lemma {:induction false} SlotIsClaimed4(s: nat, i: nat)
    requires MREMAP <= s <= PRLIMIT64 && Slot(s, i) != Plain
    ensures Claims(Slot(s, i), s, i)
  {
  }

  lemma {:induction false} SlotIsClaimed5(s: nat, i: nat)
    requires PSELECT6 <= s <= RT_SIGPROCMASK && Slot(s, i) != Plain
    ensures Claims(Slot(s, i), s, i)
  {
  }

  lemma {:induction false} SlotIsClaimed6(s: nat, i: nat)
    requires SCHED_SETSCHEDULER <= s <= TGKILL && Slot(s, i) != Plain
    ensures Claims(Slot(s, i), s, i)
  {
  }

  lemma {:induction false} SlotIsClaimed7(s: nat, i: nat)
    requires TKILL <= s <= WRITEV && Slot(s, i) != Plain
    ensures Claims(Slot(s, i), s, i)
  {
  }

  lemma {:induction false} UnknownName(s: nat, i: nat)
    requires s < ACCEPT || s > WRITEV
    ensures Slot(s, i) == Plain
  {
  }

  lemma {:induction false} SlotIsClaimed(s: nat, i: nat)
    requires Slot(s, i) != Plain
    ensures Claims(Slot(s, i), s, i)
  {
    if s < ACCEPT || s > WRITEV {
      UnknownName(s, i);
    } else if s <= CLONE3 {
      SlotIsClaimed0(s, i);
    } else if s <= FCHOWNAT {
      SlotIsClaimed1(s, i);
    } else if s <= KILL {
      SlotIsClaimed2(s, i);
    } else if s <= MPROTECT {
      SlotIsClaimed3(s, i);
    } else if s <= PRLIMIT64 {
      SlotIsClaimed4(s, i);
    } else if s <= RT_SIGPROCMASK {
      SlotIsClaimed5(s, i);
    } else if s <= TGKILL {
      SlotIsClaimed6(s, i);
    } else {
      SlotIsClaimed7(s, i);
    }
  }

  /** The table of d claims a slot exactly when the slot is of kind d. */
  lemma {:induction false} ClaimsIffSlot(d: Decoder, s: nat, i: nat)
    ensures Claims(d, s, i) <==> d != Plain && Slot(s, i) == d
  {
    if Claims(d, s, i) {
      ClaimedIsSlot(d, s, i);
    } else if d != Plain && Slot(s, i) == d {
      SlotIsClaimed(s, i);
    }
  }

  lemma {:induction false} FewArguments(s: nat, i: nat)
    requires Argc(s) <= 2
    ensures Slot(s, i) == Plain || 0 <= i < Argc(s)
  {
  }

  lemma {:induction false} ThreeArguments(s: nat, i: nat)
    requires Argc(s) == 3
    ensures Slot(s, i) == Plain || i < 3
  {
  }

  lemma {:induction false} ManyArguments(s: nat, i: nat)
    requires Argc(s) >= 4
    ensures Slot(s, i) == Plain || i < Argc(s) <= 6
  {
  }

  /** Only printed arguments are of a known kind. */
  lemma {:induction false} KnownSlotsArePrinted(s: nat, i: nat)
    ensures Slot(s, i) == Plain || i < PrintedArgs(s)
  {
    var argc := Argc(s);
    if argc <= 2 {
      FewArguments(s, i);
    } else if argc == 3 {
      ThreeArguments(s, i);
    } else {
      ManyArguments(s, i);
    }
  }

  /** The syscalls with a kernel-filled argument. */
  predicate FilledName(s: nat) {
    s == ACCEPT || s == ACCEPT4 || s == CLOCK_GETTIME || s == CLOCK_NANOSLEEP || s == EPOLL_PWAIT ||
    s == EPOLL_WAIT || s == FSTAT || s == GETDENTS64 || s == GETPEERNAME || s == GETRLIMIT || s == GETRUSAGE ||
    s == GETSOCKNAME || s == LSTAT || s == NANOSLEEP || s == NEWFSTATAT || s == POLL || s == PPOLL ||
    s == PREAD64 || s == PRLIMIT64 || s == READ || s == READV || s == RECVFROM || s == RECVMSG ||
    s == RT_SIGACTION || s == STAT || s == STATX || s == WAIT4
  }

  lemma {:induction false} ExitOnlyNames(s: nat, i: nat)
    requires ExitOnly(Slot(s, i))
    ensures FilledName(s)
  {
  }

  /** They have such an argument, at most one of each kind, and every other argument of theirs is
      of a kind that the exit stop's chain has. */
  lemma {:induction false} FilledNames(s: nat)
    requires FilledName(s)
    ensures KernelFilled(Slot(s, 0)) || KernelFilled(Slot(s, 1)) || KernelFilled(Slot(s, 2)) ||
            KernelFilled(Slot(s, 3)) || KernelFilled(Slot(s, 4))
  {
  }

  lemma {:induction false} FilledOnce(s: nat, i: nat, j: nat)
    requires FilledName(s) && KernelFilled(Slot(s, i)) && Slot(s, i) == Slot(s, j)
    ensures i == j
  {
  }

  lemma {:induction false} FilledNameSlots(s: nat, i: nat)
    requires FilledName(s)
    ensures Slot(s, i) == Plain || KernelFilled(Slot(s, i)) || CallerAtExit(Slot(s, i))
  {
  }
}
