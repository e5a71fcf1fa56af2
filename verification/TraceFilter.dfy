/** Which names the stored tokens of `-e trace=SET` let through (src/trace_filter.c). */
module TraceFilter {

  const FILE_SYSCALLS: seq<string> := [
    "open", "openat", "close", "read", "write", "pread64", "pwrite64",
    "stat", "lstat", "fstat", "newfstatat", "statx", "access",
    "faccessat", "faccessat2", "unlink", "unlinkat", "rename",
    "renameat", "renameat2", "mkdir", "mkdirat", "rmdir", "chdir",
    "chmod", "fchmodat", "chown", "lchown", "fchownat", "truncate",
    "readlink", "readlinkat", "statfs", "lseek", "getcwd", "creat",
    "symlink", "symlinkat", "link", "linkat", "mount", "umount2",
    "chroot", "pivot_root", "utime", "utimes", "futimesat",
    "getdents64"]

  const NETWORK_SYSCALLS: seq<string> := [
    "socket", "connect", "accept", "accept4", "bind", "listen",
    "send", "recv", "sendto", "recvfrom", "sendmsg", "recvmsg",
    "setsockopt", "getsockopt", "shutdown", "socketpair",
    "getsockname", "getpeername"]

  const PROCESS_SYSCALLS: seq<string> := [
    "fork", "vfork", "clone", "clone3", "execve", "execveat", "exit",
    "exit_group", "wait4", "waitid", "kill", "tgkill", "tkill",
    "ptrace", "prctl"]

  /** The scan of name_in_list. */
  predicate NameInList(list: seq<string>, name: string) {
    list != [] && (list[0] == name || NameInList(list[1..], name))
  }

  /** Whether one stored token lets a name through, in the order the scan tries. */
  predicate TokenAdmits(token: string, name: string) {
    if token == "file" && NameInList(FILE_SYSCALLS, name) then true
    else if token == "network" && NameInList(NETWORK_SYSCALLS, name) then true
    else if token == "process" && NameInList(PROCESS_SYSCALLS, name) then true
    else token == name
  }

  predicate AnyAdmits(tokens: seq<string>, name: string) {
    tokens != [] && (TokenAdmits(tokens[0], name) || AnyAdmits(tokens[1..], name))
  }

  /** syscall_allowed: no stored token means no filter. */
  predicate Allowed(tokens: seq<string>, name: string) {
    tokens == [] || AnyAdmits(tokens, name)
  }

  // ----- What the scans decide -----

  lemma {:induction false} NameInListIsMembership(list: seq<string>, name: string)
    ensures NameInList(list, name) <==> name in list
  {
    if list != [] {
      assert list == [list[0]] + list[1..];
      NameInListIsMembership(list[1..], name);
    }
  }

  /** A category name, or the name itself. */
  ghost predicate Matches(token: string, name: string) {
    || (token == "file" && name in FILE_SYSCALLS)
    || (token == "network" && name in NETWORK_SYSCALLS)
    || (token == "process" && name in PROCESS_SYSCALLS)
    || token == name
  }

  lemma {:induction false} TokenAdmitsIsMatches(token: string, name: string)
    ensures TokenAdmits(token, name) <==> Matches(token, name)
  {
    NameInListIsMembership(FILE_SYSCALLS, name);
    NameInListIsMembership(NETWORK_SYSCALLS, name);
    NameInListIsMembership(PROCESS_SYSCALLS, name);
  }

  lemma {:induction false} AnyAdmitsIsExists(tokens: seq<string>, name: string)
    ensures AnyAdmits(tokens, name) <==> exists t :: t in tokens && Matches(t, name)
  {
    if tokens != [] {
      assert tokens == [tokens[0]] + tokens[1..];
      TokenAdmitsIsMatches(tokens[0], name);
      AnyAdmitsIsExists(tokens[1..], name);
    }
  }

  /** A name is traced exactly when no token was stored or some stored token matches it. */
  lemma {:induction false} AllowedIff(tokens: seq<string>, name: string)
    ensures Allowed(tokens, name) <==> (tokens == [] || exists t :: t in tokens && Matches(t, name))
  {
    AnyAdmitsIsExists(tokens, name);
  }

  /** Each category token admits the names of its category and itself, and an exact name only itself. */
  lemma {:induction false} Categories()
    ensures Matches("file", "getdents64") && Matches("network", "getpeername") && Matches("process", "prctl")
    ensures Matches("openat", "openat") && !Matches("openat", "open") && !Matches("open", "openat")
  {
    assert FILE_SYSCALLS[47] == "getdents64";
    assert NETWORK_SYSCALLS[17] == "getpeername";
    assert PROCESS_SYSCALLS[14] == "prctl";
  }
}
