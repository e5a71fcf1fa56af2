/** Three of the tables of src/decoders.c, with the values of the x86-64 Linux headers. */
module FlagTables {
  import opened FlagWalk
  import opened FlagMeaning

  const O_TMPFILE := FlagEntry(0x410000, "O_TMPFILE")
  const O_SYNC := FlagEntry(0x101000, "O_SYNC")
  const O_DSYNC := FlagEntry(0x1000, "O_DSYNC")
  const O_DIRECTORY := FlagEntry(0x10000, "O_DIRECTORY")

  // The open table in pieces, in order.
  const OPEN_COMPOSITE: FlagTable := [O_TMPFILE, O_SYNC, FlagEntry(0x40, "O_CREAT"), FlagEntry(0x80, "O_EXCL")]
  const OPEN_STATUS: FlagTable := [
    FlagEntry(0x100, "O_NOCTTY"), FlagEntry(0x200, "O_TRUNC"),
    FlagEntry(0x400, "O_APPEND"), FlagEntry(0x800, "O_NONBLOCK")]
  const OPEN_KIND: FlagTable := [O_DSYNC, FlagEntry(0x4000, "O_DIRECT"), FlagEntry(0, "O_LARGEFILE"), O_DIRECTORY]
  const OPEN_OTHERS: FlagTable := [
    FlagEntry(0x20000, "O_NOFOLLOW"), FlagEntry(0x40000, "O_NOATIME"),
    FlagEntry(0x80000, "O_CLOEXEC"), FlagEntry(0x200000, "O_PATH")]

  const OPEN_FLAGS: FlagTable := OPEN_COMPOSITE + OPEN_STATUS + OPEN_KIND + OPEN_OTHERS

  const STATX_BASIC_STATS := FlagEntry(0x7ff, "STATX_BASIC_STATS")

  const STATX_MASK: FlagTable := [
    STATX_BASIC_STATS,
    FlagEntry(0x1, "STATX_TYPE"), FlagEntry(0x2, "STATX_MODE"), FlagEntry(0x4, "STATX_NLINK"),
    FlagEntry(0x8, "STATX_UID"), FlagEntry(0x10, "STATX_GID"), FlagEntry(0x20, "STATX_ATIME"),
    FlagEntry(0x40, "STATX_MTIME"), FlagEntry(0x80, "STATX_CTIME"), FlagEntry(0x100, "STATX_INO"),
    FlagEntry(0x200, "STATX_SIZE"), FlagEntry(0x400, "STATX_BLOCKS"), FlagEntry(0x800, "STATX_BTIME"),
    FlagEntry(0x1000, "STATX_MNT_ID")]

  // The clone table in pieces, in order.
  const CLONE_MEMORY: FlagTable := [
    FlagEntry(0x100, "CLONE_VM"), FlagEntry(0x200, "CLONE_FS"),
    FlagEntry(0x400, "CLONE_FILES")]
  const CLONE_SIGNALS: FlagTable := [
    FlagEntry(0x800, "CLONE_SIGHAND"), FlagEntry(0x1000, "CLONE_PIDFD"),
    FlagEntry(0x2000, "CLONE_PTRACE")]
  const CLONE_FAMILY: FlagTable := [
    FlagEntry(0x4000, "CLONE_VFORK"), FlagEntry(0x8000, "CLONE_PARENT"),
    FlagEntry(0x10000, "CLONE_THREAD")]
  const CLONE_SYSTEM: FlagTable := [
    FlagEntry(0x20000, "CLONE_NEWNS"), FlagEntry(0x40000, "CLONE_SYSVSEM"),
    FlagEntry(0x80000, "CLONE_SETTLS")]
  const CLONE_IDS: FlagTable := [
    FlagEntry(0x100000, "CLONE_PARENT_SETTID"), FlagEntry(0x200000, "CLONE_CHILD_CLEARTID")]
  const CLONE_CHILD: FlagTable := [
    FlagEntry(0x800000, "CLONE_UNTRACED"), FlagEntry(0x1000000, "CLONE_CHILD_SETTID")]
  const CLONE_GROUPS: FlagTable := [
    FlagEntry(0x2000000, "CLONE_NEWCGROUP"), FlagEntry(0x4000000, "CLONE_NEWUTS")]
  const CLONE_SPACES: FlagTable := [
    FlagEntry(0x8000000, "CLONE_NEWIPC"), FlagEntry(0x10000000, "CLONE_NEWUSER"),
    FlagEntry(0x20000000, "CLONE_NEWPID")]
  const CLONE_LAST: FlagTable := [
    FlagEntry(0x40000000, "CLONE_NEWNET"), FlagEntry(0x80000000, "CLONE_IO"),
    FlagEntry(0x100000000, "CLONE_CLEAR_SIGHAND")]

  const CLONE_FLAGS: FlagTable :=
    CLONE_MEMORY + CLONE_SIGNALS + CLONE_FAMILY + CLONE_SYSTEM +
    CLONE_IDS + CLONE_CHILD + CLONE_GROUPS + CLONE_SPACES + CLONE_LAST

  /** Every open value with all the O_TMPFILE bits shows O_TMPFILE and not O_DIRECTORY, and one
      with all the O_SYNC bits shows O_SYNC and not O_DSYNC. */
  lemma {:induction false} OpenComposites(flags: bv64)
    ensures var ms := Matched(OPEN_FLAGS, true, Without(flags, O_ACCMODE));
            && (And(flags, O_TMPFILE.value) == O_TMPFILE.value ==> O_TMPFILE in ms && O_DIRECTORY !in ms)
            && (And(flags, O_SYNC.value) == O_SYNC.value ==> O_SYNC in ms && O_DSYNC !in ms)
  {
    var v := Without(flags, O_ACCMODE);
    if And(flags, O_TMPFILE.value) == O_TMPFILE.value {
      KeepBits(flags, O_ACCMODE, O_TMPFILE.value);
      CompositeWins(OPEN_FLAGS, true, 0, v);
    }
    if And(flags, O_SYNC.value) == O_SYNC.value {
      KeepBits(flags, O_ACCMODE, O_SYNC.value);
      CompositeWins(OPEN_FLAGS, true, 1, v);
    }
  }

  /** A statx mask with all the basic bits shows STATX_BASIC_STATS and none of its parts. */
  lemma {:induction false} StatxComposite(mask: bv64)
    requires And(mask, STATX_BASIC_STATS.value) == STATX_BASIC_STATS.value
    ensures STATX_BASIC_STATS in Matched(STATX_MASK, true, mask)
    ensures forall m :: m in Matched(STATX_MASK, true, mask) && m != STATX_BASIC_STATS ==>
              And(m.value, STATX_BASIC_STATS.value) == 0
  {
    CompositeWins(STATX_MASK, true, 0, mask);
  }
}
