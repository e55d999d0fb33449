// The HAL file descriptor table as a value, the system calls as functions on it,
// and what every run of them keeps.

module FdTable {

  // A pointer to a registered device or file system, or NULL.
  datatype DevRef = Null | Device(id: nat) | FileSystem(id: nat)

  datatype Fd = Fd(dev: DevRef, priv: int, flags: bv32)

  // alt_fd_list and alt_max_fd
  datatype Table = Table(fds: seq<Fd>, maxFd: int)

  const ALT_FD_EXCL: bv32 := 0x8000_0000
  const ALT_FD_DEV: bv32 := 0x4000_0000
  const ALT_FD_FLAGS_MASK: bv32 := 0xC000_0000
  const ALT_FCNTL_FLAGS_MASK: bv32 := 0x0000_4008   // O_NONBLOCK | O_APPEND

  const EACCES: int := 13
  const ENODEV: int := 19
  const EINVAL: int := 22
  const EMFILE: int := 24
  const EBADFD: int := 81

  predicate Excl(flags: bv32) {
    flags & ALT_FD_EXCL != 0
  }

  predicate IsDev(flags: bv32) {
    flags & ALT_FD_DEV != 0
  }

  // The flag operations of the HAL, and what they do to the two private bits.
  function PublicPart(flags: bv32): (f: bv32)
    ensures !Excl(f) && !IsDev(f)
  {
    flags & !ALT_FD_FLAGS_MASK
  }

  function MarkDev(flags: bv32): (f: bv32)
    ensures Excl(f) == Excl(flags) && IsDev(f)
  {
    flags | ALT_FD_DEV
  }

  function MarkExcl(flags: bv32): (f: bv32)
    ensures Excl(f) && IsDev(f) == IsDev(flags)
  {
    flags | ALT_FD_EXCL
  }

  function ClearExcl(flags: bv32): (f: bv32)
    ensures !Excl(f) && IsDev(f) == IsDev(flags)
  {
    flags & !ALT_FD_EXCL
  }

  function SetStatus(flags: bv32, arg: bv32): (f: bv32)
    ensures Excl(f) == Excl(flags) && IsDev(f) == IsDev(flags)
  {
    (flags & !ALT_FCNTL_FLAGS_MASK) | (arg & ALT_FCNTL_FLAGS_MASK)
  }

  function NoFlags(): (f: bv32)
    ensures !Excl(f) && !IsDev(f)
  {
    0
  }

  // The least free index at or after i, or the size of the table.
  function FirstFree(fds: seq<Fd>, i: nat): (r: nat)
    requires i <= |fds|
    ensures i <= r <= |fds| && (r < |fds| ==> fds[r].dev == Null)
    ensures forall k :: i <= k < r ==> fds[k].dev != Null
    decreases |fds| - i
  {
    if i == |fds| || fds[i].dev == Null then i else FirstFree(fds, i + 1)
  }

  // alt_get_fd
  function GetFd(t: Table, dev: DevRef): (Table, int) {
    var i := FirstFree(t.fds, 0);
    if i == |t.fds| then (t, -EMFILE)
    else (Table(t.fds[i := t.fds[i].(dev := dev)], if i > t.maxFd then i else t.maxFd), i)
  }

  // alt_release_fd
  function Release(t: Table, fd: int): Table
    requires fd < |t.fds|
  {
    if fd > 2 then t.(fds := t.fds[fd := t.fds[fd].(dev := Null, flags := NoFlags())]) else t
  }

  // The loop of alt_file_locked, which looks at alt_max_fd too.
  predicate LockedByOther(t: Table, fd: nat)
    requires fd < |t.fds| && t.maxFd < |t.fds|
  {
    exists i :: 0 <= i <= t.maxFd && t.fds[i].dev == t.fds[fd].dev && Excl(t.fds[i].flags) && i != fd
  }

  // The loop of alt_fd_lock, which does not.
  predicate UsedByOther(t: Table, fd: nat)
    requires fd < |t.fds| && t.maxFd <= |t.fds|
  {
    exists i :: 0 <= i < t.maxFd && i != fd && t.fds[i].dev == t.fds[fd].dev
  }

  function SetFlags(t: Table, fd: nat, flags: bv32): Table
    requires fd < |t.fds|
  {
    t.(fds := t.fds[fd := t.fds[fd].(flags := flags)])
  }

  // What the driver's open answers, and the private data it leaves in the entry.
  datatype Answer = Answer(status: int, priv: int)

  function SetPriv(t: Table, fd: nat, priv: int): Table
    requires fd < |t.fds|
  {
    t.(fds := t.fds[fd := t.fds[fd].(priv := priv)])
  }

  // The driver's open on the entry, and the clean-up if it fails.
  function OpenEntry(t: Table, index: nat, driver: Answer): (Table, int)
    requires index < |t.fds|
  {
    var t1 := SetPriv(t, index, driver.priv);
    if driver.status < 0 then (Release(t1, index), driver.status) else (t1, index)
  }

  // ALT_OPEN: target is what the name was found to be.  The outcome is the descriptor,
  // or a negative error number.
  function Open(t: Table, target: DevRef, flags: bv32, driver: Answer): (Table, int)
    requires t.maxFd < |t.fds|
  {
    if target == Null then (t, -ENODEV)
    else
      var (t1, index) := GetFd(t, target);
      if index < 0 then (t1, index)
      else
        var t2 := SetFlags(t1, index, PublicPart(flags));
        if target.FileSystem? then
          OpenEntry(t2, index, driver)
        else
          var t3 := SetFlags(t2, index, MarkDev(t2.fds[index].flags));
          if LockedByOther(t3, index) then (Release(t3, index), -EACCES) else OpenEntry(t3, index, driver)
  }

  // alt_fd_lock
  function Lock(t: Table, fd: nat): (Table, int)
    requires fd < |t.fds| && t.maxFd <= |t.fds|
  {
    if UsedByOther(t, fd) then (t, -EACCES) else (SetFlags(t, fd, MarkExcl(t.fds[fd].flags)), 0)
  }

  datatype Request = TIOCEXCL | TIOCNXCL | Other

  // ALT_IOCTL: driver is the result of the driver's ioctl, -ENOTTY if it has none.
  function Ioctl(t: Table, fd: int, req: Request, driver: int): (Table, int)
    requires fd < |t.fds| && t.maxFd <= |t.fds|
  {
    if fd < 0 then (t, -EBADFD)
    else if IsDev(t.fds[fd].flags) && req == TIOCEXCL then Lock(t, fd)
    else if IsDev(t.fds[fd].flags) && req == TIOCNXCL then
      (SetFlags(t, fd, ClearExcl(t.fds[fd].flags)), 0)
    else (t, driver)
  }

  // ALT_CLOSE: driver is the result of the driver's close.
  function Close(t: Table, fd: int, driver: int): (Table, int)
    requires fd < |t.fds|
  {
    if fd < 0 then (t, -EBADFD) else (Release(t, fd), if driver < 0 then driver else 0)
  }

  datatype Command = F_GETFL | F_SETFL(arg: bv32) | Unknown

  // ALT_FCNTL, as to the table.
  function Fcntl(t: Table, fd: int, cmd: Command): Table
    requires fd < |t.fds|
  {
    if fd >= 0 && cmd.F_SETFL?
    then SetFlags(t, fd, SetStatus(t.fds[fd].flags, cmd.arg))
    else t
  }

  // alt_open_fd
  function OpenFd(t: Table, std: nat, target: DevRef, flags: bv32, driver: Answer): Table
    requires t.maxFd < |t.fds| && std < |t.fds|
  {
    var (t1, old1) := Open(t, target, flags, driver);
    if old1 >= 0 then Release(t1.(fds := t1.fds[std := t1.fds[old1]]), old1) else t1
  }

  // The table at start-up: three descriptors of /dev/null.
  const NULL_DEV: DevRef := Device(0)

  function Init(size: nat): Table
    requires size > 3
  {
    Table(seq(size, i => if i < 3 then Fd(NULL_DEV, 0, NoFlags()) else Fd(Null, 0, NoFlags())), -1)
  }

  // What every run keeps.
  ghost predicate Inv(t: Table) {
    && |t.fds| > 3 && -1 <= t.maxFd < |t.fds|
    && (forall i :: 0 <= i < 3 ==> t.fds[i].dev != Null)
    && (forall i :: 3 <= i < |t.fds| && t.fds[i].dev != Null ==> i <= t.maxFd)
    && (forall i :: 0 <= i < |t.fds| ==> EntryInv(t, t.fds[i]))
    && (forall i, j | 0 <= i < |t.fds| && 0 <= j < |t.fds| && i != j ::
          Excl(t.fds[i].flags) && t.fds[i].dev == t.fds[j].dev ==> i < j)
  }

  ghost predicate EntryInv(t: Table, fd: Fd) {
    && (fd.dev == Null ==> fd.flags == NoFlags())
    && (Excl(fd.flags) ==> IsDev(fd.flags))
    && (IsDev(fd.flags) ==> t.maxFd >= 3 && fd.dev.Device?)
  }

  // The calls a program makes, with what the drivers answer.
  datatype Call =
    | CallOpen(target: DevRef, flags: bv32, answer: Answer)
    | CallClose(fd: int, driver: int)
    | CallIoctl(fd: int, req: Request, driver: int)
    | CallFcntl(fd: int, cmd: Command)
    | CallRedirect(std: nat, target: DevRef, flags: bv32, answer: Answer)

  // The calls that do not follow a NULL pointer or leave the table.
  predicate Allowed(t: Table, c: Call) {
    match c
    case CallOpen(_, _, _) => true
    case CallClose(fd, _) => fd < |t.fds| && (fd >= 0 ==> t.fds[fd].dev != Null)
    case CallIoctl(fd, _, _) => fd < |t.fds| && (fd >= 0 ==> t.fds[fd].dev != Null)
    case CallFcntl(fd, _) => fd < |t.fds| && (fd >= 0 ==> t.fds[fd].dev != Null)
    case CallRedirect(std, _, _, _) => std < 3
  }

  function Do(t: Table, c: Call): Table
    requires |t.fds| > 3 && t.maxFd < |t.fds| && Allowed(t, c)
  {
    match c
    case CallOpen(target, flags, driver) => Open(t, target, flags, driver).0
    case CallClose(fd, driver) => Close(t, fd, driver).0
    case CallIoctl(fd, req, driver) => Ioctl(t, fd, req, driver).0
    case CallFcntl(fd, cmd) => Fcntl(t, fd, cmd)
    case CallRedirect(std, target, flags, driver) => OpenFd(t, std, target, flags, driver)
  }

  // t' is reached from t by the calls.
  ghost predicate Runs(t: Table, calls: seq<Call>, t': Table)
    decreases calls
  {
    if calls == [] then t == t'
    else |t.fds| > 3 && t.maxFd < |t.fds| && Allowed(t, calls[0]) && Runs(Do(t, calls[0]), calls[1..], t')
  }

  lemma InitInv(size: nat)
    requires size > 3
    ensures Inv(Init(size))
  {
    hide Excl, IsDev, NoFlags;
    assert forall i :: 0 <= i < size ==> Init(size).fds[i].flags == NoFlags();
  }

  lemma ReleaseInv(t: Table, fd: int)
    requires Inv(t) && fd < |t.fds|
    ensures Inv(Release(t, fd))
  {
    hide Excl, IsDev, PublicPart, MarkDev, MarkExcl, ClearExcl, SetStatus, NoFlags;
  }

  lemma LockInv(t: Table, fd: nat)
    requires Inv(t) && fd < |t.fds| && IsDev(t.fds[fd].flags)
    ensures Inv(Lock(t, fd).0)
  {
    hide Excl, IsDev, PublicPart, MarkDev, MarkExcl, ClearExcl, SetStatus, NoFlags;
  }

  // alt_get_fd hands out the least free descriptor, never a standard one, and
  // fails exactly when the table is full.
  lemma GetFdIsLeastFree(t: Table, dev: DevRef)
    requires Inv(t)
    ensures var (t', fd) := GetFd(t, dev);
            if forall i :: 0 <= i < |t.fds| ==> t.fds[i].dev != Null then fd == -EMFILE && t' == t
            else && 3 <= fd < |t.fds| && t.fds[fd].dev == Null
                 && (forall i :: 0 <= i < fd ==> t.fds[i].dev != Null)
                 && fd <= t'.maxFd && t'.maxFd >= t.maxFd
                 && t'.fds == t.fds[fd := t.fds[fd].(dev := dev)]
  {
    hide Excl, IsDev, PublicPart, MarkDev, MarkExcl, ClearExcl, SetStatus, NoFlags;
  }

  // An open that fails leaves every entry as it was, but for the private data of a
  // free one if the driver's open wrote it.
  lemma FailedOpenKeepsEntries(t: Table, target: DevRef, flags: bv32, driver: Answer)
    requires Inv(t) && Open(t, target, flags, driver).1 < 0
    ensures var fds, k := Open(t, target, flags, driver).0.fds, FirstFree(t.fds, 0);
            || fds == t.fds
            || (k < |t.fds| && t.fds[k].dev == Null && fds == t.fds[k := t.fds[k].(priv := driver.priv)])
    ensures t.maxFd <= Open(t, target, flags, driver).0.maxFd < |t.fds|
  {
    hide Excl, IsDev, PublicPart, MarkDev, MarkExcl, ClearExcl, SetStatus, NoFlags;
    GetFdIsLeastFree(t, target);
  }

  // An open of a device succeeds exactly when there is a free descriptor, no
  // descriptor holds the device, and the driver agrees.
  lemma OpenSucceedsUnlessLocked(t: Table, target: DevRef, flags: bv32, driver: Answer)
    requires Inv(t) && target.Device?
    ensures Open(t, target, flags, driver).1 >= 0 <==>
              && (exists i :: 0 <= i < |t.fds| && t.fds[i].dev == Null)
              && (forall i :: 0 <= i < |t.fds| && t.fds[i].dev == target ==> !Excl(t.fds[i].flags))
              && driver.status >= 0
  {
    hide Excl, IsDev, PublicPart, MarkDev, MarkExcl, ClearExcl, SetStatus, NoFlags;
    GetFdIsLeastFree(t, target);
    var (t1, index) := GetFd(t, target);
    if index >= 0 {
      var t2 := SetFlags(t1, index, PublicPart(flags));
      var t3 := SetFlags(t2, index, MarkDev(t2.fds[index].flags));
      forall i | 0 <= i < |t.fds| && t.fds[i].dev == target && Excl(t.fds[i].flags)
        ensures LockedByOther(t3, index)
      {
        assert t3.fds[i] == t.fds[i] && i <= t3.maxFd;
      }
      if LockedByOther(t3, index) {
        var i :| 0 <= i <= t3.maxFd && t3.fds[i].dev == t3.fds[index].dev && Excl(t3.fds[i].flags) && i != index;
        assert t3.fds[i] == t.fds[i];
      }
    }
  }

  // What a successful open does: the least free entry now refers to the target,
  // not exclusively, and is marked as a device's if it is one.
  lemma SuccessfulOpenTakesEntry(t: Table, target: DevRef, flags: bv32, driver: Answer)
    requires Inv(t) && Open(t, target, flags, driver).1 >= 0
    ensures var (t', fd) := Open(t, target, flags, driver);
            && target != Null && 3 <= fd < |t.fds| && fd == FirstFree(t.fds, 0)
            && t'.maxFd == (if fd > t.maxFd then fd else t.maxFd)
            && t'.fds == t.fds[fd := t'.fds[fd]] && t'.fds[fd].dev == target
            && !Excl(t'.fds[fd].flags) && (IsDev(t'.fds[fd].flags) <==> target.Device?)
  {
    hide Excl, IsDev, PublicPart, MarkDev, MarkExcl, ClearExcl, SetStatus, NoFlags;
    GetFdIsLeastFree(t, target);
  }

  lemma OpenInv(t: Table, target: DevRef, flags: bv32, driver: Answer)
    requires Inv(t)
    ensures Inv(Open(t, target, flags, driver).0)
  {
    hide Excl, IsDev, PublicPart, MarkDev, MarkExcl, ClearExcl, SetStatus, NoFlags;
    hide Open;
    var (t', fd) := Open(t, target, flags, driver);
    if fd < 0 {
      FailedOpenKeepsEntries(t, target, flags, driver);
    } else {
      SuccessfulOpenTakesEntry(t, target, flags, driver);
      if target.Device? {
        OpenSucceedsUnlessLocked(t, target, flags, driver);
      }
    }
  }

  // Copying an entry that is in use onto a standard descriptor, when nobody holds
  // its device.
  lemma CopyInv(t: Table, std: nat, fd: nat)
    requires Inv(t) && std < 3 <= fd < |t.fds| && t.fds[fd].dev != Null
    requires forall i :: 0 <= i < |t.fds| && t.fds[i].dev == t.fds[fd].dev ==> !Excl(t.fds[i].flags)
    ensures Inv(t.(fds := t.fds[std := t.fds[fd]]))
  {
    hide Excl, IsDev, PublicPart, MarkDev, MarkExcl, ClearExcl, SetStatus, NoFlags;
  }

  lemma OpenFdInv(t: Table, std: nat, target: DevRef, flags: bv32, driver: Answer)
    requires Inv(t) && std < 3
    ensures Inv(OpenFd(t, std, target, flags, driver))
  {
    hide Excl, IsDev, PublicPart, MarkDev, MarkExcl, ClearExcl, SetStatus, NoFlags;
    hide Open, EntryInv;
    var (t1, fd) := Open(t, target, flags, driver);
    OpenInv(t, target, flags, driver);
    if fd >= 0 {
      SuccessfulOpenTakesEntry(t, target, flags, driver);
      NobodyHoldsAfterOpen(t, target, flags, driver);
      CopyInv(t1, std, fd);
      ReleaseInv(t1.(fds := t1.fds[std := t1.fds[fd]]), fd);
    }
  }

  lemma NobodyHoldsAfterOpen(t: Table, target: DevRef, flags: bv32, driver: Answer)
    requires Inv(t) && Open(t, target, flags, driver).1 >= 0
    ensures var (t', fd) := Open(t, target, flags, driver);
            forall i :: 0 <= i < |t'.fds| && t'.fds[i].dev == target ==> !Excl(t'.fds[i].flags)
  {
    hide Excl, IsDev, PublicPart, MarkDev, MarkExcl, ClearExcl, SetStatus, NoFlags;
    hide Open;
    SuccessfulOpenTakesEntry(t, target, flags, driver);
    if target.Device? {
      OpenSucceedsUnlessLocked(t, target, flags, driver);
    }
  }

  lemma SetFlagsInv(t: Table, fd: nat, flags: bv32)
    requires Inv(t) && fd < |t.fds| && t.fds[fd].dev != Null
    requires (Excl(flags) ==> Excl(t.fds[fd].flags)) && IsDev(flags) == IsDev(t.fds[fd].flags)
    ensures Inv(SetFlags(t, fd, flags))
  {
    hide Excl, IsDev, PublicPart, MarkDev, MarkExcl, ClearExcl, SetStatus, NoFlags;
  }

  lemma DoInv(t: Table, c: Call)
    requires Inv(t) && Allowed(t, c)
    ensures Inv(Do(t, c)) && |Do(t, c).fds| == |t.fds|
  {
    hide Excl, IsDev, PublicPart, MarkDev, MarkExcl, ClearExcl, SetStatus, NoFlags;
    hide Open, EntryInv;
    match c
    case CallOpen(target, flags, driver) =>
      OpenInv(t, target, flags, driver);
      OpenKeepsSize(t, target, flags, driver);
    case CallClose(fd, driver) => ReleaseInv(t, fd);
    case CallIoctl(fd, req, driver) =>
      if fd >= 0 && IsDev(t.fds[fd].flags) {
        if req == TIOCEXCL {
          LockInv(t, fd);
        } else if req == TIOCNXCL {
          SetFlagsInv(t, fd, ClearExcl(t.fds[fd].flags));
        }
      }
    case CallFcntl(fd, cmd) =>
      if fd >= 0 && cmd.F_SETFL? {
        SetFlagsInv(t, fd, SetStatus(t.fds[fd].flags, cmd.arg));
      }
    case CallRedirect(std, target, flags, driver) =>
      OpenFdInv(t, std, target, flags, driver);
      OpenKeepsSize(t, target, flags, driver);
  }

  lemma OpenKeepsSize(t: Table, target: DevRef, flags: bv32, driver: Answer)
    requires t.maxFd < |t.fds|
    ensures |Open(t, target, flags, driver).0.fds| == |t.fds|
    ensures Open(t, target, flags, driver).1 < |t.fds|
  {
    hide Excl, IsDev, PublicPart, MarkDev, MarkExcl, ClearExcl, SetStatus, NoFlags;
  }

  lemma {:induction false} RunInv(t: Table, calls: seq<Call>, t': Table)
    requires Inv(t) && Runs(t, calls, t')
    ensures Inv(t')
    decreases calls
  {
    hide Excl, IsDev, PublicPart, MarkDev, MarkExcl, ClearExcl, SetStatus, NoFlags;
    if calls != [] {
      DoInv(t, calls[0]);
      RunInv(Do(t, calls[0]), calls[1..], t');
    }
  }

  // In every run from start-up: the standard descriptors stay allocated, at most
  // one descriptor of a device holds it exclusively, and while one does no open
  // of that device succeeds.
  lemma ExclusionHoldsInEveryRun(size: nat, calls: seq<Call>, t: Table)
    requires size > 3 && Runs(Init(size), calls, t)
    ensures Inv(t)
    ensures forall i :: 0 <= i < 3 ==> t.fds[i].dev != Null
    ensures forall i, j | 0 <= i < |t.fds| && 0 <= j < |t.fds| && t.fds[i].dev == t.fds[j].dev ::
              Excl(t.fds[i].flags) && Excl(t.fds[j].flags) ==> i == j
    ensures forall i, flags: bv32, driver: Answer | 0 <= i < |t.fds| && Excl(t.fds[i].flags) ::
              Open(t, t.fds[i].dev, flags, driver).1 < 0
  {
    hide Excl, IsDev, PublicPart, MarkDev, MarkExcl, ClearExcl, SetStatus, NoFlags;
    InitInv(size);
    RunInv(Init(size), calls, t);
    forall i, flags: bv32, driver: Answer | 0 <= i < |t.fds| && Excl(t.fds[i].flags)
      ensures Open(t, t.fds[i].dev, flags, driver).1 < 0
    {
      OpenSucceedsUnlessLocked(t, t.fds[i].dev, flags, driver);
    }
  }

  // ---------- what the calls do ----------

  // The flag operations touch the private bits alone.
  lemma MarkDevIsPrivate(flags: bv32)
    ensures PublicPart(MarkDev(flags)) == PublicPart(flags)
  {
    hide Excl, IsDev;
  }

  lemma MarkExclIsPrivate(flags: bv32)
    ensures PublicPart(MarkExcl(flags)) == PublicPart(flags)
  {
    hide Excl, IsDev;
  }

  lemma ClearExclIsPrivate(flags: bv32)
    ensures PublicPart(ClearExcl(flags)) == PublicPart(flags)
  {
    hide Excl, IsDev;
  }

  // The public part is all but the two topmost bits.
  lemma PublicBits(flags: bv32)
    ensures PublicPart(flags) == flags & 0x3FFF_FFFF && PublicPart(PublicPart(flags)) == PublicPart(flags)
  {
    hide Excl, IsDev;
  }

  lemma StatusBits(flags: bv32, arg: bv32)
    ensures SetStatus(flags, arg) & 0x4008 == arg & 0x4008
    ensures SetStatus(flags, arg) & 0xFFFF_BFF7 == flags & 0xFFFF_BFF7
  {
    hide Excl, IsDev;
  }

  lemma NoFlagsIsZero()
    ensures NoFlags() == 0
  {
  }

  // Only the private bits of fd differ between the tables.
  predicate OnlyPrivateBits(t: Table, t': Table, fd: nat)
    requires fd < |t.fds| == |t'.fds|
  {
    && t' == t.(fds := t.fds[fd := t.fds[fd].(flags := t'.fds[fd].flags)])
    && PublicPart(t'.fds[fd].flags) == PublicPart(t.fds[fd].flags)
  }

  // A lock that is granted marks its descriptor and nothing else, and from then on no
  // open of the device succeeds; one that is refused changes nothing.
  lemma GrantedLockExcludes(t: Table, fd: nat, driver: int)
    requires Inv(t) && fd < |t.fds| && IsDev(t.fds[fd].flags)
    ensures var (t', rc) := Ioctl(t, fd, TIOCEXCL, driver);
            if rc < 0 then rc == -13 && t' == t
            else && rc == 0 && |t'.fds| == |t.fds| && OnlyPrivateBits(t, t', fd)
                 && Excl(t'.fds[fd].flags) && IsDev(t'.fds[fd].flags)
                 && forall flags: bv32, answer: Answer :: Open(t', t.fds[fd].dev, flags, answer).1 < 0
  {
    hide Excl, IsDev, PublicPart, MarkDev, MarkExcl, ClearExcl, SetStatus, NoFlags, UsedByOther, Open, EntryInv;
    MarkExclIsPrivate(t.fds[fd].flags);
    LockInv(t, fd);
    var (t', rc) := Lock(t, fd);
    if rc >= 0 {
      LockedDeviceIsDevice(t', fd);
      forall flags: bv32, answer: Answer
        ensures Open(t', t.fds[fd].dev, flags, answer).1 < 0
      {
        OpenSucceedsUnlessLocked(t', t.fds[fd].dev, flags, answer);
      }
    }
  }

  lemma LockedDeviceIsDevice(t: Table, fd: nat)
    requires Inv(t) && fd < |t.fds| && IsDev(t.fds[fd].flags)
    ensures t.fds[fd].dev.Device?
  {
    hide Excl, IsDev, NoFlags;
  }

  // Unlocking takes the mark away again and changes nothing else.
  lemma UnlockReleases(t: Table, fd: nat, driver: int)
    requires Inv(t) && fd < |t.fds| && IsDev(t.fds[fd].flags)
    ensures var (t', rc) := Ioctl(t, fd, TIOCNXCL, driver);
            && rc == 0 && |t'.fds| == |t.fds| && OnlyPrivateBits(t, t', fd)
            && !Excl(t'.fds[fd].flags) && IsDev(t'.fds[fd].flags)
  {
    hide Excl, IsDev, PublicPart, MarkDev, MarkExcl, ClearExcl, SetStatus, NoFlags, EntryInv;
    ClearExclIsPrivate(t.fds[fd].flags);
  }

  // Any other request, and any request on what is not a device, is the driver's.
  lemma OtherRequestsPass(t: Table, fd: int, req: Request, driver: int)
    requires fd < |t.fds| && t.maxFd <= |t.fds|
    requires fd < 0 || !IsDev(t.fds[fd].flags) || req == Other
    ensures Ioctl(t, fd, req, driver) == (t, if fd < 0 then -81 else driver)
  {
  }

  // Closing frees a descriptor above 2, keeps a standard one, and passes on the error
  // of the driver.
  lemma CloseFrees(t: Table, fd: int, driver: int)
    requires fd < |t.fds|
    ensures var (t', rc) := Close(t, fd, driver);
            && t'.maxFd == t.maxFd && |t'.fds| == |t.fds|
            && (forall i :: 0 <= i < |t.fds| && !(i == fd > 2) ==> t'.fds[i] == t.fds[i])
            && (fd > 2 ==> t'.fds[fd].dev == Null && t'.fds[fd].flags == 0)
            && rc == if fd < 0 then -81 else if driver < 0 then driver else 0
  {
  }

  // F_SETFL stores O_NONBLOCK and O_APPEND and no other bit; other commands store
  // nothing.
  lemma SetFlStoresStatus(t: Table, fd: int, cmd: Command)
    requires fd < |t.fds|
    ensures var t' := Fcntl(t, fd, cmd);
            && t'.maxFd == t.maxFd && |t'.fds| == |t.fds|
            && (forall i :: 0 <= i < |t.fds| && i != fd ==> t'.fds[i] == t.fds[i])
            && (fd >= 0 && cmd.F_SETFL? ==>
                  && t'.fds[fd] == t.fds[fd].(flags := t'.fds[fd].flags)
                  && t'.fds[fd].flags & 0x4008 == cmd.arg & 0x4008
                  && t'.fds[fd].flags & 0xFFFF_BFF7 == t.fds[fd].flags & 0xFFFF_BFF7)
            && (fd < 0 || !cmd.F_SETFL? ==> t' == t)
  {
    if fd >= 0 && cmd.F_SETFL? {
      StatusBits(t.fds[fd].flags, cmd.arg);
    }
  }

  // The number an open fails with, in the order the causes are looked at.
  lemma OpenErrorIs(t: Table, target: DevRef, flags: bv32, driver: Answer)
    requires Inv(t) && Open(t, target, flags, driver).1 < 0
    ensures Open(t, target, flags, driver).1
            == if target == Null then -19
               else if forall i :: 0 <= i < |t.fds| ==> t.fds[i].dev != Null then -24
               else if target.Device? && exists i :: 0 <= i < |t.fds| && t.fds[i].dev == target && Excl(t.fds[i].flags)
               then -13
               else driver.status
  {
    hide Excl, IsDev, PublicPart, MarkDev, MarkExcl, ClearExcl, SetStatus, NoFlags;
    GetFdIsLeastFree(t, target);
    var (t1, index) := GetFd(t, target);
    if target != Null && index >= 0 {
      assert !forall i :: 0 <= i < |t.fds| ==> t.fds[i].dev != Null;
      if target.Device? {
        var t2 := SetFlags(t1, index, PublicPart(flags));
        LockedIsHeld(t, t1, SetFlags(t2, index, MarkDev(t2.fds[index].flags)), target, index);
      }
    }
  }

  // The scan for a lock after an entry was taken finds what was there before.
  lemma LockedIsHeld(t: Table, t1: Table, t3: Table, target: DevRef, index: nat)
    requires Inv(t) && index < |t.fds| && t.fds[index].dev == Null && target != Null
    requires t1.fds == t.fds[index := t.fds[index].(dev := target)]
    requires t.maxFd <= t1.maxFd < |t.fds| && index <= t1.maxFd
    requires t3 == t1.(fds := t3.fds) && |t3.fds| == |t.fds| && t3.fds[index].dev == target
    requires forall i :: 0 <= i < |t.fds| && i != index ==> t3.fds[i] == t.fds[i]
    ensures LockedByOther(t3, index)
            <==> exists i :: 0 <= i < |t.fds| && t.fds[i].dev == target && Excl(t.fds[i].flags)
  {
    hide Excl, IsDev, NoFlags;
    if i :| 0 <= i < |t.fds| && t.fds[i].dev == target && Excl(t.fds[i].flags) {
      assert t3.fds[i] == t.fds[i] && i <= t3.maxFd;
    }
    if LockedByOther(t3, index) {
      var i :| 0 <= i <= t3.maxFd && t3.fds[i].dev == t3.fds[index].dev && Excl(t3.fds[i].flags) && i != index;
      assert t.fds[i].dev == target && Excl(t.fds[i].flags);
    }
  }

  // The entry a successful open fills: the caller's flags but for the private bits,
  // and what the driver's open left.
  lemma OpenFillsEntry(t: Table, target: DevRef, flags: bv32, driver: Answer)
    requires Inv(t) && Open(t, target, flags, driver).1 >= 0
    ensures var (t', fd) := Open(t, target, flags, driver);
            && fd < |t'.fds| && PublicPart(t'.fds[fd].flags) == PublicPart(flags) && t'.fds[fd].priv == driver.priv
  {
    hide Excl, IsDev, PublicPart, MarkDev, MarkExcl, ClearExcl, SetStatus, NoFlags;
    PublicBits(flags);
    MarkDevIsPrivate(PublicPart(flags));
    GetFdIsLeastFree(t, target);
  }

  // A redirection that can open its target makes the standard descriptor refer to it,
  // with the caller's flags, and leaves every other entry as it was but for the
  // private data of the free one used on the way; one that cannot is a failed open.
  lemma RedirectPointsAtTarget(t: Table, std: nat, target: DevRef, flags: bv32, driver: Answer)
    requires Inv(t) && std < 3
    ensures var t' := OpenFd(t, std, target, flags, driver);
            var (t1, fd) := Open(t, target, flags, driver);
            if fd < 0 then t' == t1
            else && 3 <= fd < |t'.fds| == |t.fds| && t'.fds[std].dev == target
                 && PublicPart(t'.fds[std].flags) == PublicPart(flags) && t'.fds[std].priv == driver.priv
                 && (IsDev(t'.fds[std].flags) <==> target.Device?) && !Excl(t'.fds[std].flags)
                 && t'.fds[fd].dev == Null && t'.fds[fd].flags == 0
                 && forall i :: 0 <= i < |t.fds| && i != std && i != fd ==> t'.fds[i] == t.fds[i]
  {
    hide Excl, IsDev, PublicPart, MarkDev, MarkExcl, ClearExcl, SetStatus, Open, Inv;
    StandardIsFirst(t);
    if Open(t, target, flags, driver).1 >= 0 {
      SuccessfulOpenTakesEntry(t, target, flags, driver);
      OpenFillsEntry(t, target, flags, driver);
    }
  }

  lemma StandardIsFirst(t: Table)
    requires Inv(t)
    ensures |t.fds| > 3 && t.maxFd < |t.fds|
  {
  }

  // At start-up the standard descriptors are those of the null device, unmarked, and
  // nothing else is open.
  lemma StartsClosed(size: nat, i: nat)
    requires size > 3 && i < size
    ensures |Init(size).fds| == size && Init(size).maxFd == -1
    ensures Init(size).fds[i].flags == 0 && Init(size).fds[i].dev == (if i < 3 then NULL_DEV else Null)
  {
    hide Excl, IsDev;
    assert Init(size).fds[i] == if i < 3 then Fd(NULL_DEV, 0, NoFlags()) else Fd(Null, 0, NoFlags());
    NoFlagsIsZero();
  }

  // No other descriptor refers to the device of fd: what the lock is documented
  // to check.
  ghost predicate OnlyUser(t: Table, fd: nat)
    requires fd < |t.fds|
  {
    forall i :: 0 <= i < |t.fds| && i != fd ==> t.fds[i].dev != t.fds[fd].dev
  }

  // The descriptor at the high-water mark also refers to the device of fd.
  predicate TopIsOtherUser(t: Table, fd: nat)
    requires fd < |t.fds| && 0 <= t.maxFd < |t.fds|
  {
    t.maxFd != fd && t.fds[t.maxFd].dev == t.fds[fd].dev
  }

  // The lock agrees with its documentation unless the one other user of the
  // device is the descriptor at the high-water mark: then it is granted all the
  // same.
  lemma LockIsGrantedToOnlyUserOrBelowTop(t: Table, fd: nat)
    requires Inv(t) && fd < |t.fds| && IsDev(t.fds[fd].flags)
    ensures Lock(t, fd).1 >= 0 <==>
              forall i :: 0 <= i < |t.fds| && i != fd && i != t.maxFd ==> t.fds[i].dev != t.fds[fd].dev
    ensures (Lock(t, fd).1 >= 0 <==> OnlyUser(t, fd))
            <==> !TopIsOtherUser(t, fd)
                 || exists i :: 0 <= i < |t.fds| && i != fd && i != t.maxFd && t.fds[i].dev == t.fds[fd].dev
  {
    hide Excl, IsDev, PublicPart, MarkDev, MarkExcl, ClearExcl, SetStatus, NoFlags;
  }

  // Two opens of one device, then a lock through the first: granted, although the
  // second descriptor is open.
  lemma LockIsGrantedBesideSecondUser()
    ensures var c := CallOpen(Device(1), 0, Answer(0, 0));
            exists t :: Runs(Init(32), [c, c], t) && |t.fds| == 32 && t.maxFd < 32
                        && t.fds[3].dev == t.fds[4].dev == Device(1) && Lock(t, 3).1 == 0
  {
    hide Excl, IsDev, PublicPart, MarkDev, MarkExcl, ClearExcl, SetStatus, NoFlags;
    hide Open;
    var c := CallOpen(Device(1), 0, Answer(0, 0));
    var t0 := Init(32);
    InitInv(32);
    var t1 := Do(t0, c);
    DoInv(t0, c);
    assert t0.fds[31].dev == Null && forall i :: 0 <= i < 32 ==> t0.fds[i].flags == NoFlags();
    OpenSucceedsUnlessLocked(t0, Device(1), 0, Answer(0, 0));
    SuccessfulOpenTakesEntry(t0, Device(1), 0, Answer(0, 0));
    assert t1.fds == t0.fds[3 := t1.fds[3]];
    assert t1.fds[31].dev == Null;
    var t2 := Do(t1, c);
    DoInv(t1, c);
    OpenSucceedsUnlessLocked(t1, Device(1), 0, Answer(0, 0));
    SuccessfulOpenTakesEntry(t1, Device(1), 0, Answer(0, 0));
    assert t2.fds == t1.fds[4 := t2.fds[4]] && t2.maxFd == 4;
    assert [c, c][1..] == [c];
    assert Runs(t1, [c], t2);
    assert Runs(t0, [c, c], t2);
  }
}
