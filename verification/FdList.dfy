// The HAL file descriptor calls on the table in place, each tied to the function
// of FdTable that says what it does.

module FdList {
  import opened FdTable

  class FdList {
    const list: array<Fd>   // alt_fd_list
    var maxFd: int          // alt_max_fd
    var errno: int

    constructor (size: nat)
      requires size > 3
      ensures fresh(list) && Contents() == Init(size)
    {
      list := new Fd[size](i => if i < 3 then Fd(NULL_DEV, 0, NoFlags()) else Fd(Null, 0, NoFlags()));
      maxFd, errno := -1, 0;
    }

    function Contents(): Table
      reads this, list
    {
      Table(list[..], maxFd)
    }

    // alt_get_fd
    method GetFd(dev: DevRef) returns (rc: int)
      modifies list, this`maxFd
      ensures (Contents(), rc) == FdTable.GetFd(old(Contents()), dev)
    {
      rc := -EMFILE;
      var i := 0;
      while i < list.Length
        invariant 0 <= i <= list.Length && Contents() == old(Contents()) && rc == -EMFILE
        invariant FirstFree(list[..], 0) == FirstFree(list[..], i)
      {
        if list[i].dev == Null {
          list[i] := list[i].(dev := dev);
          if i > maxFd {
            maxFd := i;
          }
          return i;
        }
        i := i + 1;
      }
    }

    // alt_release_fd
    method ReleaseFd(fd: int)
      requires fd < list.Length
      modifies list
      ensures Contents() == Release(old(Contents()), fd)
    {
      if fd > 2 {
        list[fd] := list[fd].(flags := NoFlags());
        list[fd] := list[fd].(dev := Null);
      }
    }

    // alt_file_locked
    method FileLocked(fd: nat) returns (rc: int)
      requires 0 <= maxFd < list.Length && fd < list.Length
      modifies list
      ensures Contents() == SetFlags(old(Contents()), fd, MarkDev(old(list[fd].flags)))
      ensures rc == if LockedByOther(Contents(), fd) then -EACCES else 0
    {
      list[fd] := list[fd].(flags := MarkDev(list[fd].flags));
      var i := 0;
      while i <= maxFd
        invariant 0 <= i <= maxFd + 1
        invariant Contents() == SetFlags(old(Contents()), fd, MarkDev(old(list[fd].flags)))
        invariant forall k :: 0 <= k < i ==>
                    !(list[k].dev == list[fd].dev && Excl(list[k].flags) && k != fd)
      {
        if list[i].dev == list[fd].dev && Excl(list[i].flags) && i != fd {
          return -EACCES;
        }
        i := i + 1;
      }
      rc := 0;
    }

    // ALT_OPEN
    method Open(target: DevRef, flags: bv32, driver: Answer) returns (fd: int)
      requires Inv(Contents())
      modifies list, this
      ensures Inv(Contents())
      ensures Contents() == FdTable.Open(old(Contents()), target, flags, driver).0
      ensures var r := FdTable.Open(old(Contents()), target, flags, driver).1;
              if r < 0 then fd == -1 && errno == -r else fd == r && errno == old(errno)
    {
      hide Excl, IsDev, PublicPart, MarkDev, NoFlags, LockedByOther, EntryInv;
      OpenInv(Contents(), target, flags, driver);
      GetFdIsLeastFree(Contents(), target);
      var index, status := -1, -ENODEV;
      if target != Null {
        index := GetFd(target);
        if index < 0 {
          status := index;
        } else {
          list[index] := list[index].(flags := PublicPart(flags));
          status := 0;
          if target.Device? {
            status := FileLocked(index);
          }
          if status >= 0 {
            list[index] := list[index].(priv := driver.priv);
            status := driver.status;
          }
        }
      }
      if status < 0 {
        ReleaseFd(index);
        errno := -status;
        return -1;
      }
      return index;
    }

    // alt_fd_lock
    method FdLock(fd: nat) returns (rc: int)
      requires maxFd < list.Length && fd < list.Length
      modifies list
      ensures (Contents(), rc) == Lock(old(Contents()), fd)
    {
      var i := 0;
      while i < maxFd
        invariant 0 <= i && (i <= maxFd || i == 0) && Contents() == old(Contents())
        invariant forall k :: 0 <= k < i ==> !(k != fd && list[k].dev == list[fd].dev)
      {
        if i != fd && list[i].dev == list[fd].dev {
          return -EACCES;
        }
        i := i + 1;
      }
      list[fd] := list[fd].(flags := MarkExcl(list[fd].flags));
      rc := 0;
    }

    // ALT_IOCTL
    method Ioctl(fd: int, req: Request, driver: int) returns (rc: int)
      requires Inv(Contents()) && Allowed(Contents(), CallIoctl(fd, req, driver))
      modifies list, this`errno
      ensures Inv(Contents())
      ensures (Contents(), rc) == FdTable.Ioctl(old(Contents()), fd, req, driver)
      ensures errno == if rc < 0 then -rc else old(errno)
    {
      DoInv(Contents(), CallIoctl(fd, req, driver));
      if fd < 0 {
        rc := -EBADFD;
      } else if IsDev(list[fd].flags) && req == TIOCEXCL {
        rc := FdLock(fd);
      } else if IsDev(list[fd].flags) && req == TIOCNXCL {
        list[fd] := list[fd].(flags := ClearExcl(list[fd].flags));
        rc := 0;
      } else {
        rc := driver;
      }
      if rc < 0 {
        errno := -rc;
      }
    }

    // ALT_FCNTL
    method Fcntl(fd: int, cmd: Command) returns (rc: int, flags: bv32)
      requires Inv(Contents()) && Allowed(Contents(), CallFcntl(fd, cmd))
      modifies list, this`errno
      ensures Inv(Contents()) && Contents() == FdTable.Fcntl(old(Contents()), fd, cmd)
      ensures rc == 0 <==> fd >= 0 && !cmd.Unknown?
      ensures if rc == 0 then errno == old(errno)
              else rc == -1 && errno == if fd < 0 then EBADFD else EINVAL
      ensures rc == 0 && cmd.F_GETFL? ==> flags == PublicPart(list[fd].flags)
    {
      DoInv(Contents(), CallFcntl(fd, cmd));
      rc, flags := 0, 0;
      if fd < 0 {
        errno, rc := EBADFD, -1;
      } else {
        match cmd
        case F_GETFL => flags := PublicPart(list[fd].flags);
        case F_SETFL(arg) => list[fd] := list[fd].(flags := SetStatus(list[fd].flags, arg));
        case Unknown => errno, rc := EINVAL, -1;
      }
    }

    // ALT_CLOSE
    method Close(fd: int, driver: int) returns (rc: int)
      requires Inv(Contents()) && Allowed(Contents(), CallClose(fd, driver))
      modifies list, this`errno
      ensures Inv(Contents())
      ensures Contents() == FdTable.Close(old(Contents()), fd, driver).0
      ensures var r := FdTable.Close(old(Contents()), fd, driver).1;
              if r < 0 then rc == -1 && errno == -r else rc == 0 && errno == old(errno)
    {
      DoInv(Contents(), CallClose(fd, driver));
      if fd < 0 {
        errno := EBADFD;
        return -1;
      }
      ReleaseFd(fd);
      if driver < 0 {
        errno := -driver;
        return -1;
      }
      return 0;
    }

    // alt_open_fd: point a standard descriptor at a device or file.
    method OpenFd(std: nat, target: DevRef, flags: bv32, driver: Answer)
      requires Inv(Contents()) && std < 3
      modifies list, this
      ensures Inv(Contents())
      ensures Contents() == FdTable.OpenFd(old(Contents()), std, target, flags, driver)
    {
      hide Excl, IsDev, EntryInv, FdTable.Open;
      OpenFdInv(Contents(), std, target, flags, driver);
      ghost var t := Contents();
      var old1 := Open(target, flags, driver);
      if old1 >= 0 {
        SuccessfulOpenTakesEntry(t, target, flags, driver);
        list[std] := list[old1];
        ReleaseFd(old1);
      }
    }

    // alt_io_redirect
    method IoRedirect(stdout: DevRef, stdin: DevRef, stderr: DevRef, flags: seq<bv32>, driver: seq<Answer>)
      requires Inv(Contents()) && |flags| == |driver| == 3
      modifies list, this
      ensures Inv(Contents())
      ensures Runs(old(Contents()), [CallRedirect(1, stdout, flags[0], driver[0]),
                                     CallRedirect(0, stdin, flags[1], driver[1]),
                                     CallRedirect(2, stderr, flags[2], driver[2])], Contents())
    {
      hide Excl, IsDev, EntryInv, FdTable.OpenFd;
      var t0, c0 := Contents(), CallRedirect(1, stdout, flags[0], driver[0]);
      OpenFd(1, stdout, flags[0], driver[0]);
      var t1, c1 := Contents(), CallRedirect(0, stdin, flags[1], driver[1]);
      OpenFd(0, stdin, flags[1], driver[1]);
      var t2, c2 := Contents(), CallRedirect(2, stderr, flags[2], driver[2]);
      OpenFd(2, stderr, flags[2], driver[2]);
      assert Runs(t2, [c2], Contents());
      assert [c1, c2][1..] == [c2] && Runs(t1, [c1, c2], Contents());
      assert [c0, c1, c2][1..] == [c1, c2];
    }
  }
}
