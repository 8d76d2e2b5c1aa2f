// The rotating agent log of internal/logging/rotate.go over a file system
// whose every operation may fail.
//
// Slot 0 is the log file itself, slot i the backup with suffix i.

module RotatingLog {
  import opened Common

  type Slots<T> = map<nat, T>

  // The outcome of each file operation of one Write: the slots on which
  // Remove, Stat or Rename fails, whether Close, OpenFile and the Stat of the
  // new handle succeed, and how many bytes the final write takes.
  datatype Io = Io(
    close: bool, remove: set<nat>, stat: set<nat>, rename: set<nat>,
    open: bool, fstat: bool, take: nat)

  // The log file: closed, open, or held but dead since a Close that failed: Go
  // invalidates the handle anyway, and every later use of it is an error.
  datatype File = Closed | Usable | Dead

  datatype Log = Log(slots: Slots<seq<Byte>>, file: File, size: int, maxSize: int, backups: nat)

  // ---------------------------------------------------------------------
  // The shift
  // ---------------------------------------------------------------------

  function Removed<T>(slots: Slots<T>, i: nat, io: Io): Slots<T> {
    if i in io.remove then slots else slots - {i}
  }

  // Rename slot i to i + 1 when Stat finds it; the target is replaced.
  function Moved<T>(slots: Slots<T>, i: nat, io: Io): Slots<T> {
    if i !in slots || i in io.stat || i in io.rename then slots
    else slots[i + 1 := slots[i]] - {i}
  }

  // The descending loop from slot i.
  function Shifted<T>(slots: Slots<T>, i: nat, io: Io): Slots<T>
    decreases i
  {
    if i == 0 then slots else Shifted(Moved(Removed(slots, i + 1, io), i, io), i - 1, io)
  }

  // All of rotate but the handle: the backups, then the log file itself.
  function Rolled<T>(slots: Slots<T>, backups: nat, io: Io): Slots<T> {
    var shifted := if backups == 0 then slots else Shifted(slots, backups - 1, io);
    Moved(Removed(shifted, 1, io), 0, io)
  }

  // Renaming the log file is the one failure rotate reports.
  predicate RollFails<T>(slots: Slots<T>, backups: nat, io: Io) {
    var shifted := if backups == 0 then slots else Shifted(slots, backups - 1, io);
    0 in Removed(shifted, 1, io) && 0 !in io.stat && 0 in io.rename
  }

  function Opened(l: Log, io: Io): Log {
    if !io.open then l.(file := Closed)
    else
      var slots := if 0 in l.slots then l.slots else l.slots[0 := []];
      if io.fstat then l.(slots := slots, file := Usable, size := |slots[0]|)
      else l.(slots := slots, file := Closed)
  }

  function Rotated(l: Log, io: Io): Log {
    if l.file.Dead? || !io.close then l.(file := Dead)
    else if RollFails(l.slots, l.backups, io) then l.(slots := Rolled(l.slots, l.backups, io), file := Closed)
    else Opened(l.(slots := Rolled(l.slots, l.backups, io), file := Closed), io)
  }

  predicate MustRotate(l: Log, p: seq<Byte>) {
    l.size + |p| > l.maxSize
  }

  predicate RotationFails(l: Log, io: Io) {
    l.file.Dead? || !io.close || RollFails(l.slots, l.backups, io) || !io.open || !io.fstat
  }

  // How many bytes of p a write accepts.
  function Taken(l: Log, p: seq<Byte>, io: Io): nat {
    if !l.file.Usable? || (MustRotate(l, p) && RotationFails(l, io)) then 0
    else if io.take < |p| then io.take else |p|
  }

  function Appended(l: Log, p: seq<Byte>): Log {
    if 0 in l.slots then l.(slots := l.slots[0 := l.slots[0] + p], size := l.size + |p|) else l
  }

  function Written(l: Log, p: seq<Byte>, io: Io): Log {
    if l.file.Closed? then l
    else
      var r := if MustRotate(l, p) then Rotated(l, io) else l;
      Appended(r, p[..Taken(l, p, io)])
  }

  // ---------------------------------------------------------------------
  // The writer object
  // ---------------------------------------------------------------------

  class RotatingWriter {
    var slots: Slots<seq<Byte>>
    var file: File
    var size: int
    const maxSize: int
    const backups: nat

    function State(): Log
      reads this
    {
      Log(slots, file, size, maxSize, backups)
    }

    // A usable handle is on slot 0, and size is its length.
    ghost predicate Valid()
      reads this
    {
      backups >= 1 && (file.Usable? ==> 0 in slots && size == |slots[0]|)
    }

    // The size limit in MiB and the number of backups, with the defaults for
    // nonsensical values. The file system is what it was.
    constructor (disk: Slots<seq<Byte>>, maxMb: int, backups: int, io: Io)
      ensures Valid()
      ensures State() == Opened(Log(disk, Closed, 0, (if maxMb <= 0 then 20 else maxMb) * 1048576,
                                    if backups < 1 then 5 else backups), io)
    {
      this.maxSize := (if maxMb <= 0 then 20 else maxMb) * 1048576;
      this.backups := if backups < 1 then 5 else backups;
      this.slots, this.file, this.size := disk, Closed, 0;
      new;
      var _ := Open(io);
    }

    method Open(io: Io) returns (ok: bool)
      requires file.Closed?
      modifies this
      ensures State() == Opened(old(State()), io)
      ensures ok <==> io.open && io.fstat
      ensures ok == file.Usable? && (ok ==> 0 in slots && size == |slots[0]|)
      ensures 0 in old(slots) || !io.open ==> slots == old(slots)
      ensures 0 !in old(slots) && io.open ==> slots == old(slots)[0 := []]
    {
      if !io.open {
        return false;
      }
      if 0 !in slots {
        slots := slots[0 := []];
      }
      if !io.fstat {
        return false;
      }
      file, size := Usable, |slots[0]|;
      return true;
    }

    method Rotate(io: Io) returns (ok: bool)
      requires Valid() && !file.Closed?
      modifies this
      ensures Valid()
      ensures State() == Rotated(old(State()), io)
      ensures ok <==> !RotationFails(old(State()), io)
    {
      if file.Dead? || !io.close {
        file := Dead;
        return false;
      }
      file := Closed;
      var i := backups - 1;
      while i >= 1
        invariant 0 <= i <= backups - 1
        invariant file.Closed? && size == old(size)
        invariant Shifted(slots, i, io) == Shifted(old(slots), backups - 1, io)
      {
        if i + 1 !in io.remove {
          slots := slots - {i + 1};
        }
        if i in slots && i !in io.stat && i !in io.rename {
          slots := slots[i + 1 := slots[i]] - {i};
        }
        i := i - 1;
      }
      if 1 !in io.remove {
        slots := slots - {1};
      }
      if 0 in slots && 0 !in io.stat {
        if 0 in io.rename {
          return false;
        }
        slots := slots[1 := slots[0]] - {0};
      }
      ok := Open(io);
    }

    method Write(p: seq<Byte>, io: Io) returns (n: nat, ok: bool)
      requires Valid()
      modifies this
      ensures Valid()
      ensures State() == Written(old(State()), p, io)
      ensures n == Taken(old(State()), p, io)
      ensures ok <==> old(file).Usable? && io.take >= |p|
                      && !(MustRotate(old(State()), p) && RotationFails(old(State()), io))
    {
      if file.Closed? {
        return 0, false;
      }
      if size + |p| > maxSize {
        var rotated := Rotate(io);
        if !rotated {
          assert p[..0] == [];
          assert 0 in slots ==> slots[0] + [] == slots[0];
          return 0, false;
        }
      }
      if file.Dead? {
        assert p[..0] == [];
        assert 0 in slots ==> slots[0] + [] == slots[0];
        return 0, false;
      }
      n := if io.take < |p| then io.take else |p|;
      slots := slots[0 := slots[0] + p[..n]];
      size := size + n;
      ok := n == |p|;
    }

    method Close()
      requires Valid()
      modifies this`file
      ensures Valid() && State() == old(State()).(file := Closed)
    {
      file := Closed;
    }
  }
}
