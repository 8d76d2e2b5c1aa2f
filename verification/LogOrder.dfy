// What the slots of the rotating log hold after any sequence of writes
// (internal/logging/rotate.go).

module LogOrder {
  import opened Common
  import opened RotatingLog

  // ---------------------------------------------------------------------
  // Order under faults
  // ---------------------------------------------------------------------

  // `stream` is everything there was at the start, oldest slot first, followed
  // by every byte accepted since; `lo` says where in it each slot begins.
  // Read from the highest slot down, the slots hold consecutive pieces of the
  // stream, in order and without overlap, and slot 0 reaches its end.
  ghost predicate Ordered(slots: Slots<seq<Byte>>, lo: Slots<nat>, stream: seq<Byte>) {
    Placed(slots, lo, stream) && Apart(slots, lo)
  }

  ghost predicate Placed(slots: Slots<seq<Byte>>, lo: Slots<nat>, stream: seq<Byte>) {
    && lo.Keys == slots.Keys
    && (forall i :: i in slots ==> Piece(slots[i], lo[i], stream))
    && (0 in slots ==> lo[0] + |slots[0]| == |stream|)
  }

  predicate Piece(data: seq<Byte>, from: nat, stream: seq<Byte>) {
    from + |data| <= |stream| && data == stream[from..from + |data|]
  }

  ghost predicate Apart(slots: Slots<seq<Byte>>, lo: Slots<nat>)
    requires lo.Keys == slots.Keys
  {
    forall i, j :: i in slots && j in slots && j < i ==> lo[i] + |slots[i]| <= lo[j]
  }

  lemma RemovedOrdered(slots: Slots<seq<Byte>>, lo: Slots<nat>, stream: seq<Byte>, i: nat, io: Io)
    requires Ordered(slots, lo, stream)
    ensures Ordered(Removed(slots, i, io), Removed(lo, i, io), stream)
  {
  }

  lemma MovedApart(slots: Slots<seq<Byte>>, lo: Slots<nat>, i: nat)
    requires lo.Keys == slots.Keys && Apart(slots, lo) && i in slots
    ensures (lo[i + 1 := lo[i]] - {i}).Keys == (slots[i + 1 := slots[i]] - {i}).Keys
    ensures Apart(slots[i + 1 := slots[i]] - {i}, lo[i + 1 := lo[i]] - {i})
  {
  }

  lemma MovedOrdered(slots: Slots<seq<Byte>>, lo: Slots<nat>, stream: seq<Byte>, i: nat, io: Io)
    requires Ordered(slots, lo, stream)
    ensures Ordered(Moved(slots, i, io), Moved(lo, i, io), stream)
  {
    if i in slots {
      MovedApart(slots, lo, i);
    }
  }

  lemma {:induction false} ShiftedOrdered(slots: Slots<seq<Byte>>, lo: Slots<nat>, stream: seq<Byte>, i: nat, io: Io)
    requires Ordered(slots, lo, stream)
    ensures Ordered(Shifted(slots, i, io), Shifted(lo, i, io), stream)
    decreases i
  {
    if i > 0 {
      RemovedOrdered(slots, lo, stream, i + 1, io);
      MovedOrdered(Removed(slots, i + 1, io), Removed(lo, i + 1, io), stream, i, io);
      ShiftedOrdered(Moved(Removed(slots, i + 1, io), i, io), Moved(Removed(lo, i + 1, io), i, io), stream, i - 1, io);
    }
  }

  lemma RolledOrdered(slots: Slots<seq<Byte>>, lo: Slots<nat>, stream: seq<Byte>, backups: nat, io: Io)
    requires Ordered(slots, lo, stream)
    ensures Ordered(Rolled(slots, backups, io), Rolled(lo, backups, io), stream)
  {
    var shifted, shiftedLo := slots, lo;
    if backups > 0 {
      ShiftedOrdered(slots, lo, stream, backups - 1, io);
      shifted, shiftedLo := Shifted(slots, backups - 1, io), Shifted(lo, backups - 1, io);
    }
    RemovedOrdered(shifted, shiftedLo, stream, 1, io);
    MovedOrdered(Removed(shifted, 1, io), Removed(shiftedLo, 1, io), stream, 0, io);
  }

  // A new log file starts at the end of the stream.
  lemma OpenedOrdered(l: Log, lo: Slots<nat>, stream: seq<Byte>, io: Io) returns (lo': Slots<nat>)
    requires Ordered(l.slots, lo, stream)
    ensures Ordered(Opened(l, io).slots, lo', stream)
    ensures Opened(l, io).file.Usable? ==> 0 in Opened(l, io).slots
  {
    lo' := if 0 in l.slots || !io.open then lo else lo[0 := |stream|];
  }

  lemma RotatedOrdered(l: Log, lo: Slots<nat>, stream: seq<Byte>, io: Io) returns (lo': Slots<nat>)
    requires Ordered(l.slots, lo, stream) && (l.file.Usable? ==> 0 in l.slots)
    ensures Ordered(Rotated(l, io).slots, lo', stream)
    ensures Rotated(l, io).file.Usable? ==> 0 in Rotated(l, io).slots
  {
    lo' := lo;
    if io.close && !l.file.Dead? {
      RolledOrdered(l.slots, lo, stream, l.backups, io);
      lo' := Rolled(lo, l.backups, io);
      if !RollFails(l.slots, l.backups, io) {
        lo' := OpenedOrdered(l.(slots := Rolled(l.slots, l.backups, io), file := Closed), lo', stream, io);
      }
    }
  }

  lemma AppendedPlaced(slots: Slots<seq<Byte>>, lo: Slots<nat>, stream: seq<Byte>, p: seq<Byte>)
    requires Placed(slots, lo, stream) && Apart(slots, lo) && 0 in slots
    ensures Placed(slots[0 := slots[0] + p], lo, stream + p)
  {
    var slots' := slots[0 := slots[0] + p];
    forall i | i in slots'
      ensures Piece(slots'[i], lo[i], stream + p)
    {
      assert Piece(slots[i], lo[i], stream);
      var upto := lo[i] + |slots[i]|;
      assert (stream + p)[lo[i]..upto] == stream[lo[i]..upto];
      if i == 0 {
        assert upto == |stream|;
        assert (stream + p)[lo[0]..upto + |p|] == stream[lo[0]..upto] + p;
      }
    }
  }

  lemma AppendedOrdered(l: Log, lo: Slots<nat>, stream: seq<Byte>, p: seq<Byte>)
    requires Ordered(l.slots, lo, stream) && (0 in l.slots || p == [])
    ensures Ordered(Appended(l, p).slots, lo, stream + p)
  {
    if 0 in l.slots {
      AppendedPlaced(l.slots, lo, stream, p);
    } else {
      assert stream + p == stream;
    }
  }

  lemma WrittenOrdered(l: Log, lo: Slots<nat>, stream: seq<Byte>, p: seq<Byte>, io: Io) returns (lo': Slots<nat>)
    requires Ordered(l.slots, lo, stream) && (l.file.Usable? ==> 0 in l.slots)
    ensures Ordered(Written(l, p, io).slots, lo', stream + p[..Taken(l, p, io)])
    ensures Written(l, p, io).file.Usable? ==> 0 in Written(l, p, io).slots
  {
    lo' := lo;
    var r := l;
    if l.file.Closed? {
      assert stream + p[..0] == stream;
      return;
    }
    if MustRotate(l, p) {
      lo' := RotatedOrdered(l, lo, stream, io);
      r := Rotated(l, io);
    }
    AppendedOrdered(r, lo', stream, p[..Taken(l, p, io)]);
  }

  // ---------------------------------------------------------------------
  // Runs
  // ---------------------------------------------------------------------

  // One call on the writer: a write, or Close.
  datatype Call = Put(p: seq<Byte>, io: Io) | Shut

  function Called(l: Log, c: Call): Log {
    match c
    case Put(p, io) => Written(l, p, io)
    case Shut => l.(file := Closed)
  }

  function After(l: Log, calls: seq<Call>): Log
    decreases |calls|
  {
    if calls == [] then l else After(Called(l, calls[0]), calls[1..])
  }

  function AcceptedNow(l: Log, c: Call): seq<Byte> {
    if c.Put? then c.p[..Taken(l, c.p, c.io)] else []
  }

  // The bytes accepted by a sequence of calls.
  function AcceptedBy(l: Log, calls: seq<Call>): seq<Byte>
    decreases |calls|
  {
    if calls == [] then []
    else AcceptedNow(l, calls[0]) + AcceptedBy(Called(l, calls[0]), calls[1..])
  }

  // The contents of slots k, ..., 1, 0 in that order.
  function Concat(slots: Slots<seq<Byte>>, k: nat): seq<Byte> {
    if k == 0 then Content(slots, 0) else Content(slots, k) + Concat(slots, k - 1)
  }

  function Content(slots: Slots<seq<Byte>>, i: nat): seq<Byte> {
    if i in slots then slots[i] else []
  }

  ghost predicate HasOrder(slots: Slots<seq<Byte>>, stream: seq<Byte>) {
    exists lo :: Ordered(slots, lo, stream)
  }

  lemma CallOrdered(l: Log, stream: seq<Byte>, c: Call)
    requires HasOrder(l.slots, stream) && (l.file.Usable? ==> 0 in l.slots)
    ensures HasOrder(Called(l, c).slots, stream + AcceptedNow(l, c))
    ensures Called(l, c).file.Usable? ==> 0 in Called(l, c).slots
  {
    var lo :| Ordered(l.slots, lo, stream);
    if c.Put? {
      var lo' := WrittenOrdered(l, lo, stream, c.p, c.io);
    } else {
      assert stream + [] == stream;
    }
  }

  lemma Reassociate(a: seq<Byte>, b: seq<Byte>, c: seq<Byte>)
    ensures a + b + c == a + (b + c)
  {
  }

  lemma {:induction false} RunOrdered(l: Log, stream: seq<Byte>, calls: seq<Call>)
    requires HasOrder(l.slots, stream) && (l.file.Usable? ==> 0 in l.slots)
    ensures HasOrder(After(l, calls).slots, stream + AcceptedBy(l, calls))
    decreases |calls|
  {
    if calls == [] {
      assert stream + [] == stream;
    } else {
      var now, l' := AcceptedNow(l, calls[0]), Called(l, calls[0]);
      CallOrdered(l, stream, calls[0]);
      RunOrdered(l', stream + now, calls[1..]);
      Reassociate(stream, now, AcceptedBy(l', calls[1..]));
    }
  }

  predicate IsSuffix(a: seq<Byte>, b: seq<Byte>) {
    |a| <= |b| && b[|b| - |a|..] == a
  }

  lemma {:induction false} ConcatTail(slots: Slots<seq<Byte>>, i: nat, k: nat)
    requires i <= k
    ensures IsSuffix(Concat(slots, i), Concat(slots, k))
    decreases k
  {
    if i < k {
      ConcatTail(slots, i, k - 1);
    }
  }

  // At the start the stream is the concatenation of the slots there are.
  lemma StartOrdered(slots: Slots<seq<Byte>>, k: nat) returns (lo: Slots<nat>)
    requires forall i :: i in slots ==> i <= k
    ensures Ordered(slots, lo, Concat(slots, k))
  {
    var stream := Concat(slots, k);
    forall i | i in slots
      ensures IsSuffix(Concat(slots, i), stream)
    {
      ConcatTail(slots, i, k);
    }
    lo := map i | i in slots :: |stream| - |Concat(slots, i)|;
    forall i | i in slots
      ensures Piece(slots[i], lo[i], stream)
    {
      assert slots[i] <= Concat(slots, i);
      assert stream[lo[i]..] == Concat(slots, i);
    }
    forall i, j | i in slots && j in slots && j < i
      ensures lo[i] + |slots[i]| <= lo[j]
    {
      ConcatTail(slots, j, i - 1);
    }
  }

  // Whatever fails, the slots read in order hold pieces of the stream in
  // order and without duplication.
  lemma OrderUnderFaults(l: Log, k: nat, calls: seq<Call>)
    requires (forall i :: i in l.slots ==> i <= k) && (l.file.Usable? ==> 0 in l.slots)
    ensures HasOrder(After(l, calls).slots, Concat(l.slots, k) + AcceptedBy(l, calls))
  {
    var lo := StartOrdered(l.slots, k);
    RunOrdered(l, Concat(l.slots, k), calls);
  }

  // ---------------------------------------------------------------------
  // When nothing fails
  // ---------------------------------------------------------------------

  predicate Clean(io: Io) {
    io.close && io.remove == {} && io.stat == {} && io.rename == {} && io.open && io.fstat
  }

  // The loop moves slots 1..i up by one and empties slot 1.
  lemma {:induction false} CleanShift(slots: Slots<seq<Byte>>, i: nat, io: Io, j: nat)
    requires Clean(io)
    ensures var s := Shifted(slots, i, io);
      if j == 0 || j > i + 1 || i == 0 then Content(s, j) == Content(slots, j) && (j in s <==> j in slots)
      else if j == 1 then 1 !in s
      else Content(s, j) == Content(slots, j - 1) && (j in s <==> j - 1 in slots)
    decreases i
  {
    if i > 0 {
      var once := Moved(Removed(slots, i + 1, io), i, io);
      CleanShift(once, i - 1, io, j);
    }
  }

  lemma CleanRoll(slots: Slots<seq<Byte>>, backups: nat, io: Io, j: nat)
    requires Clean(io) && 1 <= j <= backups
    ensures Content(Rolled(slots, backups, io), j) == Content(slots, j - 1)
    ensures 0 !in Rolled(slots, backups, io) && !RollFails(slots, backups, io)
  {
    CleanShift(slots, backups - 1, io, 0);
    CleanShift(slots, backups - 1, io, j);
  }

  lemma {:induction false} CleanConcat(slots: Slots<seq<Byte>>, backups: nat, io: Io, k: nat)
    requires Clean(io) && 1 <= k <= backups
    ensures Concat(Rolled(slots, backups, io), k) == Concat(slots, k - 1)
  {
    var rolled := Rolled(slots, backups, io);
    CleanRoll(slots, backups, io, k);
    if k > 1 {
      CleanConcat(slots, backups, io, k - 1);
    } else {
      assert Concat(rolled, 1) == Content(rolled, 1) + Concat(rolled, 0);
      assert Concat(rolled, 0) == [];
      assert Concat(rolled, 1) == Content(slots, 0);
    }
  }

  // Slot 0 is the last piece of the concatenation.
  lemma {:induction false} ConcatAppend(slots: Slots<seq<Byte>>, data: seq<Byte>, p: seq<Byte>, k: nat)
    requires Content(slots, 0) == data
    ensures Concat(slots[0 := data + p], k) == Concat(slots, k) + p
  {
    var slots' := slots[0 := data + p];
    if k > 0 {
      ConcatAppend(slots, data, p, k - 1);
      assert Content(slots', k) == Content(slots, k);
      Reassociate(Content(slots, k), Concat(slots, k - 1), p);
    }
  }

  // The bytes dropped by a rotation are those of the last backup.
  function Surviving(l: Log, p: seq<Byte>): seq<Byte>
    requires l.backups >= 1
  {
    if MustRotate(l, p) then Concat(l.slots, l.backups - 1) else Concat(l.slots, l.backups)
  }

  ghost predicate Ready(l: Log) {
    l.backups >= 1 && l.file.Usable? && 0 in l.slots && l.size == |l.slots[0]|
  }

  lemma CleanWrite(l: Log, p: seq<Byte>, io: Io)
    requires Ready(l) && Clean(io) && io.take >= |p|
    ensures var l' := Written(l, p, io);
      && Ready(l') && l'.backups == l.backups && l'.maxSize == l.maxSize
      && Taken(l, p, io) == |p|
      && l'.slots == (if MustRotate(l, p) then Rolled(l.slots, l.backups, io)[0 := p] else l.slots[0 := l.slots[0] + p])
      && Concat(l'.slots, l.backups) == Surviving(l, p) + p
      && (|l'.slots[0]| <= l.maxSize || l'.slots[0] == p)
  {
    assert p[..|p|] == p;
    if MustRotate(l, p) {
      CleanRoll(l.slots, l.backups, io, 1);
      CleanConcat(l.slots, l.backups, io, l.backups);
      var rolled := Rolled(l.slots, l.backups, io);
      ConcatAppend(rolled, [], p, l.backups);
      assert [] + p == p;
    } else {
      ConcatAppend(l.slots, l.slots[0], p, l.backups);
    }
  }

  // In terms of the slots alone: what fits is appended; what does not starts a
  // new file, and every backup moves up by one.
  lemma CleanWriteSlots(l: Log, p: seq<Byte>, io: Io)
    requires Ready(l) && Clean(io) && io.take >= |p|
    ensures var slots' := Written(l, p, io).slots;
      if |l.slots[0]| + |p| <= l.maxSize then slots' == l.slots[0 := l.slots[0] + p]
      else
        && 0 in slots' && slots'[0] == p
        && forall j :: 1 <= j <= l.backups ==> Content(slots', j) == Content(l.slots, j - 1)
  {
    CleanWrite(l, p, io);
    if MustRotate(l, p) {
      forall j | 1 <= j <= l.backups
        ensures Content(Written(l, p, io).slots, j) == Content(l.slots, j - 1)
      {
        CleanRoll(l.slots, l.backups, io, j);
      }
    }
  }

  // A write cut short keeps what was taken.
  lemma ShortWrite(l: Log, p: seq<Byte>, io: Io)
    requires Ready(l) && |l.slots[0]| + |p| <= l.maxSize
    ensures var n := if io.take < |p| then io.take else |p|;
      Taken(l, p, io) == n && Written(l, p, io).slots == l.slots[0 := l.slots[0] + p[..n]]
  {
  }

  // ---------------------------------------------------------------------
  // No more than the backups
  // ---------------------------------------------------------------------

  // Above slot k the two agree.
  ghost predicate SameAbove<T>(a: Slots<T>, b: Slots<T>, k: nat) {
    forall j :: j > k ==> (j in a <==> j in b) && (j in a && j in b ==> a[j] == b[j])
  }

  lemma {:induction false} ShiftStaysBelow(slots: Slots<seq<Byte>>, i: nat, io: Io)
    ensures SameAbove(Shifted(slots, i, io), slots, i + 1)
    decreases i
  {
    if i > 0 {
      var once := Moved(Removed(slots, i + 1, io), i, io);
      ShiftStaysBelow(once, i - 1, io);
      assert SameAbove(once, slots, i + 1);
    }
  }

  lemma RollStaysBelow(slots: Slots<seq<Byte>>, backups: nat, io: Io)
    requires backups >= 1
    ensures SameAbove(Rolled(slots, backups, io), slots, backups)
  {
    ShiftStaysBelow(slots, backups - 1, io);
  }

  lemma CallStaysBelow(l: Log, c: Call)
    requires l.backups >= 1
    ensures SameAbove(Called(l, c).slots, l.slots, l.backups) && Called(l, c).backups == l.backups
  {
    if c.Put? {
      RollStaysBelow(l.slots, l.backups, c.io);
    }
  }

  // Whatever the calls and whatever fails, no slot above the last backup is
  // created, removed or changed.
  lemma {:induction false} BackupsBounded(l: Log, calls: seq<Call>)
    requires l.backups >= 1
    ensures SameAbove(After(l, calls).slots, l.slots, l.backups)
    decreases |calls|
  {
    if calls != [] {
      CallStaysBelow(l, calls[0]);
      BackupsBounded(Called(l, calls[0]), calls[1..]);
    }
  }

  // The calls are writes on which nothing fails.
  predicate AllClean(calls: seq<Call>) {
    forall i :: 0 <= i < |calls| ==> calls[i].Put? && Clean(calls[i].io) && calls[i].io.take >= |calls[i].p|
  }

  function Payload(calls: seq<Call>): seq<Byte>
    requires AllClean(calls)
  {
    if calls == [] then [] else calls[0].p + Payload(calls[1..])
  }

  function Rotations(l: Log, calls: seq<Call>): nat
    requires AllClean(calls)
    decreases |calls|
  {
    if calls == [] then 0
    else (if MustRotate(l, calls[0].p) then 1 else 0) + Rotations(Called(l, calls[0]), calls[1..])
  }

  lemma SuffixChain(result: seq<Byte>, kept: seq<Byte>, start: seq<Byte>, p: seq<Byte>, rest: seq<Byte>)
    requires IsSuffix(kept, start) && IsSuffix(result, kept + p + rest)
    ensures IsSuffix(result, start + (p + rest))
  {
    var short, long := kept + p + rest, start + (p + rest);
    assert long[|long| - |short|..] == short;
    assert long[|long| - |result|..] == long[|long| - |short|..][|short| - |result|..];
  }

  // When nothing fails, the slots hold exactly a suffix of the initial
  // contents followed by everything written.
  lemma {:induction false} CleanRunIsSuffix(l: Log, calls: seq<Call>)
    requires Ready(l) && AllClean(calls)
    ensures Ready(After(l, calls))
    ensures IsSuffix(Concat(After(l, calls).slots, l.backups), Concat(l.slots, l.backups) + Payload(calls))
    decreases |calls|
  {
    var start := Concat(l.slots, l.backups);
    if calls == [] {
      assert start + [] == start;
    } else {
      var p, l' := calls[0].p, Called(l, calls[0]);
      CleanWrite(l, p, calls[0].io);
      CleanRunIsSuffix(l', calls[1..]);
      if MustRotate(l, p) {
        ConcatTail(l.slots, l.backups - 1, l.backups);
      }
      SuffixChain(Concat(After(l, calls).slots, l.backups), Surviving(l, p), start, p, Payload(calls[1..]));
    }
  }

  // No backup beyond the first `used` ones.
  predicate EmptyAbove(l: Log, used: nat) {
    forall j :: used < j <= l.backups ==> Content(l.slots, j) == []
  }

  lemma EmptyAboveStep(l: Log, p: seq<Byte>, io: Io, used: nat)
    requires Ready(l) && Clean(io) && io.take >= |p| && EmptyAbove(l, used)
    ensures EmptyAbove(Written(l, p, io), used + if MustRotate(l, p) then 1 else 0)
  {
    CleanWrite(l, p, io);
    var l' := Written(l, p, io);
    var used' := used + if MustRotate(l, p) then 1 else 0;
    forall j | used' < j <= l.backups
      ensures Content(l'.slots, j) == []
    {
      if MustRotate(l, p) {
        CleanRoll(l.slots, l.backups, io, j);
        assert Content(l'.slots, j) == Content(Rolled(l.slots, l.backups, io), j);
      } else {
        assert Content(l'.slots, j) == Content(l.slots, j);
      }
    }
  }

  // An unused backup is an empty one to lose.
  lemma AllSurvives(l: Log, p: seq<Byte>, used: nat)
    requires l.backups >= 1 && EmptyAbove(l, used) && (MustRotate(l, p) ==> used < l.backups)
    ensures Surviving(l, p) == Concat(l.slots, l.backups)
  {
    if MustRotate(l, p) {
      assert Content(l.slots, l.backups) == [];
    }
  }

  // Nothing is lost while the rotations fit in the unused backups.
  lemma {:induction false} CleanRunIsComplete(l: Log, calls: seq<Call>, used: nat)
    requires Ready(l) && AllClean(calls) && EmptyAbove(l, used)
    requires used + Rotations(l, calls) <= l.backups
    ensures Concat(After(l, calls).slots, l.backups) == Concat(l.slots, l.backups) + Payload(calls)
    decreases |calls|
  {
    var start := Concat(l.slots, l.backups);
    if calls == [] {
      assert start + [] == start;
    } else {
      var p, l' := calls[0].p, Called(l, calls[0]);
      CleanWrite(l, p, calls[0].io);
      EmptyAboveStep(l, p, calls[0].io, used);
      CleanRunIsComplete(l', calls[1..], used + if MustRotate(l, p) then 1 else 0);
      AllSurvives(l, p, used);
      Reassociate(start, p, Payload(calls[1..]));
    }
  }

  // ---------------------------------------------------------------------
  // Exactly when the log goes silent
  // ---------------------------------------------------------------------

  // A call that ends an open writer: Close, or a write that has to rotate and
  // on which closing, renaming or reopening the log file fails.
  predicate Ends(l: Log, c: Call) {
    || c.Shut?
    || (l.size + |c.p| > l.maxSize
        && !(c.io.close && (0 in c.io.stat || 0 !in c.io.rename) && c.io.open && c.io.fstat))
  }

  // The shift of the backups leaves slot 0 alone, whatever fails.
  lemma {:induction false} ShiftKeepsFirst(slots: Slots<seq<Byte>>, i: nat, io: Io)
    ensures 0 in Shifted(slots, i, io) <==> 0 in slots
    decreases i
  {
    if i > 0 {
      ShiftKeepsFirst(Moved(Removed(slots, i + 1, io), i, io), i - 1, io);
    }
  }

  // After any call on an open writer it is open exactly when the call is not
  // one of those.
  lemma EndsExactly(l: Log, c: Call)
    requires Ready(l)
    ensures var l' := Called(l, c);
      && (l'.file.Usable? <==> !Ends(l, c))
      && (l'.file.Usable? ==> Ready(l'))
  {
    if c.Put? && MustRotate(l, c.p) {
      ShiftKeepsFirst(l.slots, l.backups - 1, c.io);
      assert RollFails(l.slots, l.backups, c.io) <==> 0 !in c.io.stat && 0 in c.io.rename;
    }
  }

  lemma {:induction false} AfterMore(l: Log, calls: seq<Call>, n: nat)
    requires n < |calls|
    ensures After(l, calls[..n + 1]) == Called(After(l, calls[..n]), calls[n])
    decreases |calls|
  {
    if n == 0 {
      assert calls[..1][1..] == [] && calls[..0] == [];
    } else {
      assert calls[..n + 1][1..] == calls[1..][..n] && calls[..n][1..] == calls[1..][..n - 1];
      AfterMore(Called(l, calls[0]), calls[1..], n - 1);
    }
  }

  lemma NothingWritten(l: Log, c: Call)
    requires !l.file.Usable?
    ensures !Called(l, c).file.Usable? && Called(l, c).slots == l.slots && AcceptedNow(l, c) == []
  {
    assert 0 in l.slots ==> l.slots[0] + [] == l.slots[0];
    assert c.Put? ==> c.p[..0] == [];
  }

  // Without a usable file every later call changes and accepts nothing.
  lemma {:induction false} ClosedStaysClosed(l: Log, calls: seq<Call>)
    requires !l.file.Usable?
    ensures var l' := After(l, calls);
      !l'.file.Usable? && l'.slots == l.slots && AcceptedBy(l, calls) == []
    decreases |calls|
  {
    if calls != [] {
      NothingWritten(l, calls[0]);
      ClosedStaysClosed(Called(l, calls[0]), calls[1..]);
    }
  }

  lemma {:induction false} OpenAfter(l: Log, calls: seq<Call>, n: nat)
    requires Ready(l) && n <= |calls|
    ensures var l' := After(l, calls[..n]);
      && (l'.file.Usable? ==> Ready(l'))
      && (l'.file.Usable? <==> forall k :: 0 <= k < n ==> !Ends(After(l, calls[..k]), calls[k]))
  {
    if n > 0 {
      OpenAfter(l, calls, n - 1);
      AfterMore(l, calls, n - 1);
      if After(l, calls[..n - 1]).file.Usable? {
        EndsExactly(After(l, calls[..n - 1]), calls[n - 1]);
      } else {
        NothingWritten(After(l, calls[..n - 1]), calls[n - 1]);
      }
    }
  }

  // After any calls with any faults the writer is open if and only if none of
  // them ended it; once one has, nothing is accepted any more.
  lemma AliveExactly(l: Log, calls: seq<Call>)
    requires Ready(l)
    ensures After(l, calls).file.Usable? <==>
              forall k :: 0 <= k < |calls| ==> !Ends(After(l, calls[..k]), calls[k])
    ensures !After(l, calls).file.Usable? ==> forall more :: AcceptedBy(After(l, calls), more) == []
  {
    OpenAfter(l, calls, |calls|);
    assert calls[..|calls|] == calls;
    if !After(l, calls).file.Usable? {
      forall more
        ensures AcceptedBy(After(l, calls), more) == []
      {
        ClosedStaysClosed(After(l, calls), more);
      }
    }
  }
}
