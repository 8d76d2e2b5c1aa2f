// The recording quota: oldest-first deletion with protected files
// (enforceQuota, internal/capture/capture.go).

module RecordingQuota {
  import opened Common

  datatype File = File(path: string, size: nat, mod: int)

  // The recording directory: the paths on it, and those os.Remove fails on.
  class Directory {
    var present: set<string>
    const locked: set<string>

    constructor (present: set<string>, locked: set<string>)
      ensures this.present == present && this.locked == locked
    {
      this.present, this.locked := present, locked;
    }

    method Remove(path: string) returns (ok: bool)
      modifies this
      ensures ok <==> path in old(present) && path !in locked
      ensures present == if ok then old(present) - {path} else old(present)
    {
      ok := path in present && path !in locked;
      if ok {
        present := present - {path};
      }
    }
  }

  // The bytes of the listed files that are still on the directory.
  function SizeOf(files: seq<File>, present: set<string>): nat {
    if files == [] then 0
    else (if files[0].path in present then files[0].size else 0) + SizeOf(files[1..], present)
  }

  predicate ByAge(files: seq<File>) {
    forall i, j :: 0 <= i < j < |files| ==> files[i].mod <= files[j].mod
  }

  ghost predicate DistinctPaths(files: seq<File>) {
    forall i, j :: 0 <= i < j < |files| ==> files[i].path != files[j].path
  }

  function Paths(files: seq<File>): set<string> {
    set f | f in files :: f.path
  }

  // The GiB limit in bytes, in 64-bit arithmetic.
  function Limit(gb: int): int {
    Wrap64(gb * 0x4000_0000)
  }

  // Files modified after this instant are protected.
  function Cutoff(now: int, segmentSeconds: int): int {
    now + Wrap64(-2 * segmentSeconds * SECOND)
  }

  lemma InsertedByAge(sorted: seq<File>, f: File, i: nat)
    requires ByAge(sorted) && i <= |sorted|
    requires i > 0 ==> sorted[i - 1].mod <= f.mod
    requires i < |sorted| ==> f.mod <= sorted[i].mod
    ensures ByAge(sorted[..i] + [f] + sorted[i..])
  {
    var s := sorted[..i] + [f] + sorted[i..];
    forall a, b | 0 <= a < b < |s|
      ensures s[a].mod <= s[b].mod
    {
      var a' := if a < i then a else a - 1;
      var b' := if b < i then b else b - 1;
      assert a != i ==> s[a] == sorted[a'];
      assert b != i ==> s[b] == sorted[b'];
    }
  }

  lemma InsertedMembers(sorted: seq<File>, f: File, i: nat)
    requires i <= |sorted|
    ensures multiset(sorted[..i] + [f] + sorted[i..]) == multiset(sorted) + multiset{f}
  {
    assert sorted == sorted[..i] + sorted[i..];
  }

  // sort.Slice by modification time: some sorted rearrangement.
  method SortByAge(files: seq<File>) returns (sorted: seq<File>)
    ensures multiset(sorted) == multiset(files) && ByAge(sorted)
  {
    sorted := [];
    for n := 0 to |files|
      invariant multiset(sorted) == multiset(files[..n]) && ByAge(sorted)
    {
      var f := files[n];
      var i := |sorted|;
      while i > 0 && f.mod < sorted[i - 1].mod
        invariant 0 <= i <= |sorted| && forall k :: i <= k < |sorted| ==> f.mod < sorted[k].mod
      {
        i := i - 1;
      }
      InsertedByAge(sorted, f, i);
      InsertedMembers(sorted, f, i);
      assert files[..n + 1] == files[..n] + [f];
      sorted := sorted[..i] + [f] + sorted[i..];
    }
    assert files[..|files|] == files;
  }

  // What a clean-up leaves behind.
  ghost predicate Outcome(files: seq<File>, locked: set<string>, after: set<string>, limit: int, cutoff: int) {
    // only unprotected files are removed
    && (forall f :: f in files && f.path !in after ==> f.mod <= cutoff && f.path !in locked)
    // no survivor that could have been removed is older than a removed file
    && (forall f, g ::
          f in files && g in files && f.path !in after && g.path in after && g.mod <= cutoff && g.path !in locked ==>
          f.mod <= g.mod)
    // the limit is met, or everything unprotected was tried
    && (SizeOf(files, after) > limit ==>
          forall f :: f in files && f.path in after && f.mod <= cutoff ==> f.path in locked)
    // putting the last removed file back would exceed the limit
    && ((exists f :: f in files && f.path !in after) ==>
          exists last :: last in files && last.path !in after && SizeOf(files, after) + last.size > limit
                         && forall f :: f in files && f.path !in after ==> f.mod <= last.mod)
  }

  // ---------------------------------------------------------------------
  // Sizes
  // ---------------------------------------------------------------------

  lemma {:induction false} SizeOfAppend(a: seq<File>, b: seq<File>, present: set<string>)
    ensures SizeOf(a + b, present) == SizeOf(a, present) + SizeOf(b, present)
  {
    if a == [] {
      assert a + b == b;
    } else {
      assert (a + b)[1..] == a[1..] + b;
      SizeOfAppend(a[1..], b, present);
    }
  }

  // Taking one file out of a list.
  lemma TakenOut(b: seq<File>, i: nat, present: set<string>)
    requires i < |b|
    ensures multiset(b[..i] + b[i + 1..]) == multiset(b) - multiset{b[i]}
    ensures SizeOf(b, present) == (if b[i].path in present then b[i].size else 0) + SizeOf(b[..i] + b[i + 1..], present)
  {
    var tail := b[i..];
    assert b == b[..i] + tail && tail == [b[i]] + b[i + 1..];
    SizeOfAppend(b[..i], tail, present);
    SizeOfAppend(b[..i], b[i + 1..], present);
  }

  lemma HeadOut(a: seq<File>)
    requires a != []
    ensures multiset(a[1..]) == multiset(a) - multiset{a[0]}
  {
    assert a == [a[0]] + a[1..];
  }

  lemma FindIn(a: seq<File>, b: seq<File>) returns (i: nat)
    requires multiset(a) == multiset(b) && a != []
    ensures i < |b| && b[i] == a[0]
  {
    assert a[0] in multiset(a);
    assert a[0] in b;
    i :| 0 <= i < |b| && b[i] == a[0];
  }

  // The size does not depend on the order of the list.
  lemma {:induction false} SizeOfPermuted(a: seq<File>, b: seq<File>, present: set<string>)
    requires multiset(a) == multiset(b)
    ensures SizeOf(a, present) == SizeOf(b, present)
    decreases |a|
  {
    if a == [] {
      assert |multiset(b)| == 0;
    } else {
      var i := FindIn(a, b);
      var rest := b[..i] + b[i + 1..];
      TakenOut(b, i, present);
      HeadOut(a);
      assert multiset(a[1..]) == multiset(rest);
      SizeOfPermuted(a[1..], rest, present);
    }
  }

  // Removing a path nobody else has takes away its file's size.
  lemma {:induction false} SizeOfRemoved(files: seq<File>, present: set<string>, k: nat)
    requires DistinctPaths(files) && k < |files| && files[k].path in present
    ensures SizeOf(files, present - {files[k].path}) == SizeOf(files, present) - files[k].size
  {
    if k == 0 {
      SizeOfUnlisted(files[1..], present, files[0].path);
    } else {
      SizeOfRemoved(files[1..], present, k - 1);
    }
  }

  lemma {:induction false} SizeOfUnlisted(files: seq<File>, present: set<string>, path: string)
    requires forall i :: 0 <= i < |files| ==> files[i].path != path
    ensures SizeOf(files, present - {path}) == SizeOf(files, present)
  {
    if files != [] {
      SizeOfUnlisted(files[1..], present, path);
    }
  }

  lemma PermutedMembers(a: seq<File>, b: seq<File>)
    requires multiset(a) == multiset(b)
    ensures forall f :: f in a <==> f in b
  {
    forall f
      ensures f in a <==> f in b
    {
      assert f in multiset(a) <==> f in multiset(b);
    }
  }

  lemma Twice(b: seq<File>, i: nat, j: nat)
    requires i < j < |b| && b[i] == b[j]
    ensures multiset(b)[b[i]] >= 2
  {
    assert b == b[..j] + b[j..];
    assert b[i] in b[..j] && b[i] in b[j..];
  }

  lemma PermutedDistinct(a: seq<File>, b: seq<File>)
    requires multiset(a) == multiset(b) && DistinctPaths(a)
    ensures DistinctPaths(b)
  {
    PermutedMembers(a, b);
    forall i: nat, j: nat | i < j < |b|
      ensures b[i].path != b[j].path
    {
      var k := IndexOf(a, b[i]);
      var l := IndexOf(a, b[j]);
      if k == l {
        Twice(b, i, j);
        OnlyOnce(a, k);
      }
    }
  }

  lemma IndexOf(a: seq<File>, f: File) returns (k: nat)
    requires f in a
    ensures k < |a| && a[k] == f
  {
    k :| 0 <= k < |a| && a[k] == f;
  }

  lemma OnlyOnce(a: seq<File>, k: nat)
    requires DistinctPaths(a) && k < |a|
    ensures multiset(a)[a[k]] == 1
  {
    assert a == a[..k] + [a[k]] + a[k + 1..];
    assert a[k] !in a[..k] && a[k] !in a[k + 1..];
  }

  // ---------------------------------------------------------------------
  // The clean-up
  // ---------------------------------------------------------------------

  // The deletion loop over the sorted list.
  method DeleteOldest(dir: Directory, sorted: seq<File>, size: int, limit: int, cutoff: int) returns (total: int)
    requires DistinctPaths(sorted) && ByAge(sorted) && size == SizeOf(sorted, dir.present)
    requires forall i :: 0 <= i < |sorted| ==> sorted[i].path in dir.present
    modifies dir
    ensures old(dir.present) - Paths(sorted) <= dir.present <= old(dir.present)
    ensures total == SizeOf(sorted, dir.present)
    ensures Outcome(sorted, dir.locked, dir.present, limit, cutoff)
  {
    total := size;
    ghost var last: Option<File> := None;
    var k := 0;
    while k < |sorted| && total > limit
      invariant 0 <= k <= |sorted| && old(dir.present) - Paths(sorted) <= dir.present <= old(dir.present)
      invariant forall i :: k <= i < |sorted| ==> sorted[i].path in dir.present
      invariant forall i :: 0 <= i < k ==>
        (sorted[i].path in dir.present <==> sorted[i].mod > cutoff || sorted[i].path in dir.locked)
      invariant total == SizeOf(sorted, dir.present)
      invariant last.None? ==> dir.present == old(dir.present)
      invariant last.Some? ==>
        last.value in sorted && last.value.path !in dir.present && total + last.value.size > limit
        && forall i :: 0 <= i < k && sorted[i].path !in dir.present ==> sorted[i].mod <= last.value.mod
    {
      var f := sorted[k];
      if f.mod <= cutoff {
        ghost var was := dir.present;
        var ok := dir.Remove(f.path);
        if ok {
          SizeOfRemoved(sorted, was, k);
          assert f in sorted;
          total := total - f.size;
          last := Some(f);
        }
      }
      k := k + 1;
    }
  }

  lemma OutcomeOfPermuted(a: seq<File>, b: seq<File>, locked: set<string>, after: set<string>, limit: int, cutoff: int)
    requires multiset(a) == multiset(b) && Outcome(a, locked, after, limit, cutoff)
    ensures Outcome(b, locked, after, limit, cutoff) && SizeOf(b, after) == SizeOf(a, after)
    ensures Paths(a) == Paths(b)
  {
    PermutedMembers(a, b);
    SizeOfPermuted(a, b, after);
  }

  method EnforceQuota(dir: Directory, files: seq<File>, maxRecordingGb: int, segmentSeconds: int, now: int)
    returns (total: int)
    requires DistinctPaths(files) && forall i :: 0 <= i < |files| ==> files[i].path in dir.present
    modifies dir
    ensures old(dir.present) - Paths(files) <= dir.present <= old(dir.present)
    ensures total == SizeOf(files, dir.present)
    ensures Outcome(files, dir.locked, dir.present, Limit(maxRecordingGb), Cutoff(now, segmentSeconds))
    ensures SizeOf(files, old(dir.present)) <= Limit(maxRecordingGb) ==> dir.present == old(dir.present)
    ensures 0 <= maxRecordingGb < 0x2_0000_0000 && total > maxRecordingGb * 0x4000_0000 ==>
              forall f :: f in files && f.path in dir.present ==>
                f.mod > Cutoff(now, segmentSeconds) || f.path in dir.locked
    ensures InInt64(-2 * segmentSeconds * 1_000_000_000) ==>
              forall f :: f in files && f.mod > now - 2 * segmentSeconds * 1_000_000_000 ==> f.path in dir.present
  {
    CutoffExactly(now, segmentSeconds);
    total := 0;
    assert files[0..] == files;
    for i := 0 to |files|
      invariant total + SizeOf(files[i..], dir.present) == SizeOf(files, dir.present)
    {
      assert files[i..][1..] == files[i + 1..];
      total := total + files[i].size;
    }
    var limit := Limit(maxRecordingGb);
    assert 0 <= maxRecordingGb < 0x2_0000_0000 ==> limit == maxRecordingGb * 0x4000_0000;
    if total <= limit {
      return;
    }
    var sorted := SortByAge(files);
    PermutedMembers(files, sorted);
    PermutedDistinct(files, sorted);
    SizeOfPermuted(files, sorted, dir.present);
    assert forall i :: 0 <= i < |sorted| ==> sorted[i] in files;
    total := DeleteOldest(dir, sorted, total, limit, Cutoff(now, segmentSeconds));
    OutcomeOfPermuted(sorted, files, dir.locked, dir.present, limit, Cutoff(now, segmentSeconds));
  }

  // ---------------------------------------------------------------------
  // The outcome is determined
  // ---------------------------------------------------------------------

  lemma {:induction false} SizeOfMonotone(files: seq<File>, a: set<string>, b: set<string>)
    requires forall i :: 0 <= i < |files| && files[i].path in a ==> files[i].path in b
    ensures SizeOf(files, a) <= SizeOf(files, b)
  {
    if files != [] {
      SizeOfMonotone(files[1..], a, b);
    }
  }

  ghost predicate DistinctAges(files: seq<File>) {
    forall i, j :: 0 <= i < j < |files| ==> files[i].mod != files[j].mod
  }

  // Two outcomes cannot disagree on a file: the one that removed it would have
  // removed one too many.
  lemma NoDisagreement(
      files: seq<File>, locked: set<string>, a: set<string>, b: set<string>, limit: int, cutoff: int, f: File)
    requires DistinctPaths(files) && DistinctAges(files) && f in files
    requires Outcome(files, locked, a, limit, cutoff) && Outcome(files, locked, b, limit, cutoff)
    requires f.path !in a
    ensures f.path !in b
  {
    if f.path in b {
      var last :| last in files && last.path !in a && SizeOf(files, a) + last.size > limit
                  && forall g :: g in files && g.path !in a ==> g.mod <= last.mod;
      assert SizeOf(files, b) <= limit;
      var l :| 0 <= l < |files| && files[l] == last;
      var k :| 0 <= k < |files| && files[k] == f;
      var more := a + {last.path};
      assert more - {last.path} == a;
      SizeOfRemoved(files, more, l);
      forall i | 0 <= i < |files| && files[i].path in more
        ensures files[i].path in b
      {
        assert i == k || files[i].mod != f.mod;
      }
      SizeOfMonotone(files, more, b);
    }
  }

  // When no two files are equally old, the clean-up has one possible outcome.
  lemma OutcomeUnique(files: seq<File>, locked: set<string>, a: set<string>, b: set<string>, limit: int, cutoff: int)
    requires DistinctPaths(files) && DistinctAges(files)
    requires Outcome(files, locked, a, limit, cutoff) && Outcome(files, locked, b, limit, cutoff)
    ensures forall f :: f in files ==> (f.path in a <==> f.path in b)
  {
    forall f | f in files
      ensures f.path in a <==> f.path in b
    {
      if f.path !in a {
        NoDisagreement(files, locked, a, b, limit, cutoff, f);
      }
      if f.path !in b {
        NoDisagreement(files, locked, b, a, limit, cutoff, f);
      }
    }
  }

  // Recent means modified within two segments of now, as long as that many
  // nanoseconds fit.
  lemma CutoffExactly(now: int, segmentSeconds: int)
    ensures Cutoff(now, segmentSeconds) == now - 2 * segmentSeconds * 1_000_000_000 <==>
              InInt64(-2 * segmentSeconds * 1_000_000_000)
  {
  }

  // The limit is what the setting says exactly below 2^33 GiB; at 2^33 it
  // wraps to a negative number.
  lemma LimitExactly(gb: int)
    requires 0 <= gb && InInt64(gb)
    ensures Limit(gb) == gb * 0x4000_0000 <==> gb < 0x2_0000_0000
  {
  }
}
