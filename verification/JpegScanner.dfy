// The frame scanner of the snapshot worker (readJPEGFrame and the loop around
// it, internal/onvif/server.go). Markers per Table B.1 of ITU-T T.81: SOI is
// FF D8, EOI is FF D9.

module JpegScanner {
  import opened Common

  predicate Soi(s: seq<Byte>, i: int) {
    0 <= i < |s| - 1 && s[i] == 0xFF && s[i + 1] == 0xD8
  }

  predicate Eoi(s: seq<Byte>, i: int) {
    0 <= i < |s| - 1 && s[i] == 0xFF && s[i + 1] == 0xD9
  }

  // The first SOI at or after `from`, or |s|.
  function FirstSoi(s: seq<Byte>, from: nat): (i: nat)
    requires from <= |s|
    ensures from <= i <= |s|
    ensures i < |s| ==> Soi(s, i)
    ensures forall k :: from <= k < i ==> !Soi(s, k)
    decreases |s| - from
  {
    if from == |s| || Soi(s, from) then from else FirstSoi(s, from + 1)
  }

  // The first EOI at or after `from`, or |s|.
  function FirstEoi(s: seq<Byte>, from: nat): (i: nat)
    requires from <= |s|
    ensures from <= i <= |s|
    ensures i < |s| ==> Eoi(s, i)
    ensures forall k :: from <= k < i ==> !Eoi(s, k)
    decreases |s| - from
  {
    if from == |s| || Eoi(s, from) then from else FirstEoi(s, from + 1)
  }

  datatype Result = Frame(bytes: seq<Byte>) | EndOfStream | TooLong

  // What one call reads from the rest of a stream, and how much it consumes.
  // The length is checked before the end marker, and not before the third byte.
  function Scan(s: seq<Byte>, maxBytes: nat): (r: (Result, nat))
    ensures r.1 <= |s|
  {
    var i := FirstSoi(s, 0);
    if i == |s| then (EndOfStream, |s|)
    else
      var j := FirstEoi(s, i + 2);
      var limit := i + if maxBytes < 2 then 2 else maxBytes;
      if j < |s| && j + 2 - i <= maxBytes then (Frame(s[i..j + 2]), j + 2)
      else if limit < |s| then (TooLong, limit + 1)
      else (EndOfStream, |s|)
  }

  class Reader {
    const data: seq<Byte>
    var pos: nat

    ghost predicate Valid()
      reads this
    {
      pos <= |data|
    }

    constructor (data: seq<Byte>)
      ensures Valid() && this.data == data && pos == 0
    {
      this.data, this.pos := data, 0;
    }

    method ReadByte() returns (b: Option<Byte>)
      requires Valid()
      modifies this
      ensures Valid()
      ensures old(pos) < |data| ==> b == Some(data[old(pos)]) && pos == old(pos) + 1
      ensures old(pos) == |data| ==> b == None && pos == old(pos)
    {
      if pos == |data| {
        return None;
      }
      b := Some(data[pos]);
      pos := pos + 1;
    }
  }

  // The scan has seen n bytes, an SOI at i among them and no EOI, and the
  // limit was not exceeded.
  predicate Inside(s: seq<Byte>, maxBytes: nat, i: int, n: int) {
    && i == FirstSoi(s, 0) && i + 2 <= n <= |s| && (n == i + 2 || n - i <= maxBytes)
    && forall k :: i + 2 <= k < n - 1 ==> !Eoi(s, k)
  }

  // The scan has seen n bytes without an SOI.
  predicate Outside(s: seq<Byte>, n: int) {
    0 <= n <= |s| && forall k :: 0 <= k < n - 1 ==> !Soi(s, k)
  }

  lemma ScanEnds(s: seq<Byte>, maxBytes: nat, i: int, started: bool)
    requires if started then Inside(s, maxBytes, i, |s|) else Outside(s, |s|)
    ensures Scan(s, maxBytes) == (EndOfStream, |s|)
  {
    if !started {
      assert FirstSoi(s, 0) == |s|;
    } else {
      assert FirstEoi(s, i + 2) == |s|;
    }
  }

  lemma ScanStarts(s: seq<Byte>, maxBytes: nat, n: nat)
    requires n >= 2 && Outside(s, n - 1) && Soi(s, n - 2)
    ensures Inside(s, maxBytes, n - 2, n) && s[n - 2..n] == [0xFF, 0xD8]
  {
  }

  lemma OneByteMore(s: seq<Byte>, i: nat, n: nat)
    requires i < n <= |s|
    ensures s[i..n - 1] + [s[n - 1]] == s[i..n]
  {
  }

  lemma ScanExceeds(s: seq<Byte>, maxBytes: nat, i: int, n: int)
    requires n >= 1 && Inside(s, maxBytes, i, n - 1) && n <= |s| && n - i > maxBytes
    ensures Scan(s, maxBytes) == (TooLong, n)
  {
    assert n - 2 <= FirstEoi(s, i + 2);
  }

  lemma ScanFinishes(s: seq<Byte>, maxBytes: nat, i: int, n: int)
    requires n >= 1 && Inside(s, maxBytes, i, n - 1) && n <= |s| && n - i <= maxBytes
    ensures Eoi(s, n - 2) && i + 4 <= n ==> Scan(s, maxBytes) == (Frame(s[i..n]), n)
  {
    if Eoi(s, n - 2) && i + 4 <= n {
      assert FirstEoi(s, i + 2) == n - 2;
    }
  }

  method ReadJpegFrame(r: Reader, maxBytes: nat) returns (result: Result)
    requires r.Valid()
    modifies r
    ensures r.Valid()
    ensures (result, r.pos - old(r.pos)) == Scan(r.data[old(r.pos)..], maxBytes)
  {
    ghost var s, base := r.data[r.pos..], r.pos;
    ghost var i: int := 0;
    var frame: seq<Byte> := [];
    var prev: Byte := 0;
    var started := false;
    while true
      invariant r.Valid() && base <= r.pos
      invariant var n := r.pos - base;
        if started then Inside(s, maxBytes, i, n) && frame == s[i..n] && prev == s[n - 1]
        else Outside(s, n) && prev == if n == 0 then 0 else s[n - 1]
      decreases |r.data| - r.pos
    {
      var b := r.ReadByte();
      ghost var n := r.pos - base;
      if b.None? {
        ScanEnds(s, maxBytes, i, started);
        return EndOfStream;
      }
      assert b.value == s[n - 1];
      if !started {
        if prev == 0xFF && b.value == 0xD8 {
          ScanStarts(s, maxBytes, n);
          frame := [0xFF, 0xD8];
          started := true;
          i := n - 2;
        }
        prev := b.value;
        continue;
      }
      frame := frame + [b.value];
      OneByteMore(s, i, n);
      if |frame| > maxBytes {
        ScanExceeds(s, maxBytes, i, n);
        return TooLong;
      }
      if prev == 0xFF && b.value == 0xD9 {
        ScanFinishes(s, maxBytes, i, n);
        return Frame(frame);
      }
      prev := b.value;
    }
  }

  // ---------------------------------------------------------------------
  // What a frame is
  // ---------------------------------------------------------------------

  // SOI first, and EOI for the first time at the very end.
  predicate IsJpeg(f: seq<Byte>) {
    |f| >= 4 && Soi(f, 0) && Eoi(f, |f| - 2) && forall k :: 2 <= k < |f| - 2 ==> !Eoi(f, k)
  }

  predicate NoSoi(s: seq<Byte>) {
    forall k :: 0 <= k < |s| ==> !Soi(s, k)
  }

  predicate LeadingJpeg(s: seq<Byte>, maxBytes: nat, f: seq<Byte>, n: nat) {
    |f| <= n <= |s| && |f| <= maxBytes && f == s[n - |f|..n] && IsJpeg(f) && NoSoi(s[..n - |f|])
  }

  lemma SoiFound(s: seq<Byte>, i: nat)
    requires Soi(s, i) && NoSoi(s[..i])
    ensures FirstSoi(s, 0) == i
  {
    forall k | 0 <= k < i
      ensures !Soi(s, k)
    {
      if k + 1 < i {
        assert !Soi(s[..i], k);
      }
    }
  }

  lemma EoiFound(s: seq<Byte>, i: nat, n: nat)
    requires i + 4 <= n <= |s| && IsJpeg(s[i..n])
    ensures FirstEoi(s, i + 2) == n - 2
  {
    var f := s[i..n];
    assert Eoi(s, n - 2) by {
      assert f[|f| - 2] == s[n - 2] && f[|f| - 1] == s[n - 1];
    }
    forall k | i + 2 <= k < n - 2
      ensures !Eoi(s, k)
    {
      assert s[k] == f[k - i] && s[k + 1] == f[k - i + 1];
      assert !Eoi(f, k - i);
    }
  }

  lemma JpegIsScanned(s: seq<Byte>, maxBytes: nat, f: seq<Byte>, n: nat)
    requires LeadingJpeg(s, maxBytes, f, n)
    ensures Scan(s, maxBytes) == (Frame(f), n)
  {
    var i := n - |f|;
    assert s[i] == f[0] && s[i + 1] == f[1];
    SoiFound(s, i);
    EoiFound(s, i, n);
  }

  lemma NothingBefore(s: seq<Byte>)
    ensures NoSoi(s[..FirstSoi(s, 0)])
  {
    var i := FirstSoi(s, 0);
    forall k | 0 <= k < i
      ensures !Soi(s[..i], k)
    {
      assert !Soi(s, k);
    }
  }

  lemma ImageBetween(s: seq<Byte>, i: nat, n: nat)
    requires i + 4 <= n <= |s| && Soi(s, i) && Eoi(s, n - 2) && forall k :: i + 2 <= k < n - 2 ==> !Eoi(s, k)
    ensures IsJpeg(s[i..n])
  {
    var f := s[i..n];
    forall k | 2 <= k < |f| - 2
      ensures !Eoi(f, k)
    {
      assert f[k] == s[k + i] && f[k + 1] == s[k + i + 1];
      assert !Eoi(s, k + i);
    }
  }

  lemma FrameIsJpeg(s: seq<Byte>, maxBytes: nat, f: seq<Byte>, n: nat)
    requires Scan(s, maxBytes) == (Frame(f), n)
    ensures LeadingJpeg(s, maxBytes, f, n)
  {
    var i := FirstSoi(s, 0);
    NothingBefore(s);
    ImageBetween(s, i, n);
    assert n - |f| == i;
  }

  // A call returns f having consumed n bytes exactly when the stream starts
  // with something free of SOI followed by the JPEG image f, n bytes in all,
  // and f is not over the limit.
  lemma ScanExactly(s: seq<Byte>, maxBytes: nat, f: seq<Byte>, n: nat)
    ensures Scan(s, maxBytes) == (Frame(f), n) <==> LeadingJpeg(s, maxBytes, f, n)
  {
    if LeadingJpeg(s, maxBytes, f, n) {
      JpegIsScanned(s, maxBytes, f, n);
    }
    if Scan(s, maxBytes) == (Frame(f), n) {
      FrameIsJpeg(s, maxBytes, f, n);
    }
  }

  // The first SOI is at i and no EOI ends an image within the limit, while the
  // stream goes on past it.
  predicate Overlong(s: seq<Byte>, maxBytes: nat, i: nat) {
    && Soi(s, i) && NoSoi(s[..i]) && i + 2 < |s| && i + maxBytes < |s|
    && forall k :: i + 2 <= k <= i + maxBytes - 2 ==> !Eoi(s, k)
  }

  lemma OverlongIsRefused(s: seq<Byte>, maxBytes: nat, i: nat)
    requires Overlong(s, maxBytes, i)
    ensures Scan(s, maxBytes) == (TooLong, i + (if maxBytes < 2 then 2 else maxBytes) + 1)
  {
    SoiFound(s, i);
    var j := FirstEoi(s, i + 2);
    assert j < |s| ==> j > i + maxBytes - 2;
  }

  lemma RefusedIsOverlong(s: seq<Byte>, maxBytes: nat)
    requires Scan(s, maxBytes).0.TooLong?
    ensures Overlong(s, maxBytes, FirstSoi(s, 0))
  {
    NothingBefore(s);
  }

  // A call complains of the length exactly on such a stream, having read one
  // byte past the limit.
  lemma TooLongExactly(s: seq<Byte>, maxBytes: nat)
    ensures Scan(s, maxBytes).0.TooLong? <==> exists i: nat :: Overlong(s, maxBytes, i)
  {
    if i: nat :| Overlong(s, maxBytes, i) {
      OverlongIsRefused(s, maxBytes, i);
    }
    if Scan(s, maxBytes).0.TooLong? {
      RefusedIsOverlong(s, maxBytes);
    }
  }

  // ---------------------------------------------------------------------
  // The snapshot loop
  // ---------------------------------------------------------------------

  // All the frames of a stream, up to the first error.
  function Frames(s: seq<Byte>, maxBytes: nat): seq<seq<Byte>>
    decreases |s|
  {
    var (result, n) := Scan(s, maxBytes);
    if result.Frame? && n > 0 then [result.bytes] + Frames(s[n..], maxBytes) else []
  }

  lemma FirstFrame(s: seq<Byte>, maxBytes: nat, f: seq<Byte>, n: nat)
    requires Scan(s, maxBytes) == (Frame(f), n)
    ensures 0 < n <= |s| && Frames(s, maxBytes) == [f] + Frames(s[n..], maxBytes)
  {
    FrameIsJpeg(s, maxBytes, f, n);
  }

  // With `done` of all the frames behind it, a call reads the next one, or
  // shows that there was none.
  lemma FramesStep(all: seq<seq<Byte>>, done: nat, data: seq<Byte>, start: nat, pos: nat, maxBytes: nat, result: Result)
    requires start <= pos <= |data| && Scan(data[start..], maxBytes) == (result, pos - start)
    requires done <= |all| && all[done..] == Frames(data[start..], maxBytes)
    ensures if result.Frame? then
              && start < pos && done < |all|
              && all[done] == result.bytes && all[done + 1..] == Frames(data[pos..], maxBytes)
            else done == |all|
  {
    var rest := data[start..];
    if result.Frame? {
      FirstFrame(rest, maxBytes, result.bytes, pos - start);
      assert rest[pos - start..] == data[pos..];
      assert all[done..][0] == result.bytes;
      assert all[done..][1..] == all[done + 1..];
    } else {
      assert Frames(rest, maxBytes) == [];
    }
  }

  class SnapshotCache {
    var jpeg: seq<Byte>

    // The frame-reading loop: it caches each frame, and ends on the first
    // error.
    method ReadFrames(r: Reader, maxBytes: nat) returns (frames: nat)
      requires r.Valid()
      modifies r, this
      ensures frames == |Frames(r.data[old(r.pos)..], maxBytes)|
      ensures jpeg == if frames == 0 then old(jpeg) else Frames(r.data[old(r.pos)..], maxBytes)[frames - 1]
    {
      frames := 0;
      ghost var data := r.data;
      ghost var all := Frames(data[r.pos..], maxBytes);
      while true
        invariant r.Valid() && frames <= |all| && all[frames..] == Frames(data[r.pos..], maxBytes)
        invariant jpeg == if frames == 0 then old(jpeg) else all[frames - 1]
        decreases |r.data| - r.pos
      {
        ghost var start := r.pos;
        var result := ReadJpegFrame(r, maxBytes);
        FramesStep(all, frames, data, start, r.pos, maxBytes, result);
        if !result.Frame? {
          return;
        }
        jpeg := result.bytes;
        frames := frames + 1;
      }
    }
  }

  // Images interleaved with junk.
  datatype Piece = Piece(junk: seq<Byte>, image: seq<Byte>)

  function Stream(pieces: seq<Piece>, tail: seq<Byte>): seq<Byte> {
    if pieces == [] then tail else pieces[0].junk + pieces[0].image + Stream(pieces[1..], tail)
  }

  function Images(pieces: seq<Piece>): seq<seq<Byte>> {
    if pieces == [] then [] else [pieces[0].image] + Images(pieces[1..])
  }

  predicate Proper(p: Piece, maxBytes: nat) {
    NoSoi(p.junk) && IsJpeg(p.image) && |p.image| <= maxBytes
  }

  lemma ThreeParts(a: seq<Byte>, b: seq<Byte>, c: seq<Byte>)
    ensures var s := a + b + c;
      s[..|a|] == a && s[|a|..|a| + |b|] == b && s[|a| + |b|..] == c
  {
  }

  // Any list of images within the limit, with junk free of SOI around them, is
  // split into exactly that list.
  lemma {:induction false} ExactSegmentation(pieces: seq<Piece>, tail: seq<Byte>, maxBytes: nat)
    requires forall i :: 0 <= i < |pieces| ==> Proper(pieces[i], maxBytes)
    requires NoSoi(tail)
    ensures Frames(Stream(pieces, tail), maxBytes) == Images(pieces)
  {
    var s := Stream(pieces, tail);
    if pieces == [] {
      assert FirstSoi(s, 0) == |s|;
    } else {
      var p, rest := pieces[0], Stream(pieces[1..], tail);
      var n := |p.junk| + |p.image|;
      ThreeParts(p.junk, p.image, rest);
      JpegIsScanned(s, maxBytes, p.image, n);
      ExactSegmentation(pieces[1..], tail, maxBytes);
    }
  }
}
