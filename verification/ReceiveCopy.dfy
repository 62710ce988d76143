// The loops of the stream handle: copying received buffers out to the application,
// and adding up the length of a send.

module Buffers {
  type Byte = x: int | 0 <= x < 256

  function Min(a: nat, b: nat): nat { if a <= b then a else b }

  function Flatten(buffs: seq<seq<Byte>>): seq<Byte> {
    if buffs == [] then [] else buffs[0] + Flatten(buffs[1..])
  }

  function Sizes(buffs: seq<seq<Byte>>): (sizes: seq<nat>)
    ensures |sizes| == |buffs| && forall i :: 0 <= i < |buffs| ==> sizes[i] == |buffs[i]|
  {
    seq(|buffs|, i requires 0 <= i < |buffs| => |buffs[i]|)
  }

  function Sum(sizes: seq<nat>): nat {
    if sizes == [] then 0 else sizes[0] + Sum(sizes[1..])
  }

  lemma {:induction false} SumAppend(sizes: seq<nat>, x: nat)
    ensures Sum(sizes + [x]) == Sum(sizes) + x
  {
    if sizes != [] {
      SumAppend(sizes[1..], x);
      assert (sizes + [x])[1..] == sizes[1..] + [x];
    } else {
      assert sizes + [x] == [x] && [x][1..] == [];
    }
  }
}

module ReceiveCopy {
  import opened Buffers

  /** How many bytes the loop hands over into a destination with `room` bytes. */
  function Copied(room: nat, buffs: seq<seq<Byte>>): nat {
    if buffs == [] then 0
    else var k := Min(room, |buffs[0]|); k + Copied(room - k, buffs[1..])
  }

  /**
   * What the loop leaves in the destination: the pointer passed to memcpy_s is never
   * advanced, so every buffer, cut to the room that is left, lands at offset 0.
   */
  function Overlay(dest: seq<Byte>, room: nat, buffs: seq<seq<Byte>>): (r: seq<Byte>)
    requires room <= |dest|
    ensures |r| == |dest|
    decreases buffs
  {
    if buffs == [] then dest
    else
      var k := Min(room, |buffs[0]|);
      Overlay(buffs[0][..k] + dest[k..], room - k, buffs[1..])
  }

  /** The copy loop run by the receive handler. */
  method CopyOut(lpBuffer: array<Byte>, bufferLen: nat, buffs: seq<seq<Byte>>) returns (copied: nat)
    requires bufferLen <= lpBuffer.Length
    modifies lpBuffer
    ensures copied == Min(bufferLen, |Flatten(buffs)|)
    ensures lpBuffer[..] == Overlay(old(lpBuffer[..]), bufferLen, buffs)
    ensures forall j :: copied <= j < lpBuffer.Length ==> lpBuffer[j] == old(lpBuffer[j])
  {
    var remaining := bufferLen;
    copied := 0;
    var i := 0;
    while i < |buffs|
      invariant 0 <= i <= |buffs|
      invariant copied + remaining == bufferLen
      invariant copied + Copied(remaining, buffs[i..]) == Copied(bufferLen, buffs)
      invariant Overlay(lpBuffer[..], remaining, buffs[i..]) == Overlay(old(lpBuffer[..]), bufferLen, buffs)
      invariant forall j :: copied <= j < lpBuffer.Length ==> lpBuffer[j] == old(lpBuffer[j])
    {
      var buff := buffs[i];
      var toCopy := Min(remaining, |buff|);
      ghost var before := lpBuffer[..];
      assert buffs[i..][0] == buff && buffs[i..][1..] == buffs[i + 1..];
      if toCopy != 0 {
        assert toCopy <= remaining;  // memcpy_s succeeds
        forall j | 0 <= j < toCopy {
          lpBuffer[j] := buff[j];
        }
        remaining := remaining - toCopy;
        copied := copied + toCopy;
      }
      assert lpBuffer[..] == buff[..toCopy] + before[toCopy..];
      i := i + 1;
    }
    CopiedIsMin(bufferLen, buffs);
  }

  lemma {:induction false} CopiedIsMin(room: nat, buffs: seq<seq<Byte>>)
    ensures Copied(room, buffs) == Min(room, |Flatten(buffs)|)
  {
    if buffs != [] {
      CopiedIsMin(room - Min(room, |buffs[0]|), buffs[1..]);
    }
  }

  // ----- who wrote which byte

  /** Bytes that buffer `i` contributes: what fits after the buffers before it. */
  function Share(room: nat, buffs: seq<seq<Byte>>, i: nat): nat
    requires i < |buffs|
  {
    if i == 0 then Min(room, |buffs[0]|)
    else Share(room - Min(room, |buffs[0]|), buffs[1..], i - 1)
  }

  /** Buffer `i` gets exactly the room left over by the bytes before it. */
  lemma {:induction false} ShareIsLeftover(room: nat, buffs: seq<seq<Byte>>, i: nat)
    requires i < |buffs|
    ensures Share(room, buffs, i) == Min(room - Min(room, |Flatten(buffs[..i])|), |buffs[i]|)
  {
    if i > 0 {
      ShareIsLeftover(room - Min(room, |buffs[0]|), buffs[1..], i - 1);
      assert buffs[1..][..i - 1] == buffs[..i][1..];
    }
  }

  /** At every offset the last buffer long enough to reach it wins. */
  lemma {:induction false} LastCopyWins(dest: seq<Byte>, room: nat, buffs: seq<seq<Byte>>, i: nat, j: nat)
    requires room <= |dest| && i < |buffs| && j < Share(room, buffs, i)
    requires forall k :: i < k < |buffs| ==> Share(room, buffs, k) <= j
    ensures j < |buffs[i]| && j < |dest|
    ensures Overlay(dest, room, buffs)[j] == buffs[i][j]
    decreases buffs
  {
    var k := Min(room, |buffs[0]|);
    var dest', left, rest := buffs[0][..k] + dest[k..], room - k, buffs[1..];
    if i == 0 {
      forall m | 0 <= m < |rest| ensures Share(left, rest, m) <= j {
        assert Share(room, buffs, m + 1) <= j;
      }
      UntouchedByte(dest', left, rest, j);
    } else {
      forall m | i - 1 < m < |rest| ensures Share(left, rest, m) <= j {
        assert Share(room, buffs, m + 1) <= j;
      }
      LastCopyWins(dest', left, rest, i - 1, j);
    }
  }

  /** An offset that no buffer reaches keeps its old byte. */
  lemma {:induction false} UntouchedByte(dest: seq<Byte>, room: nat, buffs: seq<seq<Byte>>, j: nat)
    requires room <= |dest| && j < |dest|
    requires forall k :: 0 <= k < |buffs| ==> Share(room, buffs, k) <= j
    ensures Overlay(dest, room, buffs)[j] == dest[j]
    decreases buffs
  {
    if buffs != [] {
      var k := Min(room, |buffs[0]|);
      var left, rest := room - k, buffs[1..];
      assert Share(room, buffs, 0) <= j;
      forall m | 0 <= m < |rest| ensures Share(left, rest, m) <= j {
        assert Share(room, buffs, m + 1) <= j;
      }
      UntouchedByte(buffs[0][..k] + dest[k..], left, rest, j);
    }
  }

  // ----- when the application sees the peer's bytes

  /** The application reads the peer's bytes, in order, from the start of its buffer. */
  ghost predicate Delivers(dest: seq<Byte>, room: nat, buffs: seq<seq<Byte>>)
    requires room <= |dest|
  {
    CopiedIsMin(room, buffs);
    Overlay(dest, room, buffs)[..Copied(room, buffs)] == Flatten(buffs)[..Copied(room, buffs)]
  }

  /** The destination fills inside the first non-empty buffer, or no later one has bytes. */
  predicate Fits(room: nat, sizes: seq<nat>) {
    sizes == []
    || (sizes[0] == 0 && Fits(room, sizes[1..]))
    || (sizes[0] != 0 && (room <= sizes[0] || Sum(sizes[1..]) == 0))
  }

  lemma {:induction false} NothingToCopy(dest: seq<Byte>, room: nat, buffs: seq<seq<Byte>>)
    requires room <= |dest| && (room == 0 || Sum(Sizes(buffs)) == 0)
    ensures Overlay(dest, room, buffs) == dest && Copied(room, buffs) == 0
    decreases buffs
  {
    if buffs != [] {
      assert Sizes(buffs)[1..] == Sizes(buffs[1..]);
      assert buffs[0][..0] + dest[0..] == dest;
      NothingToCopy(dest, room, buffs[1..]);
    }
  }

  lemma {:induction false} FittingDelivers(dest: seq<Byte>, room: nat, buffs: seq<seq<Byte>>)
    requires room <= |dest| && Fits(room, Sizes(buffs))
    ensures Delivers(dest, room, buffs)
    decreases buffs
  {
    CopiedIsMin(room, buffs);
    if buffs != [] {
      var sizes := Sizes(buffs);
      assert sizes[1..] == Sizes(buffs[1..]);
      var k := Min(room, |buffs[0]|);
      var dest' := buffs[0][..k] + dest[k..];
      if sizes[0] == 0 {
        assert dest' == dest && buffs[0] == [];
        FittingDelivers(dest, room, buffs[1..]);
      } else {
        NothingToCopy(dest', room - k, buffs[1..]);
        assert Flatten(buffs)[..k] == buffs[0][..k] == dest'[..k];
      }
    }
  }

  /** Buffers of the given sizes, every byte `b`. */
  function Filled(sizes: seq<nat>, b: Byte): (buffs: seq<seq<Byte>>)
    ensures Sizes(buffs) == sizes
  {
    var buffs := seq(|sizes|, i requires 0 <= i < |sizes| => seq(sizes[i], j => b));
    assert forall i :: 0 <= i < |sizes| ==> |buffs[i]| == sizes[i];
    buffs
  }

  lemma {:induction false} FilledWins(dest: seq<Byte>, room: nat, sizes: seq<nat>, b: Byte)
    requires 0 < room <= |dest| && Sum(sizes) > 0
    ensures Overlay(dest, room, Filled(sizes, b))[0] == b
    decreases sizes
  {
    var buffs := Filled(sizes, b);
    var k := Min(room, |buffs[0]|);
    var dest' := buffs[0][..k] + dest[k..];
    assert buffs[1..] == Filled(sizes[1..], b);
    if k == 0 {
      FilledWins(dest', room, sizes[1..], b);
    } else if room - k > 0 && Sum(sizes[1..]) > 0 {
      FilledWins(dest', room - k, sizes[1..], b);
    } else {
      NothingToCopy(dest', room - k, buffs[1..]);
    }
  }

  /** Zeros in the first non-empty buffer, ones in all later ones. */
  function Clashing(sizes: seq<nat>): (buffs: seq<seq<Byte>>)
    ensures Sizes(buffs) == sizes
  {
    if sizes == [] then []
    else if sizes[0] == 0 then
      var buffs := [[]] + Clashing(sizes[1..]);
      assert forall i :: 0 < i < |sizes| ==> |buffs[i]| == Sizes(Clashing(sizes[1..]))[i - 1];
      buffs
    else
      var buffs := [seq(sizes[0], j => 0)] + Filled(sizes[1..], 1);
      assert forall i :: 0 < i < |sizes| ==> |buffs[i]| == Sizes(Filled(sizes[1..], 1))[i - 1];
      buffs
  }

  lemma {:induction false} ClashingIsLost(dest: seq<Byte>, room: nat, sizes: seq<nat>)
    requires room <= |dest| && !Fits(room, sizes)
    ensures !Delivers(dest, room, Clashing(sizes))
    ensures Copied(room, Clashing(sizes)) > 0
    ensures room > 0 && Overlay(dest, room, Clashing(sizes))[0] == 1
    ensures Flatten(Clashing(sizes)) != [] && Flatten(Clashing(sizes))[0] == 0
    decreases sizes
  {
    var buffs := Clashing(sizes);
    var k := Min(room, |buffs[0]|);
    CopiedIsMin(room, buffs);
    if sizes[0] == 0 {
      assert buffs[0] == [] && buffs[1..] == Clashing(sizes[1..]);
      assert buffs[0][..0] + dest[0..] == dest;
      ClashingIsLost(dest, room, sizes[1..]);
    } else {
      assert buffs[1..] == Filled(sizes[1..], 1);
      FilledWins(buffs[0][..k] + dest[k..], room - k, sizes[1..], 1);
    }
    assert Overlay(dest, room, buffs)[..Copied(room, buffs)][0] == 1;
    assert Flatten(buffs)[..Copied(room, buffs)][0] == 0;
  }

  /** The quantified side of OrderedExactlyWhenFitting. */
  ghost predicate DeliversAll(room: nat, sizes: seq<nat>) {
    forall dest: seq<Byte>, buffs: seq<seq<Byte>> ::
      room <= |dest| && Sizes(buffs) == sizes ==> Delivers(dest, room, buffs)
  }

  /**
   * For a destination of `room` bytes and a RECEIVE with buffers of the given sizes,
   * the copy delivers the peer's bytes in order, whatever they are and whatever the
   * destination held, exactly when the sizes fit.
   */
  lemma OrderedExactlyWhenFitting(room: nat, sizes: seq<nat>)
    ensures DeliversAll(room, sizes) <==> Fits(room, sizes)
  {
    if Fits(room, sizes) {
      forall dest: seq<Byte>, buffs: seq<seq<Byte>> | room <= |dest| && Sizes(buffs) == sizes
        ensures Delivers(dest, room, buffs)
      {
        FittingDelivers(dest, room, buffs);
      }
    } else {
      var dest: seq<Byte> := seq(room, j => 0);
      ClashingIsLost(dest, room, sizes);
      assert Sizes(Clashing(sizes)) == sizes && !Delivers(dest, room, Clashing(sizes));
    }
  }

  // ----- the loop its comment describes

  /** The copy with a destination pointer that advances past the bytes it has copied. */
  function Advancing(dest: seq<Byte>, room: nat, buffs: seq<seq<Byte>>): (r: seq<Byte>)
    requires room <= |dest|
    ensures |r| == |dest|
    decreases buffs
  {
    if buffs == [] then dest
    else
      var k := Min(room, |buffs[0]|);
      buffs[0][..k] + Advancing(dest[k..], room - k, buffs[1..])
  }

  /** One buffer's chunk in front of what the later buffers leave. */
  lemma ChunkInFront(buff: seq<Byte>, later: seq<Byte>, dest: seq<Byte>, k: nat, rest: nat)
    requires k <= |buff| && k + rest <= |dest| && rest <= |later|
    requires rest == 0 || k == |buff|
    ensures buff[..k] + (later[..rest] + dest[k..][rest..]) == (buff + later)[..k + rest] + dest[k + rest..]
  {
    assert dest[k..][rest..] == dest[k + rest..];
    assert (buff + later)[..k + rest] == buff[..k] + later[..rest];
  }

  /** It leaves the peer's bytes in order, for every destination and all buffers. */
  lemma {:induction false} AdvancingDelivers(dest: seq<Byte>, room: nat, buffs: seq<seq<Byte>>)
    requires room <= |dest|
    ensures Copied(room, buffs) == Min(room, |Flatten(buffs)|)
    ensures Advancing(dest, room, buffs) == Flatten(buffs)[..Copied(room, buffs)] + dest[Copied(room, buffs)..]
    decreases buffs
  {
    CopiedIsMin(room, buffs);
    if buffs != [] {
      var k := Min(room, |buffs[0]|);
      AdvancingDelivers(dest[k..], room - k, buffs[1..]);
      ChunkInFront(buffs[0], Flatten(buffs[1..]), dest, k, Copied(room - k, buffs[1..]));
    }
  }

  /** Two one-byte buffers into a two-byte destination: both land on byte 0. */
  lemma TwoBuffersCollide()
    ensures Overlay([7, 7], 2, [[1], [2]]) == [2, 7]
    ensures Copied(2, [[1], [2]]) == 2 && Flatten([[1], [2]]) == [1, 2]
  {
    assert [[1], [2]][1..] == [[2]] && [[2]][1..] == [];
    assert Overlay([7, 7], 2, [[1], [2]]) == Overlay([1, 7], 1, [[2]]);
    assert Overlay([1, 7], 1, [[2]]) == Overlay([2, 7], 0, []);
    assert Flatten([[2]]) == [2] + Flatten([]);
    assert Copied(1, [[2]]) == 1 + Copied(0, []);
  }
}

module SendLength {
  import opened Buffers

  const SIZE_T: nat := 0x1_0000_0000_0000_0000
  const UINT32: nat := 0x1_0000_0000

  /** The loop of async_send that adds buffer lengths into a 64-bit size_t. */
  method QueuedLength(lengths: seq<nat>) returns (len: nat)
    requires |lengths| < UINT32 && forall i :: 0 <= i < |lengths| ==> lengths[i] < UINT32
    ensures len == Sum(lengths) < SIZE_T
  {
    len := 0;
    var i := 0;
    while i < |lengths|
      invariant 0 <= i <= |lengths|
      invariant len == Sum(lengths[..i])
    {
      assert lengths[..i + 1] == lengths[..i] + [lengths[i]];
      SumAppend(lengths[..i], lengths[i]);
      SumBound(lengths[..i + 1]);
      len := (len + lengths[i]) % SIZE_T;
      i := i + 1;
    }
    assert lengths[..i] == lengths;
    SumBound(lengths);
  }

  /** The largest legal request stays below 2^64. */
  lemma SumBound(lengths: seq<nat>)
    requires |lengths| < UINT32 && forall i :: 0 <= i < |lengths| ==> lengths[i] < UINT32
    ensures Sum(lengths) <= (UINT32 - 1) * (UINT32 - 1) < SIZE_T
  {
    SumPerItem(lengths);
    assert |lengths| * (UINT32 - 1) <= (UINT32 - 1) * (UINT32 - 1);
  }

  lemma {:induction false} SumPerItem(lengths: seq<nat>)
    requires forall i :: 0 <= i < |lengths| ==> lengths[i] < UINT32
    ensures Sum(lengths) <= |lengths| * (UINT32 - 1)
  {
    if lengths != [] {
      SumPerItem(lengths[1..]);
    }
  }
}
