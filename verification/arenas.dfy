/**
 * Native memory segments as the invoker uses them: each allocation opens a new
 * segment, and closing a segment that is already closed throws
 * IllegalStateException. A segment is named by its allocation number.
 */
module Arenas {
  import opened Wrappers

  /** close() on segment `id`: it must still be open. */
  function CloseOne(live: seq<bool>, id: nat): (r: (Option<Exception>, seq<bool>))
    requires id < |live|
    ensures r.0.None? <==> live[id]
    ensures r.0.Some? ==> r.0.value == IllegalStateException && r.1 == live
    ensures r.0.None? ==> r.1 == live[id := false]
  {
    if live[id] then (None, live[id := false]) else (Some(IllegalStateException), live)
  }

  /** Closing `ids` in order; the first failure propagates and the later segments stay as they are. */
  function CloseAll(live: seq<bool>, ids: seq<nat>): (r: (Option<Exception>, seq<bool>))
    requires forall k :: 0 <= k < |ids| ==> ids[k] < |live|
    ensures |r.1| == |live|
    ensures forall j :: 0 <= j < |live| && j !in ids ==> r.1[j] == live[j]
    ensures r.0.None? ==> forall k :: 0 <= k < |ids| ==> !r.1[ids[k]]
    ensures r.0.Some? ==> r.0.value == IllegalStateException
    decreases |ids|
  {
    if ids == [] then (None, live)
    else
      var (e, l1) := CloseOne(live, ids[0]);
      if e.Some? then (e, l1) else CloseAll(l1, ids[1..])
  }

  /** The allocation numbers from `a` up to `b`. */
  function Range(a: nat, b: nat): (r: seq<nat>)
    requires a <= b
    ensures |r| == b - a && forall k :: 0 <= k < |r| ==> r[k] == a + k
  {
    seq(b - a, k => a + k)
  }

  /** Closing distinct open segments succeeds and closes exactly those. */
  lemma {:induction false} CloseOpenSucceeds(live: seq<bool>, ids: seq<nat>)
    requires forall k :: 0 <= k < |ids| ==> ids[k] < |live| && live[ids[k]]
    requires forall k, m :: 0 <= k < m < |ids| ==> ids[k] != ids[m]
    ensures CloseAll(live, ids).0.None?
    ensures forall j :: 0 <= j < |live| ==> CloseAll(live, ids).1[j] == (live[j] && j !in ids)
    decreases |ids|
  {
    if ids != [] {
      var l1 := live[ids[0] := false];
      forall k | 0 <= k < |ids[1..]|
        ensures ids[1..][k] < |l1| && l1[ids[1..][k]]
      {
        assert ids[1..][k] == ids[k + 1] != ids[0];
      }
      CloseOpenSucceeds(l1, ids[1..]);
      forall j | 0 <= j < |live|
        ensures CloseAll(live, ids).1[j] == (live[j] && j !in ids)
      {
        assert j in ids <==> j == ids[0] || j in ids[1..];
      }
    }
  }

  /** Closing the same non-empty list a second time fails: its first segment is already closed. */
  lemma CloseTwiceFails(live: seq<bool>, ids: seq<nat>)
    requires forall k :: 0 <= k < |ids| ==> ids[k] < |live|
    requires ids != [] && CloseAll(live, ids).0.None?
    ensures CloseAll(CloseAll(live, ids).1, ids) == (Some(IllegalStateException), CloseAll(live, ids).1)
  {
  }

  /** The segments allocated so far, each open or closed. */
  class Arena {
    /** live[k]: whether the k-th segment allocated is still open */
    var live: seq<bool>

    constructor()
      ensures live == []
    {
      live := [];
    }

    /** MemorySegment.allocateNative: a new open segment, numbered after the others. */
    method Allocate() returns (id: nat)
      modifies this
      ensures id == old(|live|) && live == old(live) + [true]
    {
      id := |live|;
      live := live + [true];
    }

    /** MemorySegment.close() */
    method Close(id: nat) returns (err: Option<Exception>)
      requires id < |live|
      modifies this
      ensures (err, live) == CloseOne(old(live), id)
    {
      if !live[id] {
        return Some(IllegalStateException);
      }
      live := live[id := false];
      return None;
    }
  }

  /** closeBuffers(buffers): closes each buffer in turn; a failing close propagates. */
  method CloseBuffers(arena: Arena, buffers: seq<nat>) returns (err: Option<Exception>)
    requires forall k :: 0 <= k < |buffers| ==> buffers[k] < |arena.live|
    modifies arena
    ensures (err, arena.live) == CloseAll(old(arena.live), buffers)
  {
    for i := 0 to |buffers|
      invariant |arena.live| == old(|arena.live|)
      invariant CloseAll(old(arena.live), buffers) == CloseAll(arena.live, buffers[i..])
    {
      err := arena.Close(buffers[i]);
      if err.Some? {
        return;
      }
      assert buffers[i..][1..] == buffers[i + 1..];
    }
    return None;
  }
}
