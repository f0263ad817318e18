/** Release fences: completed in any order by the GPU, retired strictly in the order they were sent. */
module SyncFences {
  import opened Basics

  /** A release of every frame up to `value`, effective once `fence` signals. No fence means already complete. */
  datatype Release = Release(value: nat, fence: Option<nat>)

  /** Fences only ever become signalled: `done` is the set of those that have. */
  predicate FenceReady(fence: Option<nat>, done: set<nat>) {
    fence.None? || fence.value in done
  }

  ghost predicate AllSignalled(queue: seq<Release>, done: set<nat>) {
    forall k :: 0 <= k < |queue| ==> FenceReady(queue[k].fence, done)
  }

  /** Length of the longest prefix of releases whose fences have all signalled. */
  function ReadyPrefix(q: seq<Release>, done: set<nat>): (k: nat)
    ensures k <= |q|
    ensures forall i :: 0 <= i < k ==> FenceReady(q[i].fence, done)
    ensures k < |q| ==> !FenceReady(q[k].fence, done)
  {
    if q == [] || !FenceReady(q[0].fence, done) then 0 else 1 + ReadyPrefix(q[1..], done)
  }

  /** Largest of `floor` and the released values. */
  function Raise(floor: nat, q: seq<Release>): (top: nat)
    ensures top >= floor
    ensures forall i :: 0 <= i < |q| ==> q[i].value <= top
    ensures top == floor || exists i :: 0 <= i < |q| && q[i].value == top
  {
    if q == [] then floor else
      var rest := Raise(floor, q[..|q| - 1]);
      if q[|q| - 1].value > rest then q[|q| - 1].value else rest
  }

  /** In a sequence of increasing releases above the floor the last one is the largest. */
  lemma RaiseIncreasing(floor: nat, q: seq<Release>)
    requires forall i, j :: 0 <= i < j < |q| ==> q[i].value < q[j].value
    requires q != [] ==> floor <= q[|q| - 1].value
    ensures Raise(floor, q) == if q == [] then floor else q[|q| - 1].value
  {
    if q != [] {
      var top := Raise(floor, q);
      assert q[|q| - 1].value <= top;
    }
  }

  lemma {:induction false} RaiseConcat(floor: nat, a: seq<Release>, b: seq<Release>)
    ensures Raise(Raise(floor, a), b) == Raise(floor, a + b)
  {
    if b == [] {
      assert a + b == a;
    } else {
      RaiseConcat(floor, a, b[..|b| - 1]);
      assert (a + b)[..|a + b| - 1] == a + b[..|b| - 1];
    }
  }

  /** The queue of releases kept by either end of a channel. */
  class SyncFds {
    var releases: seq<Release>

    constructor ()
      ensures releases == []
    {
      releases := [];
    }

    method Clear()
      modifies this
      ensures releases == []
    {
      releases := [];
    }

    method Push(r: Release)
      modifies this
      ensures releases == old(releases) + [r]
    {
      releases := releases + [r];
    }

    /** Pops while the front fence is ready, raising the consumed counter monotonically. */
    method Advance(consumed: nat, done: set<nat>) returns (raised: nat)
      modifies this
      ensures var k := ReadyPrefix(old(releases), done);
        releases == old(releases)[k..] && raised == Raise(consumed, old(releases)[..k])
    {
      raised := consumed;
      ghost var popped := 0;
      while releases != [] && FenceReady(releases[0].fence, done)
        invariant popped <= |old(releases)|
        invariant releases == old(releases)[popped..]
        invariant forall i :: 0 <= i < popped ==> FenceReady(old(releases)[i].fence, done)
        invariant raised == Raise(consumed, old(releases)[..popped])
        decreases |releases|
      {
        var r := releases[0];
        releases := releases[1..];
        if r.value > raised {
          raised := r.value;
        }
        assert old(releases)[..popped + 1][..popped] == old(releases)[..popped];
        popped := popped + 1;
      }
      PrefixUnique(old(releases), done, popped);
    }
  }

  lemma {:induction false} PrefixUnique(q: seq<Release>, done: set<nat>, k: nat)
    requires k <= |q|
    requires forall i :: 0 <= i < k ==> FenceReady(q[i].fence, done)
    requires k < |q| ==> !FenceReady(q[k].fence, done)
    ensures k == ReadyPrefix(q, done)
  {
    if k > 0 {
      assert FenceReady(q[0].fence, done);
      PrefixUnique(q[1..], done, k - 1);
    }
  }
}
