/**
 * The round-robin load balancer: an append-only list of resources and a policy counter that hands out
 * the next position and wraps to 0 when it reaches the current number of resources.
 */
module Probe {
  import opened Wrappers

  /** The counter after handing out `index` from a pool of `size`: one further on, wrapping to 0 at `size`. */
  function Advance(index: nat, size: nat): (r: nat)
    ensures index < size ==> r < size && r == (index + 1) % size
    ensures index + 1 != size ==> r == index + 1
  {
    if index + 1 == size then 0 else index + 1
  }

  /** The counter after k calls on a pool of `size`, starting from 0. */
  function Rotation(size: nat, k: nat): nat {
    if k == 0 then 0 else Advance(Rotation(size, k - 1), size)
  }

  /** A product of a positive factor and a positive n is at least n. */
  lemma MulAtLeast(a: int, n: int)
    requires a >= 1 && n > 0
    ensures a * n >= n
  {
  }

  /** The remainder is the only r in [0, n) with k == q * n + r. */
  lemma ModUnique(k: int, n: int, q: int, r: int)
    requires n > 0 && 0 <= r < n && k == q * n + r
    ensures k % n == r
  {
    var q', r' := k / n, k % n;
    assert (q - q') * n == r' - r;
    if q > q' {
      MulAtLeast(q - q', n);
    } else if q < q' {
      MulAtLeast(q' - q, n);
    }
  }

  /** The remainder of k + 1 is one more than that of k, wrapping to 0 at n. */
  lemma ModOfSucc(k: nat, n: nat)
    requires n > 0
    ensures (k + 1) % n == if k % n + 1 == n then 0 else k % n + 1
  {
    var q, r := k / n, k % n;
    if r + 1 == n {
      ModUnique(k + 1, n, q + 1, 0);
    } else {
      ModUnique(k + 1, n, q, r + 1);
    }
  }

  /** On a non-empty pool the counter after k calls is k modulo the pool size. */
  lemma {:induction false} RotationIsMod(size: nat, k: nat)
    requires size > 0
    ensures Rotation(size, k) == k % size
  {
    if k > 0 {
      var r := (k - 1) % size;
      RotationIsMod(size, k - 1);
      assert Rotation(size, k) == Advance(r, size);
      ModOfSucc(k - 1, size);
      assert Advance(r, size) == if r + 1 == size then 0 else r + 1;
    }
  }

  class RoundRobinPolicy {
    var index: nat

    constructor ()
      ensures index == 0
    {
      index := 0;
    }

    /** Hand out the current position and move on, wrapping to 0 when the counter reaches `size`. */
    method NextIndex(size: nat) returns (last: nat)
      modifies this
      ensures last == old(index)
      ensures index == Advance(old(index), size)
    {
      last := index;
      index := index + 1;
      if index == size {
        index := 0;
      }
    }
  }

  class LoadBalancer<T> {
    var data: seq<T>
    const policy: RoundRobinPolicy

    /** The position the policy hands out next is a valid one, or 0 while there are no resources. */
    ghost predicate Valid()
      reads this, policy
    {
      policy.index == 0 || policy.index < |data|
    }

    constructor ()
      ensures Valid() && fresh(policy)
      ensures data == [] && policy.index == 0
    {
      data := [];
      policy := new RoundRobinPolicy();
    }

    /** Append a resource; the policy is untouched. */
    method AddResource(item: T)
      requires Valid()
      modifies this
      ensures Valid()
      ensures data == old(data) + [item]
    {
      data := data + [item];
    }

    /** The resource at the policy's next position, or none (without moving the policy) when there are no resources. */
    method GetResource() returns (r: Option<T>)
      requires Valid()
      modifies policy
      ensures Valid()
      ensures data == [] ==> r == None && policy.index == old(policy.index)
      ensures data != [] ==> old(policy.index) < |data| && r == Some(data[old(policy.index)])
      ensures data != [] ==> policy.index == Advance(old(policy.index), |data|)
    {
      if |data| == 0 {
        return None;
      }
      var i := policy.NextIndex(|data|);
      return Some(data[i]);
    }
  }

  /** Call GetResource `count` times on a fresh rotation: the j-th call returns the resource at j modulo the pool size. */
  method GetMany<T>(balancer: LoadBalancer<T>, count: nat) returns (served: seq<Option<T>>)
    requires balancer.Valid() && balancer.data != [] && balancer.policy.index == 0
    modifies balancer.policy
    ensures |served| == count
    ensures forall j :: 0 <= j < count ==> served[j] == Some(balancer.data[j % |balancer.data|])
    ensures balancer.policy.index == count % |balancer.data|
  {
    served := [];
    var n := |balancer.data|;
    while |served| < count
      invariant balancer.Valid() && |served| <= count
      invariant balancer.policy.index == Rotation(n, |served|)
      invariant forall j :: 0 <= j < |served| ==> served[j] == Some(balancer.data[j % n])
    {
      RotationIsMod(n, |served|);
      var r := balancer.GetResource();
      served := served + [r];
    }
    RotationIsMod(n, count);
  }
}
