// Who has which segment: the free list and the segment lists of the commands in flight.
module Pool {
  import opened Segments

  ghost predicate EachOnce(m: multiset<nat>, n: nat) {
    |m| == n && forall s: nat :: m[s] == if s < n then 1 else 0
  }

  ghost function Owned(lists: seq<seq<nat>>): multiset<nat> {
    if lists == [] then multiset{}
    else Owned(lists[..|lists| - 1]) + multiset(lists[|lists| - 1])
  }

  function Sizes(lists: seq<seq<nat>>): nat {
    if lists == [] then 0 else Sizes(lists[..|lists| - 1]) + |lists[|lists| - 1]|
  }

  // How often a segment is free or owned.
  ghost function Holders(free: seq<nat>, lists: seq<seq<nat>>, s: nat): nat {
    (multiset(free) + Owned(lists))[s]
  }

  // Free and owned segments together are every segment once.
  ghost predicate Partition(free: seq<nat>, lists: seq<seq<nat>>) {
    && |free| + Sizes(lists) == POOL
    && forall s: nat {:trigger Holders(free, lists, s)} :: Holders(free, lists, s) == if s < POOL then 1 else 0
  }

  lemma PartitionIff(free: seq<nat>, lists: seq<seq<nat>>)
    ensures Partition(free, lists) <==> EachOnce(multiset(free) + Owned(lists), POOL)
  {
    OwnedSize(lists);
    var m := multiset(free) + Owned(lists);
    assert |m| == |free| + Sizes(lists);
    forall s: nat ensures Holders(free, lists, s) == m[s] {
    }
  }

  ghost function Copies(list: seq<nat>, s: nat): nat {
    multiset(list)[s]
  }

  // `freed` holds what `free` and `segs` do together, in any order.
  ghost predicate Returned(free: seq<nat>, segs: seq<nat>, freed: seq<nat>) {
    forall s: nat {:trigger Copies(freed, s)} :: Copies(freed, s) == Copies(free, s) + Copies(segs, s)
  }

  lemma ReturnedIff(free: seq<nat>, segs: seq<nat>, freed: seq<nat>)
    ensures Returned(free, segs, freed) <==> multiset(freed) == multiset(free) + multiset(segs)
  {
    if Returned(free, segs, freed) {
      forall s: nat ensures multiset(freed)[s] == (multiset(free) + multiset(segs))[s] {
        assert Copies(freed, s) == Copies(free, s) + Copies(segs, s);
      }
      assert multiset(freed) == multiset(free) + multiset(segs);
    }
  }

  lemma WholePoolFree(free: seq<nat>, n: nat)
    requires n == POOL && EachOnce(multiset(free), n)
    ensures Partition(free, [])
  {
    PartitionIff(free, []);
    assert multiset(free) + Owned([]) == multiset(free);
  }

  function Without<T>(s: seq<T>, i: nat): (r: seq<T>)
    requires i < |s|
    ensures |r| == |s| - 1
    ensures forall k :: 0 <= k < |r| ==> r[k] == if k < i then s[k] else s[k + 1]
  {
    seq(|s| - 1, k requires 0 <= k < |s| - 1 => if k < i then s[k] else s[k + 1])
  }

  lemma WithoutEarlier<T>(s: seq<T>, i: nat)
    requires i < |s| - 1
    ensures Without(s, i) == Without(s[..|s| - 1], i) + [s[|s| - 1]]
  {
  }

  lemma {:induction false} OwnedWithout(lists: seq<seq<nat>>, i: nat)
    requires i < |lists|
    ensures Owned(Without(lists, i)) + multiset(lists[i]) == Owned(lists)
    decreases |lists|
  {
    var n := |lists| - 1;
    if i == n {
      assert Without(lists, i) == lists[..n];
    } else {
      OwnedWithout(lists[..n], i);
      WithoutEarlier(lists, i);
      OwnedAppend(Without(lists[..n], i), lists[n]);
    }
  }

  lemma OwnedAppend(lists: seq<seq<nat>>, segs: seq<nat>)
    ensures Owned(lists + [segs]) == Owned(lists) + multiset(segs)
  {
    assert (lists + [segs])[..|lists|] == lists;
  }

  lemma CountSum(a: multiset<nat>, b: multiset<nat>, s: nat)
    ensures (a + b)[s] == a[s] + b[s]
  {
  }

  // Taking `n` segments off the free list for a new command.
  lemma PartitionTake(free: seq<nat>, lists: seq<seq<nat>>, n: nat)
    requires Partition(free, lists) && n <= |free|
    ensures Partition(free[n..], lists + [free[..n]])
  {
    PartitionIff(free, lists);
    PartitionIff(free[n..], lists + [free[..n]]);
    OwnedAppend(lists, free[..n]);
    assert free == free[..n] + free[n..];
    assert multiset(free[n..]) + Owned(lists + [free[..n]]) == multiset(free) + Owned(lists);
  }

  // Giving a command's segments back, in any order.
  lemma PartitionReturn(free: seq<nat>, lists: seq<seq<nat>>, i: nat, freed: seq<nat>)
    requires Partition(free, lists) && i < |lists|
    requires Returned(free, lists[i], freed)
    ensures Partition(freed, Without(lists, i))
  {
    PartitionIff(free, lists);
    PartitionIff(freed, Without(lists, i));
    ReturnedIff(free, lists[i], freed);
    OwnedWithout(lists, i);
    assert multiset(freed) + Owned(Without(lists, i)) == multiset(free) + Owned(lists);
  }

  lemma MultiplicityTwo(s: seq<nat>, i: nat, j: nat)
    requires i < j < |s| && s[i] == s[j]
    ensures multiset(s)[s[i]] >= 2
  {
    assert s == s[..j] + [s[j]] + s[j + 1..];
    assert s[i] in s[..j];
    assert multiset(s) == multiset(s[..j]) + multiset{s[j]} + multiset(s[j + 1..]);
  }

  lemma MemberCount(s: seq<nat>, x: nat)
    requires x in s
    ensures multiset(s)[x] >= 1
  {
  }

  lemma OwnedMember(lists: seq<seq<nat>>, i: nat, x: nat)
    requires i < |lists| && x in lists[i]
    ensures Owned(lists)[x] >= 1
  {
    OwnedWithout(lists, i);
    MemberCount(lists[i], x);
  }

  lemma FreeDistinct(free: seq<nat>, lists: seq<seq<nat>>)
    requires Partition(free, lists)
    ensures Distinct(free) && forall i :: 0 <= i < |free| ==> free[i] < POOL
  {
    PartitionIff(free, lists);
    forall i | 0 <= i < |free| ensures free[i] < POOL {
      MemberCount(free, free[i]);
      CountSum(multiset(free), Owned(lists), free[i]);
    }
    forall i, j | 0 <= i < j < |free| ensures free[i] != free[j] {
      CountSum(multiset(free), Owned(lists), free[i]);
      if free[i] == free[j] {
        MultiplicityTwo(free, i, j);
      }
    }
  }

  lemma OwnedDistinct(free: seq<nat>, lists: seq<seq<nat>>, i: nat)
    requires Partition(free, lists) && i < |lists|
    ensures Distinct(lists[i]) && forall k :: 0 <= k < |lists[i]| ==> lists[i][k] < POOL
  {
    PartitionIff(free, lists);
    OwnedWithout(lists, i);
    var rest := multiset(free) + Owned(Without(lists, i));
    assert multiset(lists[i]) + rest == multiset(free) + Owned(lists);
    forall k | 0 <= k < |lists[i]| ensures lists[i][k] < POOL {
      MemberCount(lists[i], lists[i][k]);
      CountSum(multiset(lists[i]), rest, lists[i][k]);
    }
    forall k, l | 0 <= k < l < |lists[i]| ensures lists[i][k] != lists[i][l] {
      CountSum(multiset(lists[i]), rest, lists[i][k]);
      if lists[i][k] == lists[i][l] {
        MultiplicityTwo(lists[i], k, l);
      }
    }
  }

  // No segment belongs to two commands, or to a command and the free list.
  lemma OwnedDisjoint(free: seq<nat>, lists: seq<seq<nat>>, i: nat, j: nat, x: nat)
    requires Partition(free, lists) && i < |lists| && j < |lists| && i != j && x in lists[i]
    ensures x !in lists[j] && x !in free
  {
    PartitionIff(free, lists);
    OwnedWithout(lists, i);
    var rest := Without(lists, i);
    MemberCount(lists[i], x);
    assert multiset(free) + Owned(lists) == (multiset(free) + Owned(rest)) + multiset(lists[i]);
    CountSum(multiset(free) + Owned(rest), multiset(lists[i]), x);
    CountSum(multiset(free), Owned(rest), x);
    if x in lists[j] {
      var k := if j < i then j else j - 1;
      assert rest[k] == lists[j];
      OwnedMember(rest, k, x);
    }
    if x in free { MemberCount(free, x); }
  }

  lemma FreeNotOwned(free: seq<nat>, lists: seq<seq<nat>>, i: nat, x: nat)
    requires Partition(free, lists) && i < |lists| && x in lists[i]
    ensures x !in free
  {
    PartitionIff(free, lists);
    OwnedMember(lists, i, x);
    CountSum(multiset(free), Owned(lists), x);
    if x in free { MemberCount(free, x); }
  }

  lemma {:induction false} OwnedSize(lists: seq<seq<nat>>)
    ensures |Owned(lists)| == Sizes(lists)
    decreases |lists|
  {
    if lists == [] {
    } else {
      OwnedSize(lists[..|lists| - 1]);
    }
  }
}
