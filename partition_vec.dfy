// A vector partitioned into disjoint sets: union-find over parent pointers,
// with a circular list of links through each set (prusti/partition_vec.rs).
//
// `VecWrapperMetadata::lookup` hands back a copy of the stored metadata, so in
// the source every `set_parent`, `set_link` and `set_rank` applied to a
// looked-up value changes a temporary; only `store` writes to the vector.
// The model keeps that: those calls act on local values and are dropped.

module PartitionVecs {

  /** Per-element bookkeeping (`Metadata`). */
  datatype Metadata = Metadata(parent: nat, link: nat, rank: nat) {
    /** `Metadata::new`: its own parent and link, rank 0. */
    static function New(index: nat): (m: Metadata)
      ensures m.parent == index && m.link == index && m.rank == 0
    {
      Metadata(index, index, 0)
    }

    /** `set_parent` (on a copy). */
    function SetParent(value: nat): (m: Metadata)
      ensures m.parent == value && m.link == link && m.rank == rank
    {
      this.(parent := value)
    }

    /** `set_link` (on a copy). */
    function SetLink(value: nat): (m: Metadata)
      ensures m.link == value && m.parent == parent && m.rank == rank
    {
      this.(link := value)
    }

    /** `set_rank` (on a copy). */
    function SetRank(value: nat): (m: Metadata)
      ensures m.rank == value && m.parent == parent && m.link == link
    {
      this.(rank := value)
    }
  }

  // ---------------------------------------------------------------------------
  // Parent forests and link lists, as values

  /** Every parent and every link is an index of the vector (the source's
      standing precondition). */
  predicate Bounded(meta: seq<Metadata>) {
    forall x :: 0 <= x < |meta| ==> meta[x].parent < |meta| && meta[x].link < |meta|
  }

  /** `height` witnesses that parent pointers lead to a root: every non-root
      sits strictly higher than its parent. */
  ghost predicate Acyclic(meta: seq<Metadata>, height: seq<nat>) {
    |height| == |meta|
    && forall x :: 0 <= x < |meta| && meta[x].parent != x ==>
         meta[x].parent < |meta| && height[meta[x].parent] < height[x]
  }

  /** Follow parent pointers `n` times from `x`. */
  function ParentPow(meta: seq<Metadata>, x: nat, n: nat): (r: nat)
    requires Bounded(meta) && x < |meta|
    ensures r < |meta|
    decreases n
  {
    if n == 0 then x else ParentPow(meta, meta[x].parent, n - 1)
  }

  /** The root of `x`'s tree: where following parents `height[x]` times ends. */
  ghost function RootOf(meta: seq<Metadata>, height: seq<nat>, x: nat): nat
    requires Bounded(meta) && Acyclic(meta, height) && x < |meta|
  {
    ParentPow(meta, x, height[x])
  }

  /** Follow links `n` times from `x`. */
  function LinkPow(meta: seq<Metadata>, x: nat, n: nat): (r: nat)
    requires Bounded(meta) && x < |meta|
    ensures r < |meta|
  {
    if n == 0 then x else meta[LinkPow(meta, x, n - 1)].link
  }

  lemma {:induction false} ParentPowAtRoot(meta: seq<Metadata>, x: nat, n: nat)
    requires Bounded(meta) && x < |meta| && meta[x].parent == x
    ensures ParentPow(meta, x, n) == x
  {
    if n > 0 {
      ParentPowAtRoot(meta, x, n - 1);
    }
  }

  /** Following parents for at least `height[x]` steps always ends at the
      same root. */
  lemma {:induction false} ParentPowReachesRoot(meta: seq<Metadata>, height: seq<nat>, x: nat, n: nat)
    requires Bounded(meta) && Acyclic(meta, height) && x < |meta| && n >= height[x]
    ensures ParentPow(meta, x, n) == RootOf(meta, height, x)
    ensures meta[RootOf(meta, height, x)].parent == RootOf(meta, height, x)
    decreases height[x]
  {
    var p := meta[x].parent;
    if p == x {
      ParentPowAtRoot(meta, x, n);
      ParentPowAtRoot(meta, x, height[x]);
    } else {
      ParentPowReachesRoot(meta, height, p, n - 1);
      ParentPowReachesRoot(meta, height, p, height[x] - 1);
    }
  }

  /** A non-root shares its parent's root. */
  lemma RootOfParent(meta: seq<Metadata>, height: seq<nat>, x: nat)
    requires Bounded(meta) && Acyclic(meta, height) && x < |meta|
    ensures RootOf(meta, height, x) == RootOf(meta, height, meta[x].parent)
    ensures meta[RootOf(meta, height, x)].parent == RootOf(meta, height, x)
  {
    var p := meta[x].parent;
    ParentPowReachesRoot(meta, height, x, height[x]);
    if p == x {
    } else {
      ParentPowReachesRoot(meta, height, p, height[x] - 1);
    }
  }

  /** An element linking to itself is alone on its link cycle. */
  lemma {:induction false} SelfLinkCycle(meta: seq<Metadata>, x: nat, n: nat)
    requires Bounded(meta) && x < |meta| && meta[x].link == x
    ensures LinkPow(meta, x, n) == x
  {
    if n > 0 {
      SelfLinkCycle(meta, x, n - 1);
    }
  }

  // ---------------------------------------------------------------------------
  // Union, as it would act if its updates were stored

  /** Splice the two link cycles together and hang the lower-ranked root
      under the other one (equal ranks: `i` under `j`, whose rank grows). */
  function UnionMeta(meta: seq<Metadata>, i: nat, j: nat): (r: seq<Metadata>)
    requires Bounded(meta) && i < |meta| && j < |meta| && i != j
    ensures |r| == |meta| && Bounded(r)
  {
    var linked := meta[i := meta[i].SetLink(meta[j].link)][j := meta[j].SetLink(meta[i].link)];
    if meta[i].rank < meta[j].rank then linked[i := linked[i].SetParent(j)]
    else if meta[i].rank == meta[j].rank then
      linked[i := linked[i].SetParent(j)][j := linked[j].SetRank(linked[j].rank + 1)]
    else linked[j := linked[j].SetParent(i)]
  }

  /** Heights for the forest after `child` is hung under `root`: the new root
      drops to 0, everything else rises by one. */
  ghost function HeightsAfterUnion(height: seq<nat>, root: nat): (r: seq<nat>)
    ensures |r| == |height|
  {
    seq(|height|, x requires 0 <= x < |height| => if x == root then 0 else height[x] + 1)
  }

  /** Hanging root `child` under root `root` sends exactly the elements of
      `child`'s tree to `root`; every other element keeps its root. */
  lemma {:induction false} ReparentRoot(
    meta: seq<Metadata>, height: seq<nat>, meta': seq<Metadata>, height': seq<nat>,
    child: nat, root: nat, x: nat)
    requires Bounded(meta) && Acyclic(meta, height)
    requires Bounded(meta') && Acyclic(meta', height') && |meta'| == |meta|
    requires child < |meta| && root < |meta| && child != root
    requires meta[child].parent == child && meta[root].parent == root
    requires meta'[child].parent == root
    requires forall y :: 0 <= y < |meta| && y != child ==> meta'[y].parent == meta[y].parent
    requires x < |meta|
    ensures RootOf(meta', height', x) ==
      if RootOf(meta, height, x) == child then root else RootOf(meta, height, x)
    decreases height[x]
  {
    RootOfParent(meta, height, x);
    RootOfParent(meta', height', x);
    var p := meta[x].parent;
    if x == child {
      ParentPowAtRoot(meta, child, height[child]);
      ParentPowAtRoot(meta', root, height'[root]);
    } else if p == x {
      ParentPowAtRoot(meta, x, height[x]);
      ParentPowAtRoot(meta', x, height'[x]);
    } else {
      ReparentRoot(meta, height, meta', height', child, root, p);
    }
  }

  /** The corrected union keeps the forest well formed and merges exactly the
      two sets: every element of `i`'s or `j`'s set gets the same new root,
      every other element keeps its own. */
  lemma UnionMerges(meta: seq<Metadata>, height: seq<nat>, i: nat, j: nat)
    requires Bounded(meta) && Acyclic(meta, height)
    requires i < |meta| && j < |meta| && i != j
    requires meta[i].parent == i && meta[j].parent == j
    ensures var root := if meta[i].rank < meta[j].rank || meta[i].rank == meta[j].rank then j else i;
      var meta' := UnionMeta(meta, i, j);
      var height' := HeightsAfterUnion(height, root);
      && Acyclic(meta', height')
      && forall x :: 0 <= x < |meta| ==>
           RootOf(meta', height', x) ==
             if RootOf(meta, height, x) == i || RootOf(meta, height, x) == j then root
             else RootOf(meta, height, x)
  {
    var root, child := j, i;
    if !(meta[i].rank < meta[j].rank || meta[i].rank == meta[j].rank) {
      root, child := i, j;
    }
    var meta' := UnionMeta(meta, i, j);
    var height' := HeightsAfterUnion(height, root);
    assert meta'[child].parent == root && meta'[root].parent == root;
    assert forall y :: 0 <= y < |meta| && y != child ==> meta'[y].parent == meta[y].parent;
    forall x | 0 <= x < |meta'| && meta'[x].parent != x
      ensures height'[meta'[x].parent] < height'[x]
    {
    }
    assert Acyclic(meta', height');
    forall x | 0 <= x < |meta|
      ensures RootOf(meta', height', x) ==
        if RootOf(meta, height, x) == i || RootOf(meta, height, x) == j then root
        else RootOf(meta, height, x)
    {
      ReparentRoot(meta, height, meta', height', child, root, x);
      RootOfParent(meta, height, x);
      if RootOf(meta, height, x) == root {
        ParentPowAtRoot(meta, root, height[root]);
        RootOfParent(meta', height', root);
      }
    }
  }

  // ---------------------------------------------------------------------------
  // The vectors

  /** `VecWrapperI32`: the element values. */
  class VecWrapperI32 {
    var v: seq<int>

    constructor ()
      ensures v == []
    {
      v := [];
    }

    function Len(): nat
      reads this
    {
      |v|
    }

    function Lookup(index: nat): int
      reads this
      requires index < Len()
    {
      v[index]
    }

    method Store(index: nat, value: int)
      requires index < Len()
      modifies this
      ensures v == old(v)[index := value]
    {
      v := v[index := value];
    }
  }

  /** `VecWrapperMetadata`: `lookup` returns a copy, `store` writes one slot. */
  class VecWrapperMetadata {
    var v: seq<Metadata>

    constructor ()
      ensures v == []
    {
      v := [];
    }

    function Len(): nat
      reads this
    {
      |v|
    }

    function Lookup(index: nat): Metadata
      reads this
      requires index < Len()
    {
      v[index]
    }

    /** Same length; `index` holds `value`, every other slot is unchanged. */
    method Store(index: nat, value: Metadata)
      requires index < Len()
      modifies this
      ensures Len() == old(Len())
      ensures Lookup(index) == value
      ensures forall i :: 0 <= i < Len() && i != index ==> Lookup(i) == old(Lookup(i))
      ensures v == old(v)[index := value]
    {
      v := v[index := value];
    }
  }

  // ---------------------------------------------------------------------------
  // PartitionVec

  class PartitionVec {
    var data: VecWrapperI32
    var meta: VecWrapperMetadata
    /** Acyclicity witness for the parent forest; the source proves no
        termination for `find`, and this is what it would rest on. */
    ghost var height: seq<nat>

    ghost predicate Valid()
      reads this, data, meta
    {
      data.Len() == meta.Len() && Bounded(meta.v) && Acyclic(meta.v, height)
    }

    /** `PartitionVec::new`: both vectors empty. */
    constructor ()
      ensures Valid()
      ensures data.Len() == 0 && meta.Len() == 0
    {
      data := new VecWrapperI32();
      meta := new VecWrapperMetadata();
      height := [];
    }

    /** `find`: the root of `index`'s tree. The source's path compression
        calls `set_parent` on a copy, so nothing is written. */
    function Find(index: nat): (r: nat)
      reads this, meta
      requires Bounded(meta.v) && Acyclic(meta.v, height) && index < meta.Len()
      ensures r < meta.Len() && meta.v[r].parent == r
      ensures r == RootOf(meta.v, height, index)
      decreases height[index]
    {
      RootOfParent(meta.v, height, index);
      if meta.Lookup(index).parent == index then
        ParentPowAtRoot(meta.v, index, height[index]);
        index
      else
        var root := Find(meta.Lookup(index).parent);
        var _ := meta.Lookup(index).SetParent(root);
        root
    }

    /** `find_final`: the same root, by a loop up the parent pointers. */
    method FindFinal(index: nat) returns (r: nat)
      requires Valid() && index < meta.Len()
      ensures r < meta.Len() && meta.v[r].parent == r
      ensures r == Find(index)
    {
      r := index;
      while r != meta.Lookup(r).parent
        invariant r < meta.Len()
        invariant Find(r) == Find(index)
        decreases height[r]
      {
        r := meta.Lookup(r).parent;
      }
    }

    /** `same_set`: the two elements share a root. */
    function SameSet(first_index: nat, second_index: nat): (r: bool)
      reads this, data, meta
      requires Valid() && first_index < meta.Len() && second_index < meta.Len()
      ensures r <==> RootOf(meta.v, height, first_index) == RootOf(meta.v, height, second_index)
    {
      Find(first_index) == Find(second_index)
    }

    /** `other_sets`: the negation of `same_set`. */
    function OtherSets(first_index: nat, second_index: nat): (r: bool)
      reads this, data, meta
      requires Valid() && first_index < meta.Len() && second_index < meta.Len()
      ensures r == !SameSet(first_index, second_index)
    {
      Find(first_index) != Find(second_index)
    }

    /** `is_singleton`: the link cycle through `index` is `index` alone. */
    function IsSingleton(index: nat): (r: bool)
      reads this, data, meta
      requires Valid() && index < meta.Len()
      ensures r <==> forall n :: LinkPow(meta.v, index, n) == index
    {
      if meta.Lookup(index).link == index then
        SelfLinkCycle(meta.v, index, 0);
        assert forall n :: LinkPow(meta.v, index, n) == index by {
          forall n {
            SelfLinkCycle(meta.v, index, n);
          }
        }
        true
      else
        assert LinkPow(meta.v, index, 1) != index;
        false
    }

    /** `len_of_set`: the length of the link cycle through `index`. The loop
        ends only if the links lead back to `index`; `k` is such a number of
        steps. */
    method LenOfSet(index: nat, ghost k: nat) returns (count: nat)
      requires Valid() && index < meta.Len()
      requires 1 <= k && LinkPow(meta.v, index, k) == index
      ensures 1 <= count <= k && LinkPow(meta.v, index, count) == index
      ensures forall c :: 1 <= c < count ==> LinkPow(meta.v, index, c) != index
      ensures count == 1 <==> IsSingleton(index)
    {
      var current := meta.Lookup(index).link;
      count := 1;
      while current != index
        invariant 1 <= count <= k
        invariant current == LinkPow(meta.v, index, count)
        invariant forall c :: 1 <= c < count ==> LinkPow(meta.v, index, c) != index
        decreases k - count
      {
        current := meta.Lookup(current).link;
        count := count + 1;
      }
    }

    /** `make_singleton`. The walk round the old link cycle only updates
        copies; what persists is the `store` of fresh metadata at `index`.
        The walk ends only if the links lead back to `index` (`k` steps). */
    method MakeSingleton(index: nat, ghost k: nat)
      requires Valid() && index < meta.Len()
      requires 1 <= k && LinkPow(meta.v, index, k) == index
      modifies meta
      ensures Valid()
      ensures meta.v == old(meta.v)[index := Metadata.New(index)]
      ensures IsSingleton(index) && Find(index) == index
    {
      var current := meta.Lookup(index).link;
      if current != index {
        var root := current;
        var root_meta := meta.Lookup(root).SetRank(1);
        var current_meta := meta.Lookup(current);
        ghost var t := 1;
        while current_meta.link != index
          invariant 1 <= t < k
          invariant current_meta == meta.v[LinkPow(meta.v, index, t)]
          decreases k - t
        {
          current_meta := current_meta.SetParent(root);
          current_meta := meta.Lookup(current_meta.link);
          t := t + 1;
        }
        current_meta := current_meta.SetParent(root);
        current_meta := current_meta.SetLink(root);
      }
      meta.Store(index, Metadata.New(index));
      assert meta.v == old(meta.v)[index := Metadata.New(index)];
      assert Find(index) == index by {
        RootOfParent(meta.v, height, index);
      }
    }

    /** `union` as written: both roots are found and the link and parent
        updates are computed, but on copies, so the vector keeps its state. */
    method Union(first_index: nat, second_index: nat)
      requires Valid() && first_index < meta.Len() && second_index < meta.Len()
      modifies meta
      ensures Valid()
      ensures meta.v == old(meta.v)
    {
      var i := Find(first_index);
      var j := Find(second_index);
      if i == j {
        return;
      }
      var link_i := meta.Lookup(i).link;
      var link_j := meta.Lookup(j).link;
      var meta_i := meta.Lookup(i).SetLink(link_j);
      var meta_j := meta.Lookup(j).SetLink(link_i);
      if meta.Lookup(i).rank < meta.Lookup(j).rank {
        meta_i := meta.Lookup(i).SetParent(j);
      } else if meta.Lookup(i).rank == meta.Lookup(j).rank {
        meta_i := meta.Lookup(i).SetParent(j);
        meta_j := meta.Lookup(j).SetRank(meta.Lookup(j).rank + 1);
      } else {
        meta_j := meta.Lookup(j).SetParent(i);
      }
    }

    /** The stores of the corrected `union`: splice the link cycles of the
        roots `i` and `j`, then hang one root under the other by rank. */
    method LinkAndHang(i: nat, j: nat)
      requires Bounded(meta.v) && i < meta.Len() && j < meta.Len() && i != j
      modifies meta
      ensures meta.v == UnionMeta(old(meta.v), i, j)
    {
      var link_i := meta.Lookup(i).link;
      var link_j := meta.Lookup(j).link;
      var rank_i := meta.Lookup(i).rank;
      var rank_j := meta.Lookup(j).rank;
      meta.Store(i, meta.Lookup(i).SetLink(link_j));
      meta.Store(j, meta.Lookup(j).SetLink(link_i));
      if rank_i < rank_j {
        meta.Store(i, meta.Lookup(i).SetParent(j));
      } else if rank_i == rank_j {
        meta.Store(i, meta.Lookup(i).SetParent(j));
        meta.Store(j, meta.Lookup(j).SetRank(meta.Lookup(j).rank + 1));
      } else {
        meta.Store(j, meta.Lookup(j).SetParent(i));
      }
    }

    /** `union` with every update stored back: the two sets become one. */
    method UnionStored(first_index: nat, second_index: nat)
      requires Valid() && first_index < meta.Len() && second_index < meta.Len()
      modifies this, meta
      ensures Valid() && data == old(data) && meta == old(meta)
      ensures old(Find(first_index)) == old(Find(second_index)) ==> meta.v == old(meta.v)
      ensures old(Find(first_index)) != old(Find(second_index)) ==>
        meta.v == UnionMeta(old(meta.v), old(Find(first_index)), old(Find(second_index)))
      ensures SameSet(first_index, second_index)
      ensures forall x :: 0 <= x < meta.Len() ==>
        Find(x) == if old(SameSet(x, first_index)) || old(SameSet(x, second_index)) then Find(first_index)
                   else old(Find(x))
    {
      var i := Find(first_index);
      var j := Find(second_index);
      if i == j {
        return;
      }
      ghost var meta0, height0 := meta.v, height;
      LinkAndHang(i, j);
      ghost var root := if meta0[i].rank <= meta0[j].rank then j else i;
      height := HeightsAfterUnion(height, root);
      UnionMerges(meta0, height0, i, j);
      assert Valid();
      forall x | 0 <= x < meta.Len()
        ensures Find(x) == if old(Find(x)) == i || old(Find(x)) == j then root else old(Find(x))
      {
      }
      assert Find(first_index) == root;
    }
  }

  /** The example from the source's documentation: three singletons, then
      `union(0, 2)`. As written the metadata is unchanged, so the link cycle
      through 0 still has length 1 and 0 and 2 stay apart; with the updates
      stored, the cycle through 0 has length 2. */
  lemma UnionExample()
    ensures var meta := [Metadata.New(0), Metadata.New(1), Metadata.New(2)];
      && LinkPow(meta, 0, 1) == 0
      && RootOf(meta, [0, 0, 0], 0) != RootOf(meta, [0, 0, 0], 2)
      && LinkPow(UnionMeta(meta, 0, 2), 0, 1) == 2
      && LinkPow(UnionMeta(meta, 0, 2), 0, 2) == 0
  {
    var meta := [Metadata.New(0), Metadata.New(1), Metadata.New(2)];
    assert Acyclic(meta, [0, 0, 0]);
    assert LinkPow(meta, 0, 1) == meta[LinkPow(meta, 0, 0)].link;
    var u := UnionMeta(meta, 0, 2);
    assert u[0].link == 2 && u[2].link == 0;
    assert LinkPow(u, 0, 1) == u[LinkPow(u, 0, 0)].link;
    assert LinkPow(u, 0, 2) == u[LinkPow(u, 0, 1)].link;
  }
}
