/**
 Union-find with path halving and a hard cap on component size (`_UnionFind` in bdc/emit.py).
 */
module UnionFind {

  /** The members of the component of root `r`. */
  ghost function Class(root: map<nat, nat>, r: nat): set<nat> {
    set x | x in root && root[x] == r
  }

  /** The partition after the components of `ra` and `rb` become one, rooted at `ra`. */
  ghost function Merged(root: map<nat, nat>, ra: nat, rb: nat): map<nat, nat> {
    map x | x in root :: if root[x] == rb then ra else root[x]
  }

  /** `x` is the root of its component, or its parent is in the same one and strictly nearer the root. */
  ghost predicate Hung(parent: map<nat, nat>, root: map<nat, nat>, steps: map<nat, nat>, x: nat)
    requires x in parent && parent.Keys == root.Keys == steps.Keys
  {
    && parent[x] in root && root[parent[x]] == root[x]
    && (if parent[x] == x then root[x] == x else steps[parent[x]] < steps[x])
  }

  ghost predicate Linked(parent: map<nat, nat>, root: map<nat, nat>, steps: map<nat, nat>) {
    && parent.Keys == root.Keys == steps.Keys
    && forall x {:trigger Hung(parent, root, steps, x)} | x in parent :: Hung(parent, root, steps, x)
  }

  /** `x`'s root is in the forest, and it is its own parent. */
  ghost predicate Based(parent: map<nat, nat>, root: map<nat, nat>, x: nat)
    requires x in root && parent.Keys == root.Keys
  {
    root[x] in root && parent[root[x]] == root[x] && root[root[x]] == root[x]
  }

  ghost predicate Rooted(parent: map<nat, nat>, root: map<nat, nat>) {
    && parent.Keys == root.Keys
    && forall x {:trigger Based(parent, root, x)} | x in root :: Based(parent, root, x)
  }

  ghost predicate Sized(size: map<nat, nat>, root: map<nat, nat>) {
    forall x | x in root :: root[x] in size && size[root[x]] == |Class(root, root[x])|
  }

  class Forest {
    var parent: map<nat, nat>
    var size: map<nat, nat>
    /** The root of each item's component, and a bound on the steps from the item to it. */
    ghost var root: map<nat, nat>
    ghost var steps: map<nat, nat>

    ghost predicate Valid()
      reads this
    {
      Linked(parent, root, steps) && Rooted(parent, root) && Sized(size, root)
    }

    constructor (items: set<nat>)
      ensures Valid() && root.Keys == items && forall x | x in items :: root[x] == x
    {
      parent := map i | i in items :: i;
      size := map i | i in items :: 1;
      root := map i | i in items :: i;
      steps := map i | i in items :: 0;
      new;
      forall x | x in items ensures |Class(root, x)| == 1 {
        assert Class(root, x) == {x};
      }
    }

    /** The root of `x`'s component; every other node on the way is re-hung two levels up. */
    method Find(x: nat) returns (r: nat)
      requires Valid() && x in root
      modifies this`parent
      ensures Valid() && r == root[x]
    {
      hide Sized, Linked, Rooted;
      ParentOf(parent, root, steps, x);
      r := x;
      while parent[r] != r
        invariant Valid() && r in parent && r in root && r in steps && root[r] == root[x]
        decreases steps[r]
      {
        ParentOf(parent, root, steps, r);
        ParentOf(parent, root, steps, parent[r]);
        HalveKeeps(parent, root, steps, r, parent[r], parent[parent[r]]);
        parent := parent[r := parent[parent[r]]];
        r := parent[r];
      }
      ParentOf(parent, root, steps, r);
    }

    /** Merge the components of `a` and `b` if together they hold at most `cap` items. */
    method UnionIf(a: nat, b: nat, cap: nat) returns (together: bool)
      requires Valid() && a in root && b in root
      modifies this
      ensures Valid() && a in root && b in root && together == (root[a] == root[b])
      ensures old(Joins(root, a, b, cap)) ==> root == old(Merged(root, root[a], root[b]))
      ensures !old(Joins(root, a, b, cap)) ==> root == old(root)
    {
      hide Linked, Rooted, Sized;
      var ra := Find(a);
      var rb := Find(b);
      RootsOf(parent, size, root, a, b);
      if ra == rb {
        return true;
      }
      if size[ra] + size[rb] > cap {
        return false;
      }
      var deeper: map<nat, nat> := map x | x in root ::
        if root[x] == rb then StepsOf(steps, x) + StepsOf(steps, ra) + 1 else StepsOf(steps, x);
      HangKeeps(parent, root, steps, ra, rb, deeper);
      HangBases(parent, root, ra, rb);
      SizeKeeps(size, root, ra, rb);
      parent := parent[rb := ra];
      size := size[ra := size[ra] + size[rb]];
      steps := deeper;
      root := Merged(root, ra, rb);
      return true;
    }
  }

  ghost function StepsOf(steps: map<nat, nat>, x: nat): nat {
    if x in steps then steps[x] else 0
  }

  /** `a` and `b` lie in different components that fit into one of `cap` items. */
  ghost predicate Joins(root: map<nat, nat>, a: nat, b: nat, cap: nat)
    requires a in root && b in root
  {
    root[a] != root[b] && |Class(root, root[a])| + |Class(root, root[b])| <= cap
  }

  lemma {:induction false} HalveKeeps(parent: map<nat, nat>, root: map<nat, nat>, steps: map<nat, nat>, r: nat, p: nat,
      q: nat)
    requires Linked(parent, root, steps) && Rooted(parent, root) && r in parent && parent[r] == p != r
    requires p in parent && parent[p] == q
    ensures q in steps && steps[q] < steps[r] && root[q] == root[r]
    ensures Linked(parent[r := q], root, steps)
    ensures Rooted(parent[r := q], root)
  {
    assert Hung(parent, root, steps, r) && Hung(parent, root, steps, p);
    assert parent[r := q].Keys == parent.Keys;
    forall x | x in parent ensures Hung(parent[r := q], root, steps, x) {
      assert Hung(parent, root, steps, x);
    }
    HalveBased(parent, root, r, q);
  }

  lemma {:induction false} HalveBased(parent: map<nat, nat>, root: map<nat, nat>, r: nat, q: nat)
    requires Rooted(parent, root) && r in parent && parent[r] != r
    ensures Rooted(parent[r := q], root)
  {
    assert parent[r := q].Keys == parent.Keys;
    forall x | x in root ensures Based(parent[r := q], root, x) {
      assert Based(parent, root, x);
    }
  }

  lemma {:induction false} ParentOf(parent: map<nat, nat>, root: map<nat, nat>, steps: map<nat, nat>, r: nat)
    requires Linked(parent, root, steps) && r in root
    ensures r in parent && r in steps && parent[r] in root && parent[r] in parent && parent[r] in steps
    ensures parent[r] == r ==> root[r] == r
  {
    assert Hung(parent, root, steps, r);
  }

  lemma {:induction false} RootsOf(parent: map<nat, nat>, size: map<nat, nat>, root: map<nat, nat>, a: nat, b: nat)
    requires Rooted(parent, root) && Sized(size, root) && a in root && b in root
    ensures root[a] in root && root[b] in root && root[root[a]] == root[a] && root[root[b]] == root[b]
    ensures root[a] in parent && root[b] in parent && parent[root[a]] == root[a] && parent[root[b]] == root[b]
    ensures root[a] in size && size[root[a]] == |Class(root, root[a])|
    ensures root[b] in size && size[root[b]] == |Class(root, root[b])|
  {
    assert Based(parent, root, a) && Based(parent, root, b);
  }

  lemma {:induction false} HangLinks(parent: map<nat, nat>, root: map<nat, nat>, steps: map<nat, nat>, ra: nat, rb: nat,
      deeper: map<nat, nat>, x: nat)
    requires parent.Keys == root.Keys == steps.Keys == deeper.Keys && x in parent
    requires Hung(parent, root, steps, x) && (parent[rb := ra]).Keys == Merged(root, ra, rb).Keys
    requires ra in root && rb in root && root[ra] == ra && root[rb] == rb && ra != rb
    requires parent[x] in root ==>
               deeper[parent[x]]
               == if root[parent[x]] == rb then steps[parent[x]] + StepsOf(steps, ra) + 1 else steps[parent[x]]
    requires deeper[x] == if root[x] == rb then steps[x] + StepsOf(steps, ra) + 1 else steps[x]
    requires deeper[ra] == steps[ra]
    ensures Hung(parent[rb := ra], Merged(root, ra, rb), deeper, x)
  {
  }

  lemma {:induction false} HangKeeps(parent: map<nat, nat>, root: map<nat, nat>, steps: map<nat, nat>, ra: nat, rb: nat,
      deeper: map<nat, nat>)
    requires Linked(parent, root, steps) && Rooted(parent, root)
    requires ra in root && rb in root && root[ra] == ra && root[rb] == rb && ra != rb
    requires deeper.Keys == root.Keys
    requires forall x | x in root ::
               deeper[x] == if root[x] == rb then StepsOf(steps, x) + StepsOf(steps, ra) + 1 else StepsOf(steps, x)
    ensures Linked(parent[rb := ra], Merged(root, ra, rb), deeper)
  {
    HangKeys(parent, root, ra, rb);
    hide Hung, Merged, Rooted;
    forall x | x in parent ensures Hung(parent[rb := ra], Merged(root, ra, rb), deeper, x) {
      assert Hung(parent, root, steps, x);
      HungInside(parent, root, steps, x);
      HangLinks(parent, root, steps, ra, rb, deeper, x);
    }
  }

  lemma {:induction false} HangKeys(parent: map<nat, nat>, root: map<nat, nat>, ra: nat, rb: nat)
    requires parent.Keys == root.Keys && ra in root && rb in root
    ensures parent[rb := ra].Keys == Merged(root, ra, rb).Keys == root.Keys
  {
  }

  lemma {:induction false} HungInside(parent: map<nat, nat>, root: map<nat, nat>, steps: map<nat, nat>, x: nat)
    requires x in parent && parent.Keys == root.Keys == steps.Keys && Hung(parent, root, steps, x)
    ensures parent[x] in root
  {
  }

  lemma {:induction false} HangBases(parent: map<nat, nat>, root: map<nat, nat>, ra: nat, rb: nat)
    requires Rooted(parent, root)
    requires ra in root && rb in root && root[ra] == ra && root[rb] == rb && ra != rb
    ensures Rooted(parent[rb := ra], Merged(root, ra, rb))
  {
    assert parent[rb := ra].Keys == Merged(root, ra, rb).Keys;
    assert Based(parent, root, ra);
    forall x | x in root ensures Based(parent[rb := ra], Merged(root, ra, rb), x) {
      assert Based(parent, root, x);
    }
  }

  /** Only the class of `ra` changes, and it gains exactly the class of `rb`. */
  lemma {:induction false} MergedClasses(root: map<nat, nat>, ra: nat, rb: nat)
    requires ra != rb
    ensures Class(Merged(root, ra, rb), ra) == Class(root, ra) + Class(root, rb)
    ensures Class(root, ra) !! Class(root, rb)
    ensures forall r | r != ra && r != rb :: Class(Merged(root, ra, rb), r) == Class(root, r)
  {
  }

  lemma {:induction false} SizeKeeps(size: map<nat, nat>, root: map<nat, nat>, ra: nat, rb: nat)
    requires Sized(size, root) && ra in root && rb in root && root[ra] == ra && root[rb] == rb && ra != rb
    ensures ra in size && rb in size
    ensures Sized(size[ra := size[ra] + size[rb]], Merged(root, ra, rb))
  {
    MergedClasses(root, ra, rb);
  }
}
