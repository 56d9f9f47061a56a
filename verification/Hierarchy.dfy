/** Resolving each GitHub team to the root of its parent chain. */
module Hierarchy {
  import opened Common
  import opened Text

  datatype Group = Group(id: string, name: string, description: Option<string>)

  const PARENT_PREFIX := "parent:"

  /** The parent recorded in a group's description, if any. */
  function ParentSlug(g: Group): Option<string> {
    if g.description.Some? && StartsWith(g.description.value, PARENT_PREFIX) && |g.description.value| > |PARENT_PREFIX|
    then Some(g.description.value[|PARENT_PREFIX|..])
    else None
  }

  type SlugMap = map<string, Group>

  ghost predicate WellKeyed(m: SlugMap) {
    forall s :: s in m ==> m[s].id == s
  }

  /** Groups by slug; a repeated slug keeps the last group. */
  function BySlug(groups: seq<Group>): (m: SlugMap)
    ensures WellKeyed(m)
    ensures forall s :: s in m ==> m[s] in groups
    ensures forall g :: g in groups ==> g.id in m
  {
    if groups == [] then map[]
    else
      assert groups == groups[..|groups| - 1] + [groups[|groups| - 1]];
      BySlug(groups[..|groups| - 1])[groups[|groups| - 1].id := groups[|groups| - 1]]
  }

  ghost predicate DistinctIds(groups: seq<Group>) {
    forall i, j :: 0 <= i < j < |groups| ==> groups[i].id != groups[j].id
  }

  /** With distinct ids every group is found under its own slug. */
  lemma {:induction false} BySlugFindsAll(groups: seq<Group>, g: Group)
    requires DistinctIds(groups) && g in groups
    ensures g.id in BySlug(groups) && BySlug(groups)[g.id] == g
  {
    var front, last := groups[..|groups| - 1], groups[|groups| - 1];
    assert groups == front + [last];
    if g != last {
      BySlugFindsAll(front, g);
    }
  }

  /** The loop of `root_slug`, from group `g` having already followed the slugs in `seen`. */
  function Chase(m: SlugMap, g: Group, seen: set<string>): Group
    decreases m.Keys - seen
  {
    var p := ParentSlug(g);
    if p.None? || p.value in seen || p.value !in m then g
    else Chase(m, m[p.value], seen + {p.value})
  }

  function Root(m: SlugMap, g: Group): Group {
    Chase(m, g, {})
  }

  /** `root_slug`: terminates on every parent relation, cyclic or dangling. */
  method RootSlug(group: Group, m: SlugMap) returns (slug: string)
    ensures slug == Root(m, group).id
  {
    var current := group;
    var seen: set<string> := {};
    while ParentSlug(current).Some?
      invariant Chase(m, current, seen) == Root(m, group)
      decreases m.Keys - seen, if ParentSlug(current).Some? then 1 else 0
    {
      var p := ParentSlug(current).value;
      if p in seen {
        break;
      }
      if p !in m {
        break;
      }
      seen := seen + {p};
      current := m[p];
    }
    slug := current.id;
  }

  // ------------------------------------------------------------- the parent relation

  /** The parent of `g`, if it has one and the parent is present. */
  function Up(m: SlugMap, g: Group): Option<Group> {
    var p := ParentSlug(g);
    if p.Some? && p.value in m then Some(m[p.value]) else None
  }

  /** The ancestor `k` steps above `g`. */
  function Ancestor(m: SlugMap, g: Group, k: nat): Option<Group> {
    if k == 0 then Some(g)
    else
      var a := Ancestor(m, g, k - 1);
      if a.None? then None else Up(m, a.value)
  }

  lemma {:induction false} AncestorAdds(m: SlugMap, g: Group, i: nat, j: nat)
    requires Ancestor(m, g, i).Some?
    ensures Ancestor(m, g, i + j) == Ancestor(m, Ancestor(m, g, i).value, j)
    decreases j
  {
    if j > 0 {
      AncestorAdds(m, g, i, j - 1);
      assert i + j - 1 == i + (j - 1);
    }
  }

  lemma {:induction false} AncestorsArePrefix(m: SlugMap, g: Group, i: nat, k: nat)
    requires i <= k && Ancestor(m, g, k).Some?
    ensures Ancestor(m, g, i).Some?
    decreases k
  {
    if i < k {
      AncestorsArePrefix(m, g, i, k - 1);
    }
  }

  /** A group with no present parent. */
  predicate IsTop(m: SlugMap, g: Group) {
    Up(m, g).None?
  }

  ghost predicate OnCycle(m: SlugMap, g: Group) {
    exists k :: k >= 1 && Ancestor(m, g, k) == Some(g)
  }

  /** The first `k` proper ancestors of `g` exist and are pairwise distinct. */
  ghost predicate SimpleChain(m: SlugMap, g: Group, k: nat) {
    && (forall i :: 0 <= i <= k ==> Ancestor(m, g, i).Some?)
    && forall i, j :: 1 <= i < j <= k ==> Ancestor(m, g, i) != Ancestor(m, g, j)
  }

  /** The slugs followed on the way to the `k`-th ancestor. */
  ghost function Followed(m: SlugMap, g: Group, k: nat): set<string>
    requires forall i :: 0 <= i <= k ==> Ancestor(m, g, i).Some?
  {
    set i | 1 <= i <= k :: Ancestor(m, g, i).value.id
  }

  /** Along a chain without repetition the loop just moves up. */
  lemma {:induction false} ChaseFollowsChain(m: SlugMap, g: Group, k: nat)
    requires WellKeyed(m) && SimpleChain(m, g, k)
    ensures Root(m, g) == Chase(m, Ancestor(m, g, k).value, Followed(m, g, k))
    ensures Followed(m, g, k) <= m.Keys
  {
    if k == 0 {
      assert Followed(m, g, 0) == {};
    } else {
      ChaseFollowsChain(m, g, k - 1);
      var a, b := Ancestor(m, g, k - 1).value, Ancestor(m, g, k).value;
      assert Followed(m, g, k) == Followed(m, g, k - 1) + {b.id};
      forall i | 1 <= i <= k - 1 ensures Ancestor(m, g, i).value.id != b.id {
        TableAncestor(m, g, i);
        TableAncestor(m, g, k);
      }
    }
  }

  lemma {:induction false} TableAncestor(m: SlugMap, g: Group, k: nat)
    requires WellKeyed(m) && k >= 1 && Ancestor(m, g, k).Some?
    ensures var a := Ancestor(m, g, k).value; a.id in m && m[a.id] == a
  {
  }

  /** A parent not yet followed makes the chain one longer. */
  lemma {:induction false} ExtendChain(m: SlugMap, g: Group, k: nat)
    requires WellKeyed(m) && SimpleChain(m, g, k) && !IsTop(m, Ancestor(m, g, k).value)
    requires ParentSlug(Ancestor(m, g, k).value).value !in Followed(m, g, k)
    ensures SimpleChain(m, g, k + 1)
    ensures Followed(m, g, k + 1) == Followed(m, g, k) + {ParentSlug(Ancestor(m, g, k).value).value}
  {
    var p := ParentSlug(Ancestor(m, g, k).value).value;
    assert Ancestor(m, g, k + 1) == Some(m[p]);
    assert forall i :: 1 <= i <= k ==> Ancestor(m, g, i).value.id in Followed(m, g, k);
  }

  /**
   Where the loop stops: at the end of a chain without repetition, because there is no
   present parent or because the parent was already followed.
   */
  lemma {:induction false} RootEndsChain(m: SlugMap, g: Group, k: nat) returns (n: nat)
    requires WellKeyed(m) && SimpleChain(m, g, k)
    ensures n >= k && SimpleChain(m, g, n) && Ancestor(m, g, n) == Some(Root(m, g))
    ensures IsTop(m, Root(m, g)) || exists q :: 1 <= q <= n && Up(m, Root(m, g)) == Ancestor(m, g, q)
    decreases m.Keys - Followed(m, g, k)
  {
    ChaseFollowsChain(m, g, k);
    var a := Ancestor(m, g, k).value;
    n := k;
    if !IsTop(m, a) {
      var p := ParentSlug(a).value;
      if p in Followed(m, g, k) {
        var q :| 1 <= q <= k && Ancestor(m, g, q).value.id == p;
        TableAncestor(m, g, q);
      } else {
        ExtendChain(m, g, k);
        n := RootEndsChain(m, g, k + 1);
      }
    }
  }

  /**
   The root of any group is one of its ancestors (or itself), and it either has no present
   parent or lies on a cycle.
   */
  lemma {:induction false} RootIsTopOrOnCycle(m: SlugMap, g: Group)
    requires WellKeyed(m)
    ensures exists k :: k >= 0 && Ancestor(m, g, k) == Some(Root(m, g))
    ensures IsTop(m, Root(m, g)) || OnCycle(m, Root(m, g))
  {
    var n := RootEndsChain(m, g, 0);
    var r := Root(m, g);
    if !IsTop(m, r) {
      var q :| 1 <= q <= n && Up(m, r) == Ancestor(m, g, q);
      AncestorAdds(m, g, q, n - q);
      AncestorAdds(m, r, 1, n - q);
      assert Ancestor(m, r, 0) == Some(r);
      assert Ancestor(m, r, 1) == Up(m, r);
      assert Ancestor(m, r, 1 + (n - q)) == Some(r);
    }
  }

  /** If the chain above `g` ends, the root is its topmost present ancestor. */
  lemma {:induction false} RootIsTopmostAncestor(m: SlugMap, g: Group, k: nat)
    requires WellKeyed(m) && Ancestor(m, g, k).Some? && IsTop(m, Ancestor(m, g, k).value)
    ensures Root(m, g) == Ancestor(m, g, k).value
  {
    var n := RootEndsChain(m, g, 0);
    var r := Root(m, g);
    if n > k {
      AncestorsArePrefix(m, g, k + 1, n);
    } else if n < k {
      AncestorsArePrefix(m, g, n + 1, k);
      RootIsTopOrOnCycle(m, g);
      var j :| j >= 1 && Ancestor(m, r, j) == Some(r);
      CycleNeverEnds(m, r, j, k - n);
      AncestorAdds(m, g, n, k - n);
    }
  }

  /** From a group on a cycle every number of steps can be taken. */
  lemma {:induction false} CycleNeverEnds(m: SlugMap, g: Group, j: nat, k: nat)
    requires j >= 1 && Ancestor(m, g, j) == Some(g)
    ensures Ancestor(m, g, k).Some? && !IsTop(m, Ancestor(m, g, k).value)
    decreases k
  {
    if k < j {
      AncestorsArePrefix(m, g, k + 1, j);
    } else {
      CycleNeverEnds(m, g, j, k - j);
      AncestorAdds(m, g, j, k - j);
    }
  }

  /** A group on a cycle is its own root. */
  lemma {:induction false} CycleMemberIsItsOwnRoot(m: SlugMap, g: Group)
    requires WellKeyed(m) && OnCycle(m, g)
    ensures Root(m, g) == g
  {
    var j := ShortestCycle(m, g);
    ChaseFollowsChain(m, g, j);
    assert Ancestor(m, g, 1) == Up(m, Ancestor(m, g, 0).value);
    assert ParentSlug(g).value in Followed(m, g, j);
  }

  lemma {:induction false} ShortestCycle(m: SlugMap, g: Group) returns (j: nat)
    requires OnCycle(m, g)
    ensures j >= 1 && Ancestor(m, g, j) == Some(g) && SimpleChain(m, g, j)
  {
    j :| j >= 1 && Ancestor(m, g, j) == Some(g);
    j := ShortenCycle(m, g, j);
  }

  lemma {:induction false} ShortenCycle(m: SlugMap, g: Group, k: nat) returns (j: nat)
    requires k >= 1 && Ancestor(m, g, k) == Some(g)
    ensures j >= 1 && Ancestor(m, g, j) == Some(g) && SimpleChain(m, g, j)
    decreases k
  {
    if i :| 1 <= i < k && Ancestor(m, g, i) == Some(g) {
      j := ShortenCycle(m, g, i);
    } else {
      j := k;
      forall i | 0 <= i <= k ensures Ancestor(m, g, i).Some? {
        AncestorsArePrefix(m, g, i, k);
      }
      forall p, q | 1 <= p < q <= k ensures Ancestor(m, g, p) != Ancestor(m, g, q) {
        AncestorAdds(m, g, p, k - q);
        AncestorAdds(m, g, q, k - q);
      }
    }
  }

  /** The root of a root is itself, even when the parent relation is cyclic. */
  lemma {:induction false} RootIsIdempotent(m: SlugMap, g: Group)
    requires WellKeyed(m)
    ensures Root(m, Root(m, g)) == Root(m, g)
  {
    RootIsTopOrOnCycle(m, g);
    var r := Root(m, g);
    if IsTop(m, r) {
      assert Ancestor(m, r, 0) == Some(r);
      RootIsTopmostAncestor(m, r, 0);
    } else {
      CycleMemberIsItsOwnRoot(m, r);
    }
  }

  // ------------------------------------------------------------ a group and its parent

  /** The chain above a group is its parent followed by the chain above the parent. */
  lemma {:induction false} ChainThroughParent(m: SlugMap, g: Group, p: Group, k: nat)
    requires WellKeyed(m) && Up(m, g) == Some(p) && SimpleChain(m, p, k)
    requires forall i :: 1 <= i <= k ==> Ancestor(m, p, i) != Some(p)
    ensures SimpleChain(m, g, k + 1)
    ensures forall i :: 0 <= i <= k ==> Ancestor(m, g, i + 1) == Ancestor(m, p, i)
    ensures forall i :: 0 <= i <= k ==> Ancestor(m, p, i).value.id in Followed(m, g, k + 1)
  {
    assert Ancestor(m, g, 0) == Some(g) && Ancestor(m, g, 1) == Some(p) && Ancestor(m, p, 0) == Some(p);
    forall i | 0 <= i <= k ensures Ancestor(m, g, i + 1) == Ancestor(m, p, i) {
      AncestorAdds(m, g, 1, i);
    }
    forall i | 0 <= i <= k + 1 ensures Ancestor(m, g, i).Some? {
      assert i > 0 ==> Ancestor(m, g, (i - 1) + 1) == Ancestor(m, p, i - 1);
    }
    forall i, j | 1 <= i < j <= k + 1 ensures Ancestor(m, g, i) != Ancestor(m, g, j) {
      assert Ancestor(m, g, (i - 1) + 1) == Ancestor(m, p, i - 1) && Ancestor(m, g, (j - 1) + 1) == Ancestor(m, p, j - 1);
    }
    forall i | 0 <= i <= k ensures Ancestor(m, p, i).value.id in Followed(m, g, k + 1) {
      assert Ancestor(m, g, i + 1) == Ancestor(m, p, i);
    }
  }

  /** The loop stops at the end of a simple chain whose next group it has already followed. */
  lemma {:induction false} RootAtRevisit(m: SlugMap, g: Group, k: nat)
    requires WellKeyed(m) && SimpleChain(m, g, k)
    requires Up(m, Ancestor(m, g, k).value).Some? && Up(m, Ancestor(m, g, k).value).value.id in Followed(m, g, k)
    ensures Root(m, g) == Ancestor(m, g, k).value
  {
    ChaseFollowsChain(m, g, k);
  }

  lemma {:induction false} RootOffCycle(m: SlugMap, g: Group, p: Group)
    requires WellKeyed(m) && Up(m, g) == Some(p) && !OnCycle(m, p)
    ensures Root(m, g) == Root(m, p)
  {
    var n := RootEndsChain(m, p, 0);
    var r := Root(m, p);
    ChainThroughParent(m, g, p, n);
    assert Ancestor(m, g, n + 1) == Some(r);
    if IsTop(m, r) {
      RootIsTopmostAncestor(m, g, n + 1);
    } else {
      var q :| 1 <= q <= n && Up(m, r) == Ancestor(m, p, q);
      RootAtRevisit(m, g, n + 1);
    }
  }

  lemma {:induction false} RootOnCycle(m: SlugMap, g: Group, p: Group)
    requires WellKeyed(m) && Up(m, g) == Some(p) && OnCycle(m, p)
    ensures Root(m, p) == p && Up(m, Root(m, g)) == Some(p)
  {
    CycleMemberIsItsOwnRoot(m, p);
    var j := ShortestCycle(m, p);
    ChainThroughParent(m, g, p, j - 1);
    var a := Ancestor(m, p, j - 1).value;
    assert Ancestor(m, g, (j - 1) + 1) == Some(a) && Ancestor(m, p, j) == Up(m, a);
    assert Ancestor(m, p, 0).value.id in Followed(m, g, j);
    RootAtRevisit(m, g, j);
  }

  /**
   A group is resolved to the same root as its parent exactly unless the parent lies on a cycle of two or
   more groups; then the loop stops one step short, at the group whose parent that parent is.
   */
  lemma {:induction false} ParentSharesRootIff(m: SlugMap, g: Group)
    requires WellKeyed(m) && Up(m, g).Some?
    ensures var p := Up(m, g).value;
            && (Root(m, g) == Root(m, p) <==> !OnCycle(m, p) || Up(m, p) == Some(p))
            && (OnCycle(m, p) ==> Up(m, Root(m, g)) == Some(p))
  {
    var p := Up(m, g).value;
    if OnCycle(m, p) {
      RootOnCycle(m, g, p);
      if Up(m, p) == Some(p) {
        SelfParentEndsChain(m, g, p);
      }
    } else {
      RootOffCycle(m, g, p);
    }
  }

  lemma {:induction false} SelfParentEndsChain(m: SlugMap, g: Group, p: Group)
    requires WellKeyed(m) && Up(m, g) == Some(p) && Up(m, p) == Some(p)
    ensures Root(m, g) == p
  {
    assert Ancestor(m, g, 0) == Some(g) && Ancestor(m, g, 1) == Some(p);
    assert SimpleChain(m, g, 1);
    RootAtRevisit(m, g, 1);
  }

  /** `t` is the topmost present ancestor of `g`. */
  ghost predicate Topmost(m: SlugMap, g: Group, t: Group) {
    IsTop(m, t) && exists k :: k >= 0 && Ancestor(m, g, k) == Some(t)
  }

  /** No group is its own proper ancestor. */
  ghost predicate Acyclic(m: SlugMap) {
    forall s :: s in m ==> !OnCycle(m, m[s])
  }

  /** On acyclic input two groups have the same root exactly when they share their topmost ancestor. */
  lemma {:induction false} SameRootIffSameTop(m: SlugMap, g: Group, h: Group)
    requires WellKeyed(m) && Acyclic(m)
    requires g.id in m && m[g.id] == g && h.id in m && m[h.id] == h
    ensures Root(m, g) == Root(m, h) <==> exists t :: Topmost(m, g, t) && Topmost(m, h, t)
  {
    RootIsTopmost(m, g);
    RootIsTopmost(m, h);
    if t :| Topmost(m, g, t) && Topmost(m, h, t) {
      var i :| i >= 0 && Ancestor(m, g, i) == Some(t);
      var j :| j >= 0 && Ancestor(m, h, j) == Some(t);
      RootIsTopmostAncestor(m, g, i);
      RootIsTopmostAncestor(m, h, j);
    }
  }

  lemma {:induction false} RootIsTopmost(m: SlugMap, g: Group)
    requires WellKeyed(m) && Acyclic(m) && g.id in m && m[g.id] == g
    ensures Topmost(m, g, Root(m, g))
  {
    RootIsTopOrOnCycle(m, g);
    RootIsStored(m, g);
  }

  lemma {:induction false} RootIsStored(m: SlugMap, g: Group)
    requires WellKeyed(m) && g.id in m
    ensures Root(m, g) == g || (Root(m, g).id in m && m[Root(m, g).id] == Root(m, g))
    ensures Root(m, g).id in m
  {
    var n := RootEndsChain(m, g, 0);
    if n > 0 {
      TableAncestor(m, g, n);
    }
  }
}
