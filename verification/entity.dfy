/** The operations of `Entity` on arena values: the hierarchy edits
    `add_child`, `detach`, `remove_child` and `clear`, and the component map
    edits `add_component` and `remove_component_by_type_id`.  The scene
    propagation they trigger is that of `Propagation`. */
module EntityOps {
  import opened Handles
  import opened Collections
  import opened Hierarchy
  import opened Tables
  import opened Protocol
  import opened Propagation

  /** The children lists agree with the parent links, and every cached depth
      is 0 for a root and one more than the parent's depth otherwise. */
  ghost predicate Forest(a: Arena)
  {
    TreeShaped(a.children, a.parent) && DepthConsistent(a.parent, a.depth)
  }

  /** Only the hierarchy tables differ. */
  ghost predicate HierarchyOnly(a: Arena, b: Arena)
  {
    b == a.(depth := b.depth, parent := b.parent, children := b.children)
  }

  /** Scene membership and registration do not look at the hierarchy, and
      the subtree of `x` stays the same while no children list at or below
      the rank of `x` changes. */
  lemma HierarchyOnlySub(a: Arena, b: Arena, x: EntityRef)
    requires WellFormed(a) && WellFormed(b) && HierarchyOnly(a, b) && x < |a.children|
    requires forall y :: 0 <= y < |a.children| && a.rank[y] <= a.rank[x] ==> b.children[y] == a.children[y]
    ensures Desc(b.children, b.rank, x) == Desc(a.children, a.rank, x)
    ensures forall y :: Good(b, y) == Good(a, y)
  {
    DescFrame(a.children, b.children, a.rank, x);
  }

  /** Attaching `c` below `p` leaves `c` as ready for `Scene::add_entity` as it was. */
  lemma AttachReady(a: Arena, p: EntityRef, c: EntityRef, s: SceneRef)
    requires WellFormed(a) && p < |a.children| && c < |a.children| && a.rank[c] < a.rank[p]
    requires AddReady(a, s, c)
    ensures AddReady(Attach(a, p, c), s, c)
  {
    HierarchyOnlySub(a, Attach(a, p, c), c);
  }

  /** Detaching `x` leaves it as ready for `Scene::remove_entity` as it was. */
  lemma DetachReady(a: Arena, x: EntityRef, s: SceneRef)
    requires WellFormed(a) && x < |a.children| && RemoveReady(a, s, x)
    ensures RemoveReady(Detach(a, x), s, x)
  {
    var b := Detach(a, x);
    assert b.children == DetachedChildren(a.children, a.parent, x);
    DetachedLow(a.children, a.rank, a.parent, x);
    HierarchyOnlySub(a, b, x);
    forall y | y in Sub(b.children, b.rank, x) ensures Removable(b, s, y) {
      assert Removable(a, s, y);
    }
  }

  // ---------------------------------------------------------------------------
  // add_child

  /** The hierarchy part of `add_child(p, c)`: `c` records `p` as its parent
      and the depth one below it, the depths of its subtree are updated, and
      `c` is appended to the children of `p`. */
  ghost function Attach(a: Arena, p: EntityRef, c: EntityRef): (b: Arena)
    requires WellFormed(a) && p < |a.children| && c < |a.children| && a.rank[c] < a.rank[p]
    ensures WellFormed(b) && HierarchyOnly(a, b)
    ensures b.parent[c] == Some(p) && b.depth[c] == b.depth[p] + 1
    ensures b.children[p] == a.children[p] + [c]
    ensures forall y :: 0 <= y < |a.children| && y != p ==> b.children[y] == a.children[y]
    ensures forall y :: 0 <= y < |a.parent| && y != c ==> b.parent[y] == a.parent[y]
    ensures forall y :: 0 <= y < |a.depth| && y !in Sub(a.children, a.rank, c) ==> b.depth[y] == a.depth[y]
    ensures TreeShaped(a.children, a.parent) ==> forall y :: y in Desc(a.children, a.rank, c) ==>
      y < |b.parent| && b.parent[y].Some? && b.parent[y].value < |b.depth| &&
      b.depth[y] == b.depth[b.parent[y].value] + 1
    ensures Forest(a) && a.parent[c] == None ==> Forest(b)
  {
    var d := a.depth[c := a.depth[p] + 1];
    var b := a.(parent := a.parent[c := Some(p)], depth := UpdatedDepths(a.children, a.rank, d, c),
                children := a.children[p := a.children[p] + [c]]);
    AttachDepths(a, p, c, b);
    AttachForest(a, p, c, b);
    b
  }

  lemma AttachDepths(a: Arena, p: EntityRef, c: EntityRef, b: Arena)
    requires WellFormed(a) && p < |a.children| && c < |a.children| && a.rank[c] < a.rank[p]
    requires b == a.(parent := a.parent[c := Some(p)],
                     depth := UpdatedDepths(a.children, a.rank, a.depth[c := a.depth[p] + 1], c),
                     children := a.children[p := a.children[p] + [c]])
    ensures WellFormed(b) && b.depth[c] == b.depth[p] + 1
    ensures forall y :: 0 <= y < |a.depth| && y !in Sub(a.children, a.rank, c) ==> b.depth[y] == a.depth[y]
    ensures TreeShaped(a.children, a.parent) ==> forall y :: y in Desc(a.children, a.rank, c) ==>
      y < |b.parent| && b.parent[y].Some? && b.parent[y].value < |b.depth| &&
      b.depth[y] == b.depth[b.parent[y].value] + 1
  {
    var ch, rk, d := a.children, a.rank, a.depth[c := a.depth[p] + 1];
    AttachRanked(ch, rk, p, c);
    if c in Desc(ch, rk, c) {
      DescRank(ch, rk, c, c);
    }
    if p in Desc(ch, rk, c) {
      DescRank(ch, rk, c, p);
    }
    UpdatedDepthsFrame(ch, rk, d, c, c);
    UpdatedDepthsFrame(ch, rk, d, c, p);
    forall y | 0 <= y < |a.depth| && y !in Sub(ch, rk, c) ensures b.depth[y] == a.depth[y] {
      UpdatedDepthsFrame(ch, rk, d, c, y);
    }
    if TreeShaped(ch, a.parent) {
      UpdatedDepthsConsistent(ch, rk, a.parent, d, c);
      forall y | y in Desc(ch, rk, c) ensures b.parent[y] == a.parent[y] {
        DescRank(ch, rk, c, y);
      }
    }
  }

  lemma AttachForest(a: Arena, p: EntityRef, c: EntityRef, b: Arena)
    requires Ranked(a.children, a.rank) && |a.parent| == |a.children| && |a.depth| == |a.children|
    requires p < |a.children| && c < |a.children| && a.rank[c] < a.rank[p]
    requires b.parent == a.parent[c := Some(p)] && b.children == a.children[p := a.children[p] + [c]]
    requires b.depth == UpdatedDepths(a.children, a.rank, a.depth[c := a.depth[p] + 1], c)
    ensures Forest(a) && a.parent[c] == None ==> Forest(b)
  {
    if Forest(a) && a.parent[c] == None {
      AttachShaped(a.children, a.parent, p, c);
      DepthsAttached(a.children, a.rank, a.parent, a.depth, p, c);
    }
  }

  /** Attaching a root `c` below `p`, whose rank is higher, keeps the depths
      consistent. */
  lemma DepthsAttached(ch: Children, rk: Ranks, par: Parents, d: Depths, p: EntityRef, c: EntityRef)
    requires Ranked(ch, rk) && |par| == |ch| && |d| == |ch| && p < |ch| && c < |ch| && rk[c] < rk[p]
    requires TreeShaped(ch, par) && DepthConsistent(par, d) && par[c] == None
    ensures DepthConsistent(par[c := Some(p)], UpdatedDepths(ch, rk, d[c := d[p] + 1], c))
  {
    HigherNotBelow(ch, rk, c, p);
    ReattachDepths(ch, rk, par, d, c, Some(p), d[p] + 1);
  }

  /** `add_child(p, c)`: `c` is attached below `p` and, when `p` is in a
      scene, added to that scene.  `c` is not taken off the children of a
      parent it had before. */
  ghost function AddChild(a: Arena, p: EntityRef, c: EntityRef): (b: Arena)
    requires WellFormed(a) && p < |a.children| && c < |a.children| && p != c && a.rank[c] < a.rank[p]
    requires a.ents[p].scene.Some? ==> AddReady(a, a.ents[p].scene.value, c)
    ensures WellFormed(b) && |b.children| == |a.children| && |b.ents| == |a.ents|
    ensures b.parent[c] == Some(p) && b.depth[c] == b.depth[p] + 1 && b.children[p] == a.children[p] + [c]
    ensures b.children == Attach(a, p, c).children && b.parent == Attach(a, p, c).parent
    ensures b.depth == Attach(a, p, c).depth
    ensures Forest(a) && a.parent[c] == None ==> Forest(b)
    ensures a.ents[p].scene.None? ==> HierarchyOnly(a, b)
    ensures a.ents[p].scene.Some? ==> Added(Attach(a, p, c), b, a.ents[p].scene.value, c)
  {
    var a1 := Attach(a, p, c);
    match a.ents[p].scene
    case None => a1
    case Some(s) =>
      AttachReady(a, p, c, s);
      AddEntity(a1, s, c)
  }

  /** When scene membership was inherited down the tree in the scene of `p`,
      it still is after `add_child(p, c)`, and the whole subtree of `c` is in
      that scene. */
  lemma AddChildClosed(a: Arena, p: EntityRef, c: EntityRef, s: SceneRef)
    requires WellFormed(a) && p < |a.children| && c < |a.children| && p != c && a.rank[c] < a.rank[p]
    requires a.ents[p].scene == Some(s) && AddReady(a, s, c) && ClosedScene(a, s)
    ensures var b := AddChild(a, p, c);
      ClosedScene(b, s) && forall y :: y in Sub(b.children, b.rank, c) ==> y < |b.ents| && b.ents[y].scene == Some(s)
  {
    AddChildClosedOf(a, Attach(a, p, c), AddChild(a, p, c), p, c, s);
  }

  lemma AddChildClosedOf(a: Arena, a1: Arena, b: Arena, p: EntityRef, c: EntityRef, s: SceneRef)
    requires WellFormed(a) && p < |a.children| && c < |a.children| && p != c
    requires a.ents[p].scene == Some(s) && ClosedScene(a, s)
    requires HierarchyOnly(a, a1) && |a1.children| == |a.children| && a1.children[p] == a.children[p] + [c]
    requires forall y :: 0 <= y < |a.children| && y != p ==> a1.children[y] == a.children[y]
    requires Added(a1, b, s, c)
    ensures ClosedScene(b, s) && forall y :: y in Sub(b.children, b.rank, c) ==> y < |b.ents| && b.ents[y].scene == Some(s)
  {
    forall y | 0 <= y < |b.ents| && y < |b.children| ensures ClosedAt(b, s, y) {
      if a1.ents[y].scene == Some(s) && y != p {
        assert ClosedAt(a, s, y);
      } else if y == p {
        assert ClosedAt(a, s, p);
        forall i | 0 <= i < |b.children[p]|
          ensures b.children[p][i] < |b.ents| && b.ents[b.children[p][i]].scene == Some(s)
        {
          if i < |a.children[p]| {
            assert b.children[p][i] == a.children[p][i];
          }
        }
      }
    }
    var m := set y | 0 <= y < |b.ents| && b.ents[y].scene == Some(s);
    forall y, i | y < |b.children| && y in m && 0 <= i < |b.children[y]| ensures b.children[y][i] in m {
      assert ClosedAt(b, s, y);
    }
    ClosedContainsDesc(b.children, b.rank, m, c);
  }

  // ---------------------------------------------------------------------------
  // detach and remove_child

  /** `detach(x)`: `x` leaves the children of its parent (the first
      occurrence, if there is one), records no parent and depth 0, and the
      depths of its subtree are updated. */
  ghost function Detach(a: Arena, x: EntityRef): (b: Arena)
    requires WellFormed(a) && x < |a.children|
    ensures WellFormed(b) && HierarchyOnly(a, b)
    ensures b.parent[x] == None && b.depth[x] == 0
    ensures forall y :: 0 <= y < |a.parent| && y != x ==> b.parent[y] == a.parent[y]
    ensures forall y :: 0 <= y < |a.children| && a.parent[x] != Some(y) ==> b.children[y] == a.children[y]
    ensures a.parent[x].Some? ==>
      multiset(b.children[a.parent[x].value]) == multiset(a.children[a.parent[x].value]) - multiset{x}
    ensures forall y :: 0 <= y < |a.depth| && y !in Sub(b.children, b.rank, x) ==> b.depth[y] == a.depth[y]
    ensures Forest(a) ==> Forest(b) && forall y :: 0 <= y < |b.children| ==> x !in b.children[y]
  {
    var ch := DetachedChildren(a.children, a.parent, x);
    var b := a.(children := ch, parent := a.parent[x := None],
                depth := UpdatedDepths(ch, a.rank, a.depth[x := 0], x));
    DetachDepths(a, x, b);
    DetachForest(a, x, b);
    b
  }

  lemma DetachDepths(a: Arena, x: EntityRef, b: Arena)
    requires WellFormed(a) && x < |a.children|
    requires Ranked(DetachedChildren(a.children, a.parent, x), a.rank)
    requires b == a.(children := DetachedChildren(a.children, a.parent, x), parent := a.parent[x := None],
                     depth := UpdatedDepths(DetachedChildren(a.children, a.parent, x), a.rank, a.depth[x := 0], x))
    ensures WellFormed(b) && b.depth[x] == 0
    ensures a.parent[x].Some? ==>
      multiset(b.children[a.parent[x].value]) == multiset(a.children[a.parent[x].value]) - multiset{x}
    ensures forall y :: 0 <= y < |a.depth| && y !in Sub(b.children, b.rank, x) ==> b.depth[y] == a.depth[y]
  {
    var ch, rk, d := b.children, a.rank, a.depth[x := 0];
    if a.parent[x].Some? {
      RemoveFirstSpec(a.children[a.parent[x].value], x);
    }
    if x in Desc(ch, rk, x) {
      DescRank(ch, rk, x, x);
    }
    UpdatedDepthsFrame(ch, rk, d, x, x);
    forall y | 0 <= y < |a.depth| && y !in Sub(ch, rk, x) ensures b.depth[y] == a.depth[y] {
      UpdatedDepthsFrame(ch, rk, d, x, y);
    }
  }

  lemma DetachForest(a: Arena, x: EntityRef, b: Arena)
    requires WellFormed(a) && x < |a.children|
    requires Ranked(DetachedChildren(a.children, a.parent, x), a.rank)
    requires b == a.(children := DetachedChildren(a.children, a.parent, x), parent := a.parent[x := None],
                     depth := UpdatedDepths(DetachedChildren(a.children, a.parent, x), a.rank, a.depth[x := 0], x))
    ensures Forest(a) ==> Forest(b) && forall y :: 0 <= y < |b.children| ==> x !in b.children[y]
  {
    if Forest(a) {
      DetachShaped(a.children, a.parent, x);
      ReattachDepths(b.children, a.rank, b.parent, a.depth, x, None, 0);
      forall y, i | 0 <= y < |b.children| && 0 <= i < |b.children[y]| ensures b.children[y][i] != x {
      }
    }
  }

  /** `remove_child(p, x)`: `x` is detached from its parent and, when `p` is
      in a scene, removed from that scene.  (The parent `x` leaves is its own,
      which need not be `p`.) */
  ghost function RemoveChild(a: Arena, p: EntityRef, x: EntityRef): (b: Arena)
    requires WellFormed(a) && p < |a.children| && x < |a.children| && p != x
    requires a.ents[p].scene.Some? ==> RemoveReady(a, a.ents[p].scene.value, x)
    ensures WellFormed(b) && |b.children| == |a.children| && |b.ents| == |a.ents|
    ensures b.parent[x] == None && b.depth[x] == 0
    ensures b.children == Detach(a, x).children && b.parent == Detach(a, x).parent
    ensures b.depth == Detach(a, x).depth
    ensures Forest(a) ==> Forest(b)
    ensures a.ents[p].scene.None? ==> HierarchyOnly(a, b)
    ensures a.ents[p].scene.Some? ==> Removed(Detach(a, x), b, a.ents[p].scene.value, x)
  {
    var a1 := Detach(a, x);
    match a.ents[p].scene
    case None => a1
    case Some(s) =>
      DetachReady(a, x, s);
      RemoveEntity(a1, s, x)
  }

  /** When scene membership was inherited down the tree in the scene of `p`
      and `x` is in it, `remove_child(p, x)` leaves every entity of the
      subtree of `x` with no scene. */
  lemma RemoveChildOpen(a: Arena, p: EntityRef, x: EntityRef, s: SceneRef)
    requires WellFormed(a) && p < |a.children| && x < |a.children| && p != x
    requires a.ents[p].scene == Some(s) && RemoveReady(a, s, x) && ClosedScene(a, s) && a.ents[x].scene == Some(s)
    ensures var b := RemoveChild(a, p, x);
      forall y :: y in Sub(b.children, b.rank, x) ==> y < |b.ents| && b.ents[y].scene == None
  {
    var a1 := Detach(a, x);
    DetachReady(a, x, s);
    forall y | 0 <= y < |a1.ents| && y < |a1.children| ensures ClosedAt(a1, s, y) {
      DetachedClosed(a, a1, s, x, y);
    }
    var m := set y | 0 <= y < |a1.ents| && a1.ents[y].scene == Some(s);
    forall y, i | y < |a1.children| && y in m && 0 <= i < |a1.children[y]| ensures a1.children[y][i] in m {
      assert ClosedAt(a1, s, y);
    }
    ClosedContainsDesc(a1.children, a1.rank, m, x);
    assert x in Sub(a1.children, a1.rank, x) && Removable(a1, s, x);
    assert Good(a1, x) && Listed(a1.ents, a1.scenes, x);
    RemoveEntityOpen(a1, s, x);
  }

  lemma DetachedClosed(a: Arena, a1: Arena, s: SceneRef, x: EntityRef, y: EntityRef)
    requires WellFormed(a) && x < |a.children| && a1 == Detach(a, x) && ClosedScene(a, s)
    requires 0 <= y < |a1.ents| && y < |a1.children|
    ensures ClosedAt(a1, s, y)
  {
    assert ClosedAt(a, s, y);
    if a.parent[x] == Some(y) {
      forall k | k in a1.children[y] ensures k in a.children[y] {
        RemoveFirstSubset(a.children[y], x, k);
      }
    }
  }

  // ---------------------------------------------------------------------------
  // clear

  /** `Entity::clear`: `x` gets depth 0 and no scene, parent, children or
      components.  Nothing else changes: its components keep their entity
      back-reference and their registrations, its old parent still lists it,
      its old children still record it as their parent. */
  ghost function ClearEntity(a: Arena, x: EntityRef): (b: Arena)
    requires WellFormed(a) && x < |a.children|
    ensures WellFormed(b) && |b.children| == |a.children| && |b.owner| == |a.owner|
    ensures b.depth[x] == 0 && b.parent[x] == None && b.children[x] == []
    ensures b.ents[x].scene == None && b.ents[x].components == map[]
    ensures forall c :: 0 <= c < |a.owner| && a.owner[c] == Some(x) ==> b.owner[c] == None
    ensures forall c :: 0 <= c < |a.owner| && a.owner[c] != Some(x) ==> b.owner[c] == a.owner[c]
    ensures b == a.(depth := b.depth, parent := b.parent, children := b.children, ents := b.ents, owner := b.owner)
    ensures |b.children| == |a.children|
    ensures forall y :: 0 <= y < |a.children| && y != x ==>
      b.ents[y] == a.ents[y] && b.children[y] == a.children[y] && b.parent[y] == a.parent[y] && b.depth[y] == a.depth[y]
  {
    var owner' := seq(|a.owner|, c requires 0 <= c < |a.owner| => if a.owner[c] == Some(x) then None else a.owner[c]);
    var b := a.(depth := a.depth[x := 0], parent := a.parent[x := None], children := a.children[x := []],
                ents := a.ents[x := EntityData(None, map[])], owner := owner');
    ClearTables(a, x, b);
    b
  }

  lemma ClearTables(a: Arena, x: EntityRef, b: Arena)
    requires WellFormed(a) && x < |a.children|
    requires b == a.(depth := a.depth[x := 0], parent := a.parent[x := None], children := a.children[x := []],
                     ents := a.ents[x := EntityData(None, map[])],
                     owner := seq(|a.owner|, c requires 0 <= c < |a.owner| => if a.owner[c] == Some(x) then None else a.owner[c]))
    ensures WellFormed(b)
  {
    forall y, t | 0 <= y < |b.ents| && t in b.ents[y].components
      ensures b.owner[b.ents[y].components[t]] == Some(y)
    {
      assert a.owner[a.ents[y].components[t]] == Some(y);
    }
    forall y, i | 0 <= y < |b.children| && 0 <= i < |b.children[y]|
      ensures b.children[y][i] < |b.children| && b.rank[b.children[y][i]] < b.rank[y]
    {
      assert b.children[y][i] == a.children[y][i];
    }
    assert ListsAgree(b.ents, b.scenes);
  }

  /** `Entity::clear` keeps the forest of a root without children, and breaks
      it for an entity with a child: the child still records it as parent. */
  lemma ClearForest(a: Arena, x: EntityRef)
    requires WellFormed(a) && x < |a.children| && Forest(a)
    ensures a.parent[x] == None && a.children[x] == [] ==> Forest(ClearEntity(a, x))
    ensures a.children[x] != [] ==> !TreeShaped(ClearEntity(a, x).children, ClearEntity(a, x).parent)
  {
    var b := ClearEntity(a, x);
    if a.parent[x] == None && a.children[x] == [] {
      assert b.children == a.children && b.parent == a.parent;
    }
    if a.children[x] != [] {
      var y := a.children[x][0];
      assert a.parent[y] == Some(x);
      assert y != x by {
        assert a.rank[y] < a.rank[x];
      }
      assert b.parent[y] == Some(x) && y !in b.children[x];
    }
  }

  /** `Entity::clear` on an entity its scene `s` lists leaves it listed with
      no scene, so no longer consistent; `Scene::remove_entity(s, x)` still
      takes it off the list and makes it consistent again. */
  lemma ClearThenRemove(a: Arena, s: SceneRef, x: EntityRef)
    requires WellFormed(a) && x < |a.children| && Good(a, x) && a.ents[x].scene == Some(s)
    ensures var b := ClearEntity(a, x);
      x in b.scenes[s].entities && !Good(b, x) && RemoveReady(b, s, x)
    ensures var c := RemoveEntity(ClearEntity(a, x), s, x);
      Good(c, x) && c.ents[x].scene == None && forall u :: 0 <= u < |c.scenes| ==> x !in c.scenes[u].entities
  {
    var b := ClearEntity(a, x);
    OnlyListedIn(a, s, x);
    assert Desc(b.children, b.rank, x) == {};
    assert ClearedIn(b, s, x);
    var c := RemoveEntity(b, s, x);
    assert Listed(c.ents, c.scenes, x);
  }

  // ---------------------------------------------------------------------------
  // Components

  /** The component back-reference of `c` becomes `v`: nothing else looks at it. */
  ghost function WithEntity(a: Arena, c: CompRef, v: Option<EntityRef>): (b: Arena)
    requires WellFormed(a) && c < |a.comps|
    ensures WellFormed(b) && Kept(a, b) && SameKinds(a.comps, b.comps)
    ensures forall s, d :: Registered(a.scenes, a.comps, a.mgrs, s, d) <==> Registered(b.scenes, b.comps, b.mgrs, s, d)
  {
    var b := a.(comps := a.comps[c := a.comps[c].(entity := v)]);
    SameKindsTables(a.ents, a.scenes, a.comps, b.comps, a.mgrs, a.owner);
    assert forall y :: Good(b, y) == Good(a, y);
    b
  }

  /** Promise of `add_component(x, c)`: the first component of a type wins;
      otherwise `c` is filed under its type, owned by `x`, records `x` as its
      entity and is registered with the scene of `x`.  Only the map of `x`,
      the owner and back-reference of `c`, the managers and the trace
      change, and no entity loses its standing. */
  ghost predicate ComponentAdded(a: Arena, b: Arena, x: EntityRef, c: CompRef)
  {
    x < |a.ents| && c < |a.comps| && c < |a.owner| &&
    |b.ents| == |a.ents| && |b.comps| == |a.comps| && |b.owner| == |a.owner| && Kept(a, b) &&
    (a.comps[c].kind in a.ents[x].components ==> b == a) &&
    (a.comps[c].kind !in a.ents[x].components ==>
      b.ents[x].components == a.ents[x].components[a.comps[c].kind := c] &&
      b.owner[c] == Some(x) && b.comps[c].entity == Some(x) &&
      (a.ents[x].scene.Some? ==> Registered(b.scenes, b.comps, b.mgrs, a.ents[x].scene.value, c))) &&
    b.ents[x].scene == a.ents[x].scene &&
    (forall y :: 0 <= y < |a.ents| && y != x ==> b.ents[y] == a.ents[y]) &&
    (forall d :: 0 <= d < |a.owner| && d != c ==> b.owner[d] == a.owner[d]) &&
    b.depth == a.depth && b.parent == a.parent && b.children == a.children && b.rank == a.rank &&
    a.trace <= b.trace
  }

  /** `add_component(x, c)`: when `x` already has a component of the type of
      `c` nothing happens; otherwise `c` records `x` as its entity, joins the
      managers of the scene of `x` if `x` has one, and is filed under its
      type.  (`c` is a new component: the source takes it by value.) */
  ghost function AddComponent(a: Arena, x: EntityRef, c: CompRef): (b: Arena)
    requires WellFormed(a) && x < |a.ents| && c < |a.comps| && a.owner[c] == None
    ensures WellFormed(b) && ComponentAdded(a, b, x, c)
    ensures b.plugins == a.plugins
    ensures forall d :: 0 <= d < |a.comps| && d != c ==> b.comps[d] == a.comps[d]
    ensures a.ents[x].scene.None? ==> b.scenes == a.scenes && b.mgrs == a.mgrs
    ensures a.comps[c].kind !in a.ents[x].components && a.ents[x].scene.Some? ==>
      MembersJoin(a, b, a.ents[x].scene.value, {c})
  {
    var t := a.comps[c].kind;
    if t in a.ents[x].components then
      assert ComponentAdded(a, a, x, c);
      a
    else
      var a1 := WithEntity(a, c, Some(x));
      var a2 := if a.ents[x].scene.None? then a1 else Register(a1, a.ents[x].scene.value, c);
      var b := a2.(ents := a2.ents[x := a2.ents[x].(components := a2.ents[x].components[t := c])],
                   owner := a2.owner[c := Some(x)]);
      InsertComponentTables(a2.ents, a2.comps, a2.owner, x, c);
      InsertKept(a, a1, a2, b, x, c);
      InsertManagers(a, a1, a2, b, x, c);
      b
  }

  /** The managers side of `add_component`: only a registration with the
      scene of `x` touches the managers and the scenes. */
  lemma InsertManagers(a: Arena, a1: Arena, a2: Arena, b: Arena, x: EntityRef, c: CompRef)
    requires WellFormed(a1) && x < |a.ents| && c < |a.comps|
    requires a.ents[x].scene.Some? ==> a.ents[x].scene.value < |a1.scenes|
    requires a1 == a.(comps := a.comps[c := a.comps[c].(entity := Some(x))])
    requires a2 == if a.ents[x].scene.None? then a1 else Register(a1, a.ents[x].scene.value, c)
    requires b == a2.(ents := b.ents, owner := b.owner)
    ensures b.plugins == a.plugins
    ensures forall d :: 0 <= d < |a.comps| && d != c ==> b.comps[d] == a.comps[d]
    ensures a.ents[x].scene.None? ==> b.scenes == a.scenes && b.mgrs == a.mgrs
    ensures a.ents[x].scene.Some? ==> MembersJoin(a, b, a.ents[x].scene.value, {c})
  {
    if a.ents[x].scene.Some? {
      RegisterMembers(a1, a.ents[x].scene.value, c);
      JoinSame(a, a1, a2, b, a.ents[x].scene.value, {c});
    }
  }

  /** Steps that touch neither the managers nor the scenes, before and
      after a registration, add nothing to what joins the managers. */
  lemma JoinSame(a: Arena, a1: Arena, a2: Arena, b: Arena, s: SceneRef, m: set<CompRef>)
    requires MembersJoin(a1, a2, s, m) && a.scenes == a1.scenes && a.mgrs == a1.mgrs
    requires b.scenes == a2.scenes && b.mgrs == a2.mgrs && b.comps == a2.comps
    ensures MembersJoin(a, b, s, m)
  {
    forall q | 0 <= q < |b.mgrs|
      ensures Filed(b, s, m, q) == Filed(a2, s, m, q) && Before(a, q) == Before(a1, q)
    { }
  }

  lemma InsertKept(a: Arena, a1: Arena, a2: Arena, b: Arena, x: EntityRef, c: CompRef)
    requires WellFormed(a) && x < |a.ents| && c < |a.comps| && a.comps[c].kind !in a.ents[x].components
    requires a1 == a.(comps := a.comps[c := a.comps[c].(entity := Some(x))]) && Kept(a, a1)
    requires WellFormed(a2) && a2 == a1.(scenes := a2.scenes, mgrs := a2.mgrs, trace := a2.trace)
    requires |a2.scenes| == |a.scenes| && a1.trace <= a2.trace
    requires forall u :: 0 <= u < |a.scenes| ==> a2.scenes[u].entities == a.scenes[u].entities
    requires GoodsKept(a1.ents, a1.scenes, a1.comps, a1.mgrs, a2.ents, a2.scenes, a2.comps, a2.mgrs, None)
    requires RegsKept(a1.scenes, a1.comps, a1.mgrs, a2.scenes, a2.comps, a2.mgrs, None)
    requires a.ents[x].scene.Some? ==> Registered(a2.scenes, a2.comps, a2.mgrs, a.ents[x].scene.value, c)
    requires Owned(b.ents, b.comps, b.owner)
    requires b == a2.(ents := a2.ents[x := a2.ents[x].(components := a2.ents[x].components[a.comps[c].kind := c])],
                      owner := a2.owner[c := Some(x)])
    ensures WellFormed(b) && ComponentAdded(a, b, x, c)
  {
    ListedKept(a.ents, a.scenes, b.ents, b.scenes);
    MapOnlyWellFormed(a2, b, x);
    InsertGood(a, a1, a2, b, x, c);
  }

  /** Changing the component map of `x` and the owners keeps the tables
      well-formed when ownership stays exact. */
  lemma MapOnlyWellFormed(a2: Arena, b: Arena, x: EntityRef)
    requires WellFormed(a2) && x < |a2.ents| == |b.ents| && Owned(b.ents, b.comps, b.owner)
    requires b == a2.(ents := a2.ents[x := a2.ents[x].(components := b.ents[x].components)], owner := b.owner)
    ensures WellFormed(b)
  {
    ListedKept(a2.ents, a2.scenes, b.ents, b.scenes);
  }

  lemma InsertGood(a: Arena, a1: Arena, a2: Arena, b: Arena, x: EntityRef, c: CompRef)
    requires WellFormed(a) && x < |a.ents| && c < |a.comps| && a.comps[c].kind !in a.ents[x].components
    requires a1 == a.(comps := a.comps[c := a.comps[c].(entity := Some(x))]) && Kept(a, a1)
    requires a2 == a1.(scenes := a2.scenes, mgrs := a2.mgrs, trace := a2.trace)
    requires |a2.scenes| == |a.scenes|
    requires forall u :: 0 <= u < |a.scenes| ==> a2.scenes[u].entities == a.scenes[u].entities
    requires GoodsKept(a1.ents, a1.scenes, a1.comps, a1.mgrs, a2.ents, a2.scenes, a2.comps, a2.mgrs, None)
    requires RegsKept(a1.scenes, a1.comps, a1.mgrs, a2.scenes, a2.comps, a2.mgrs, None)
    requires a.ents[x].scene.Some? ==> Registered(a2.scenes, a2.comps, a2.mgrs, a.ents[x].scene.value, c)
    requires b == a2.(ents := a2.ents[x := a2.ents[x].(components := a2.ents[x].components[a.comps[c].kind := c])],
                      owner := a2.owner[c := Some(x)])
    ensures forall y: EntityRef :: y < |a.ents| && Good(a, y) ==> Good(b, y)
  {
    forall y: EntityRef | y < |a.ents| && Good(a, y) ensures Good(b, y) {
      assert Good(a1, y) && Good(a2, y);
      if y == x {
        forall u | u in b.ents[x].components && b.ents[x].scene.Some?
          ensures Registered(b.scenes, b.comps, b.mgrs, b.ents[x].scene.value, b.ents[x].components[u])
        {
          if u != a.comps[c].kind {
            assert Registered(a2.scenes, a2.comps, a2.mgrs, b.ents[x].scene.value, a.ents[x].components[u]);
          }
        }
      }
    }
  }

  /** Promise of `remove_component_by_type_id(x, t)`: afterwards `x` has no
      component of type `t`; when it had one, that component is out of the
      map of `x`, has no owner and no entity.  Only the map of `x`, that
      component, the managers and the trace change, and no entity loses its
      standing. */
  ghost predicate ComponentRemoved(a: Arena, b: Arena, x: EntityRef, t: Id)
  {
    x < |a.ents| && |b.ents| == |a.ents| && |b.comps| == |a.comps| && |b.owner| == |a.owner| && Kept(a, b) &&
    t !in b.ents[x].components &&
    (t !in a.ents[x].components ==> b == a) &&
    (t in a.ents[x].components ==>
      var c := a.ents[x].components[t];
      c < |a.comps| && c < |a.owner| &&
      b.ents[x].components == a.ents[x].components - {t} && b.owner[c] == None && b.comps[c].entity == None &&
      forall d :: 0 <= d < |a.owner| && d != c ==> b.owner[d] == a.owner[d]) &&
    b.ents[x].scene == a.ents[x].scene &&
    (forall y :: 0 <= y < |a.ents| && y != x ==> b.ents[y] == a.ents[y]) &&
    b.depth == a.depth && b.parent == a.parent && b.children == a.children && b.rank == a.rank &&
    a.trace <= b.trace
  }

  /** `remove_component_by_type_id(x, t)`: when `x` has no component of type
      `t` nothing happens; otherwise the component leaves the managers of the
      scene of `x` if `x` has one, loses its entity, and its entry goes from
      the map of `x`.  (A missing manager is a panic in the source, so the
      manager is required.) */
  ghost function RemoveComponent(a: Arena, x: EntityRef, t: Id): (b: Arena)
    requires WellFormed(a) && x < |a.ents|
    requires a.ents[x].scene.Some? && t in a.ents[x].components ==>
      a.comps[a.ents[x].components[t]].managerKind in a.scenes[a.ents[x].scene.value].managerMap
    ensures WellFormed(b) && ComponentRemoved(a, b, x, t)
    ensures t in a.ents[x].components && a.ents[x].scene.None? ==> b.scenes == a.scenes && b.mgrs == a.mgrs
    ensures t in a.ents[x].components && a.ents[x].scene.Some? ==>
      LeftManager(a, b, a.ents[x].scene.value, a.ents[x].components[t])
    ensures t in a.ents[x].components && a.ents[x].scene.Some? && RegisteredAll(a.ents, a.scenes, a.comps, a.mgrs, x) ==>
      MembersLeave(a, b, a.ents[x].scene.value, {a.ents[x].components[t]})
  {
    if t !in a.ents[x].components then
      assert ComponentRemoved(a, a, x, t);
      a
    else
      var c := a.ents[x].components[t];
      var a1 := LeaveManager(a, x, t);
      var a2 := WithEntity(a1, c, None);
      var b := a2.(ents := a2.ents[x := a2.ents[x].(components := a2.ents[x].components - {t})],
                   owner := a2.owner[c := None]);
      DeleteComponentTables(a2.ents, a2.comps, a2.owner, x, t);
      DeleteKept(a, a1, a2, b, x, t);
      assert b.scenes == a1.scenes && b.mgrs == a1.mgrs;
      assert a.ents[x].scene.Some? && RegisteredAll(a.ents, a.scenes, a.comps, a.mgrs, x) ==>
        MembersLeave(a, b, a.ents[x].scene.value, {c}) by {
        if a.ents[x].scene.Some? && RegisteredAll(a.ents, a.scenes, a.comps, a.mgrs, x) {
          MembersSame(a, a1, b, a.ents[x].scene.value, {c});
        }
      }
      b
  }

  /** The first step of `remove_component_by_type_id`: when the entity has a scene, its
      component leaves that scene's manager. */
  ghost function LeaveManager(a: Arena, x: EntityRef, t: Id): (a1: Arena)
    requires WellFormed(a) && x < |a.ents| && t in a.ents[x].components
    requires a.ents[x].scene.Some? ==>
      a.comps[a.ents[x].components[t]].managerKind in a.scenes[a.ents[x].scene.value].managerMap
    ensures WellFormed(a1) && a1 == a.(comps := a1.comps, scenes := a1.scenes, mgrs := a1.mgrs, trace := a1.trace)
    ensures SameKinds(a.comps, a1.comps) && SceneTablesOnly(a, a1) && a.trace <= a1.trace
    ensures var c := a.ents[x].components[t];
      RegsKept(a.scenes, a.comps, a.mgrs, a1.scenes, a1.comps, a1.mgrs, Some(c)) &&
      GoodsKept(a.ents, a.scenes, a.comps, a.mgrs, a1.ents, a1.scenes, a1.comps, a1.mgrs, Some(x))
    ensures a.ents[x].scene.None? ==> a1 == a
    ensures a.ents[x].scene.Some? ==> LeftManager(a, a1, a.ents[x].scene.value, a.ents[x].components[t])
    ensures a.ents[x].scene.Some? && RegisteredAll(a.ents, a.scenes, a.comps, a.mgrs, x) ==>
      MembersLeave(a, a1, a.ents[x].scene.value, {a.ents[x].components[t]})
  {
    if a.ents[x].scene.None? then a
    else
      var s, c := a.ents[x].scene.value, a.ents[x].components[t];
      UnregisterLeaves(a, s, c);
      assert RegisteredAll(a.ents, a.scenes, a.comps, a.mgrs, x) ==> MembersLeave(a, Unregister(a, s, c), s, {c}) by {
        if RegisteredAll(a.ents, a.scenes, a.comps, a.mgrs, x) {
          UnregisterMembers(a, s, c);
        }
      }
      Unregister(a, s, c)
  }

  lemma DeleteKept(a: Arena, a1: Arena, a2: Arena, b: Arena, x: EntityRef, t: Id)
    requires WellFormed(a) && x < |a.ents| && t in a.ents[x].components
    requires WellFormed(a1) && a1 == a.(comps := a1.comps, scenes := a1.scenes, mgrs := a1.mgrs, trace := a1.trace)
    requires SameKinds(a.comps, a1.comps) && SceneTablesOnly(a, a1) && a.trace <= a1.trace
    requires var c := a.ents[x].components[t];
      RegsKept(a.scenes, a.comps, a.mgrs, a1.scenes, a1.comps, a1.mgrs, Some(c)) &&
      GoodsKept(a.ents, a.scenes, a.comps, a.mgrs, a1.ents, a1.scenes, a1.comps, a1.mgrs, Some(x))
    requires var c := a.ents[x].components[t];
      a2 == a1.(comps := a1.comps[c := a1.comps[c].(entity := None)]) &&
      WellFormed(a2) && Kept(a1, a2) &&
      forall s, d :: Registered(a1.scenes, a1.comps, a1.mgrs, s, d) <==> Registered(a2.scenes, a2.comps, a2.mgrs, s, d)
    requires Owned(b.ents, b.comps, b.owner)
    requires var c := a.ents[x].components[t];
      b == a2.(ents := a2.ents[x := a2.ents[x].(components := a2.ents[x].components - {t})],
               owner := a2.owner[c := None])
    ensures WellFormed(b) && ComponentRemoved(a, b, x, t)
  {
    assert |a1.scenes| == |a.scenes|;
    ListedKept(a.ents, a.scenes, b.ents, b.scenes);
    MapOnlyWellFormed(a2, b, x);
    DeleteGood(a, a1, a2, b, x, t);
  }

  lemma DeleteGood(a: Arena, a1: Arena, a2: Arena, b: Arena, x: EntityRef, t: Id)
    requires WellFormed(a) && x < |a.ents| && t in a.ents[x].components
    requires a1 == a.(comps := a1.comps, scenes := a1.scenes, mgrs := a1.mgrs, trace := a1.trace)
    requires SameKinds(a.comps, a1.comps) && SceneTablesOnly(a, a1)
    requires var c := a.ents[x].components[t];
      RegsKept(a.scenes, a.comps, a.mgrs, a1.scenes, a1.comps, a1.mgrs, Some(c)) &&
      GoodsKept(a.ents, a.scenes, a.comps, a.mgrs, a1.ents, a1.scenes, a1.comps, a1.mgrs, Some(x))
    requires var c := a.ents[x].components[t];
      a2 == a1.(comps := a1.comps[c := a1.comps[c].(entity := None)]) && Kept(a1, a2) &&
      forall s, d :: Registered(a1.scenes, a1.comps, a1.mgrs, s, d) <==> Registered(a2.scenes, a2.comps, a2.mgrs, s, d)
    requires var c := a.ents[x].components[t];
      b == a2.(ents := a2.ents[x := a2.ents[x].(components := a2.ents[x].components - {t})],
               owner := a2.owner[c := None])
    ensures forall y: EntityRef :: y < |a.ents| && Good(a, y) ==> Good(b, y)
  {
    forall y: EntityRef | y < |a.ents| && Good(a, y) ensures Good(b, y) {
      if y != x {
        assert Good(a1, y) && Good(a2, y);
      } else {
        forall u | u in b.ents[x].components && b.ents[x].scene.Some?
          ensures Registered(b.scenes, b.comps, b.mgrs, b.ents[x].scene.value, b.ents[x].components[u])
        {
          assert a.owner[a.ents[x].components[u]] == Some(x);
          assert Registered(a1.scenes, a1.comps, a1.mgrs, b.ents[x].scene.value, a.ents[x].components[u]);
        }
      }
    }
  }

  /** `remove_component` of the type of a component just added by
      `add_component` gives every entity back its component map and every
      component back its owner. */
  lemma AddThenRemoveComponent(a: Arena, x: EntityRef, c: CompRef)
    requires WellFormed(a) && x < |a.ents| && c < |a.comps| && a.owner[c] == None
    requires a.comps[c].kind !in a.ents[x].components
    ensures var b := AddComponent(a, x, c);
      var t := a.comps[c].kind;
      (b.ents[x].scene.Some? ==>
        b.comps[b.ents[x].components[t]].managerKind in b.scenes[b.ents[x].scene.value].managerMap) &&
      var e := RemoveComponent(b, x, t);
      e.ents == a.ents && e.owner == a.owner
  {
    var b := AddComponent(a, x, c);
    var t := a.comps[c].kind;
    var e := RemoveComponent(b, x, t);
    RoundTrip(a, b, e, x, c);
  }

  lemma RoundTrip(a: Arena, b: Arena, e: Arena, x: EntityRef, c: CompRef)
    requires x < |a.ents| && c < |a.owner| && a.owner[c] == None && c < |a.comps|
    requires a.comps[c].kind !in a.ents[x].components
    requires |b.ents| == |a.ents| && |b.owner| == |a.owner| && |e.ents| == |a.ents| && |e.owner| == |a.owner|
    requires b.ents[x].components == a.ents[x].components[a.comps[c].kind := c] && b.owner[c] == Some(x)
    requires b.ents[x].scene == a.ents[x].scene && e.ents[x].scene == b.ents[x].scene
    requires forall y :: 0 <= y < |a.ents| && y != x ==> b.ents[y] == a.ents[y] && e.ents[y] == b.ents[y]
    requires forall d :: 0 <= d < |a.owner| && d != c ==> b.owner[d] == a.owner[d] && e.owner[d] == b.owner[d]
    requires e.ents[x].components == b.ents[x].components - {a.comps[c].kind} && e.owner[c] == None
    ensures e.ents == a.ents && e.owner == a.owner
  {
    assert e.ents[x].components == a.ents[x].components;
    assert e.ents[x] == a.ents[x];
  }
}
