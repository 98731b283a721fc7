/** Scene membership pushed down the hierarchy: `Scene::add_entity`,
    `Scene::remove_entity` and the free functions `set_scene` and
    `remove_scene` of the entity module, as functions on arenas.  They call one
    another recursively; the rank of the entity (and then a tag and a child
    count) decreases at every call.  Their contracts say what each call
    preserves and which entities it moves, and the corollaries at the end say
    what becomes of a whole subtree. */
module Propagation {
  import opened Handles
  import opened Collections
  import opened Hierarchy
  import opened Tables
  import opened Protocol

  // ---------------------------------------------------------------------------
  // What a propagation step keeps and changes

  /** `x` is in the entity list of the scene it records, and in none when it records none. */
  ghost predicate OnList(a: Arena, x: EntityRef)
  {
    Listed(a.ents, a.scenes, x)
  }

  /** Every strict descendant of `x` is consistent. */
  ghost predicate DescGood(a: Arena, x: EntityRef)
  {
    WellFormed(a) && x < |a.ents| && forall y :: y in Desc(a.children, a.rank, x) ==> Good(a, y)
  }

  /** `x` was cleared by `Entity::clear` while scene `s` listed it: it records
      no scene and holds no component, and no scene but `s` lists it. */
  ghost predicate ClearedIn(a: Arena, s: SceneRef, x: EntityRef)
  {
    x < |a.ents| && a.ents[x].scene == None && a.ents[x].components == map[] &&
    forall u :: 0 <= u < |a.scenes| && x in a.scenes[u].entities ==> u == s
  }

  /** `Scene::remove_entity(s, x)` can deal with `x`: it is consistent, or it
      was cleared while `s` listed it. */
  ghost predicate Removable(a: Arena, s: SceneRef, x: EntityRef)
  {
    Good(a, x) || ClearedIn(a, s, x)
  }

  /** `b` is well-formed and differs from `a` only in the scenes of entities,
      the entity lists, the component back-references, the managers and the
      trace, which only grows. */
  ghost predicate Frame(a: Arena, b: Arena)
  {
    WellFormed(b) &&
    b.depth == a.depth && b.parent == a.parent && b.children == a.children && b.rank == a.rank &&
    b.owner == a.owner && b.plugins == a.plugins && a.trace <= b.trace &&
    |b.ents| == |a.ents| && |b.scenes| == |a.scenes| && SameKinds(a.comps, b.comps) &&
    (forall y :: 0 <= y < |a.ents| ==> b.ents[y].components == a.ents[y].components) &&
    (forall t :: 0 <= t < |a.scenes| ==>
      b.scenes[t].initted == a.scenes[t].initted &&
      b.scenes[t].pluginMap == a.scenes[t].pluginMap && b.scenes[t].pluginList == a.scenes[t].pluginList)
  }

  /** Every entity of `a` but `x` that is consistent, or listed by its scene,
      is still so in `b`. */
  ghost predicate KeptExcept(a: Arena, b: Arena, x: Option<EntityRef>)
  {
    (forall y: EntityRef :: y < |a.ents| && x != Some(y) && Good(a, y) ==> Good(b, y)) &&
    (forall y: EntityRef :: y < |a.ents| && x != Some(y) && OnList(a, y) ==> OnList(b, y))
  }

  /** Nothing consistent or listed becomes inconsistent or unlisted. */
  ghost predicate Kept(a: Arena, b: Arena)
  {
    KeptExcept(a, b, None)
  }

  /** The entities in scene `s` stay there. */
  ghost predicate StaysIn(a: Arena, b: Arena, s: SceneRef)
  {
    forall y :: 0 <= y < |a.ents| && y < |b.ents| && a.ents[y].scene == Some(s) ==> b.ents[y].scene == Some(s)
  }

  /** The only change of scene is leaving `s` for no scene. */
  ghost predicate LeavesOnly(a: Arena, b: Arena, s: SceneRef)
  {
    forall y :: 0 <= y < |a.ents| && y < |b.ents| && b.ents[y].scene != a.ents[y].scene ==>
      a.ents[y].scene == Some(s) && b.ents[y].scene == None
  }

  /** No entity outside `m` changes scene. */
  ghost predicate ScenesOutside(a: Arena, b: Arena, m: set<EntityRef>)
  {
    forall y :: 0 <= y < |a.ents| && y < |b.ents| && y !in m ==> b.ents[y].scene == a.ents[y].scene
  }

  /** If `y` is in scene `s`, so are its children. */
  ghost predicate ClosedAt(a: Arena, s: SceneRef, y: EntityRef)
  {
    y < |a.ents| && y < |a.children| &&
    (a.ents[y].scene == Some(s) ==> forall i :: 0 <= i < |a.children[y]| ==>
      a.children[y][i] < |a.ents| && a.ents[a.children[y][i]].scene == Some(s))
  }

  /** If `y` is not in scene `s`, neither are its children. */
  ghost predicate OpenAt(a: Arena, s: SceneRef, y: EntityRef)
  {
    y < |a.ents| && y < |a.children| &&
    (a.ents[y].scene != Some(s) ==> forall i :: 0 <= i < |a.children[y]| ==>
      a.children[y][i] < |a.ents| && a.ents[a.children[y][i]].scene != Some(s))
  }

  /** Every entity that enters scene `s` has all its children in `s`. */
  ghost predicate NewClosed(a: Arena, b: Arena, s: SceneRef)
  {
    forall y :: 0 <= y < |a.ents| && y < |b.ents| && a.ents[y].scene != Some(s) && b.ents[y].scene == Some(s) ==>
      ClosedAt(b, s, y)
  }

  /** Every entity that leaves scene `s` has none of its children in `s`. */
  ghost predicate NewOpen(a: Arena, b: Arena, s: SceneRef)
  {
    forall y :: 0 <= y < |a.ents| && y < |b.ents| && a.ents[y].scene == Some(s) && b.ents[y].scene != Some(s) ==>
      OpenAt(b, s, y)
  }

  /** The entity list of `s` loses entries and gains none. */
  ghost predicate Shrinks(a: Arena, b: Arena, s: SceneRef)
  {
    s < |a.scenes| && s < |b.scenes| &&
    forall y :: y in b.scenes[s].entities ==> y in a.scenes[s].entities
  }

  /** Every entry of the list of `s` outside `m` stays in it. */
  ghost predicate ListKept(a: Arena, b: Arena, s: SceneRef, m: set<EntityRef>)
  {
    s < |a.scenes| && s < |b.scenes| &&
    forall y :: y in a.scenes[s].entities && y !in m ==> y in b.scenes[s].entities
  }

  /** The entity lists of all scenes but `s` are unchanged. */
  ghost predicate OtherListsSame(a: Arena, b: Arena, s: SceneRef)
  {
    |b.scenes| == |a.scenes| &&
    forall u :: 0 <= u < |a.scenes| && u != s ==> b.scenes[u].entities == a.scenes[u].entities
  }

  /** The first `n` children of `x` and their descendants. */
  ghost function KidsDesc(a: Arena, x: EntityRef, n: nat): (m: set<EntityRef>)
    requires WellFormed(a) && x < |a.children| && n <= |a.children[x]|
    ensures n == |a.children[x]| ==> m == Desc(a.children, a.rank, x)
  {
    ChildrenBelow(a.children, a.rank, x);
    assert a.children[x][..|a.children[x]|] == a.children[x];
    DescOf(a.children, a.rank, a.children[x][..n], a.rank[x])
  }

  // ---------------------------------------------------------------------------
  // The component loops of `set_scene` and `remove_scene`

  /** `b` is `a` after the components `cs` have joined the managers of scene
      `s`: each is registered there, every registration and every consistent
      entity of `a` is kept, and only the manager tables, the managers and the
      trace (which grows) change. */
  ghost predicate Joined(a: Arena, b: Arena, s: SceneRef, cs: seq<CompRef>)
  {
    ManagersOnly(a, b) && a.trace <= b.trace &&
    (forall c :: c in cs ==> Registered(b.scenes, b.comps, b.mgrs, s, c)) &&
    RegsKept(a.scenes, a.comps, a.mgrs, b.scenes, b.comps, b.mgrs, None) &&
    GoodsKept(a.ents, a.scenes, a.comps, a.mgrs, b.ents, b.scenes, b.comps, b.mgrs, None)
  }

  /** `__add_component` for every component of `cs`, in order. */
  ghost function RegisterAll(a: Arena, s: SceneRef, cs: seq<CompRef>): (b: Arena)
    requires WellFormed(a) && s < |a.scenes| && forall i :: 0 <= i < |cs| ==> cs[i] < |a.comps|
    ensures WellFormed(b) && Joined(a, b, s, cs)
    ensures NoDup(cs) ==> MembersJoin(a, b, s, Elems(cs))
  {
    assert cs[..|cs|] == cs;
    if NoDup(cs) then
      RoundsMembers(a, s, cs, |cs|);
      RegisterFirst(a, s, cs, |cs|)
    else
      RegisterFirst(a, s, cs, |cs|)
  }

  /** `__add_component` for the first `n` components of `cs`, in order. */
  ghost function RegisterFirst(a: Arena, s: SceneRef, cs: seq<CompRef>, n: nat): (b: Arena)
    requires WellFormed(a) && s < |a.scenes| && forall i :: 0 <= i < |cs| ==> cs[i] < |a.comps|
    requires n <= |cs|
    ensures WellFormed(b) && Joined(a, b, s, cs[..n])
  {
    RegisterRounds(a, s, cs, n)
  }

  /** The rounds of `RegisterFirst`, one component at a time. */
  ghost function RegisterRounds(a: Arena, s: SceneRef, cs: seq<CompRef>, n: nat): (b: Arena)
    requires WellFormed(a) && s < |a.scenes| && forall i :: 0 <= i < |cs| ==> cs[i] < |a.comps|
    requires n <= |cs|
    ensures WellFormed(b) && Joined(a, b, s, cs[..n])
  {
    if n == 0 then
      a
    else
      var a1 := RegisterRounds(a, s, cs, n - 1);
      var b := Register(a1, s, cs[n - 1]);
      RegisterFirstStep(a, a1, b, s, cs, n);
      b
  }

  /** The rounds of `RegisterFirst` file each of the first `n` components,
      when they are distinct, with the manager of its kind in `s`, and
      nobody else. */
  lemma {:induction false} RoundsMembers(a: Arena, s: SceneRef, cs: seq<CompRef>, n: nat)
    requires WellFormed(a) && s < |a.scenes| && forall i :: 0 <= i < |cs| ==> cs[i] < |a.comps|
    requires n <= |cs| && NoDup(cs)
    ensures MembersJoin(a, RegisterRounds(a, s, cs, n), s, Elems(cs[..n]))
  {
    if n == 0 {
      JoinNone(a, s);
      assert Elems(cs[..0]) == {};
    } else {
      RoundsMembers(a, s, cs, n - 1);
      RoundsMembersStep(a, RegisterRounds(a, s, cs, n - 1), s, cs, n);
    }
  }

  lemma RoundsMembersStep(a: Arena, a1: Arena, s: SceneRef, cs: seq<CompRef>, n: nat)
    requires WellFormed(a1) && s < |a1.scenes| && 0 < n <= |cs| && cs[n - 1] < |a1.comps| && NoDup(cs)
    requires MembersJoin(a, a1, s, Elems(cs[..n - 1]))
    ensures MembersJoin(a, Register(a1, s, cs[n - 1]), s, Elems(cs[..n]))
  {
    RegisterMembers(a1, s, cs[n - 1]);
    RegisterMembersStep(a, a1, Register(a1, s, cs[n - 1]), s, cs, n);
  }

  /** Registering nothing puts nobody into a manager. */
  lemma JoinNone(a: Arena, s: SceneRef)
    requires s < |a.scenes|
    ensures MembersJoin(a, a, s, {})
  {
    forall q | 0 <= q < |a.mgrs| ensures Filed(a, s, {}, q) == {} { }
  }

  /** One more round puts one more component into its manager. */
  lemma RegisterMembersStep(a: Arena, a1: Arena, b: Arena, s: SceneRef, cs: seq<CompRef>, n: nat)
    requires NoDup(cs) && 0 < n <= |cs| && SameKinds(a1.comps, b.comps)
    requires MembersJoin(a, a1, s, Elems(cs[..n - 1])) && MembersJoin(a1, b, s, {cs[n - 1]})
    ensures MembersJoin(a, b, s, Elems(cs[..n]))
  {
    var last := cs[n - 1];
    assert cs[..n] == cs[..n - 1] + [last];
    assert last !in cs[..n - 1];
    assert Elems(cs[..n]) == Elems(cs[..n - 1]) + {last};
    JoinTrans(a, a1, b, s, Elems(cs[..n - 1]), {last});
  }

  /** One more round of the components loop of `set_scene`. */
  lemma RegisterFirstNext(a: Arena, s: SceneRef, cs: seq<CompRef>, j: nat)
    requires WellFormed(a) && s < |a.scenes| && forall i :: 0 <= i < |cs| ==> cs[i] < |a.comps|
    requires j < |cs|
    ensures var b := RegisterFirst(a, s, cs, j);
      WellFormed(b) && s < |b.scenes| && cs[j] < |b.comps| &&
      RegisterFirst(a, s, cs, j + 1) == Register(b, s, cs[j])
  {
  }

  lemma RegisterFirstStep(a: Arena, a1: Arena, b: Arena, s: SceneRef, cs: seq<CompRef>, n: nat)
    requires 0 < n <= |cs| && s < |a.scenes|
    requires WellFormed(a1) && Joined(a, a1, s, cs[..n - 1])
    requires WellFormed(b) && ManagersOnly(a1, b)
    requires a1.trace <= b.trace
    requires Registered(b.scenes, b.comps, b.mgrs, s, cs[n - 1])
    requires RegsKept(a1.scenes, a1.comps, a1.mgrs, b.scenes, b.comps, b.mgrs, None)
    requires GoodsKept(a1.ents, a1.scenes, a1.comps, a1.mgrs, b.ents, b.scenes, b.comps, b.mgrs, None)
    ensures Joined(a, b, s, cs[..n])
  {
    forall c | c in cs[..n] ensures Registered(b.scenes, b.comps, b.mgrs, s, c) {
      if c != cs[n - 1] {
        assert c in cs[..n - 1] by {
          var k :| 0 <= k < n && cs[k] == c;
          assert cs[..n - 1][k] == c;
        }
      }
    }
  }

  /** Every registration of `a`, but those of the components in `cs`, holds in `b`. */
  ghost predicate RegsKeptExcept(a: Arena, b: Arena, cs: seq<CompRef>)
  {
    forall t: SceneRef, d: CompRef :: d !in cs && Registered(a.scenes, a.comps, a.mgrs, t, d) ==>
      Registered(b.scenes, b.comps, b.mgrs, t, d)
  }

  /** `b` is `a` after the components `cs` of `x` went through
      `__remove_component`: they lose their entity back-reference, every
      other registration and every consistent entity but `x` are kept, and
      only the manager tables, the managers and the trace (which grows)
      change besides.  What the managers lose is `MembersLeave`. */
  ghost predicate Unregistered(a: Arena, b: Arena, cs: seq<CompRef>, x: EntityRef)
  {
    b == a.(comps := b.comps, scenes := b.scenes, mgrs := b.mgrs, trace := b.trace) &&
    SceneTablesOnly(a, b) && a.trace <= b.trace &&
    |b.comps| == |a.comps| &&
    (forall c :: 0 <= c < |a.comps| ==> b.comps[c] == if c in cs then a.comps[c].(entity := None) else a.comps[c]) &&
    RegsKeptExcept(a, b, cs) &&
    GoodsKept(a.ents, a.scenes, a.comps, a.mgrs, b.ents, b.scenes, b.comps, b.mgrs, Some(x))
  }

  /** `__remove_component` for every component of `cs`, in order; they are
      the components of `x`, all registered with `s`. */
  ghost function UnregisterAll(a: Arena, s: SceneRef, cs: seq<CompRef>, x: EntityRef): (b: Arena)
    requires WellFormed(a) && s < |a.scenes| && NoDup(cs)
    requires forall i :: 0 <= i < |cs| ==>
      Registered(a.scenes, a.comps, a.mgrs, s, cs[i]) && a.owner[cs[i]] == Some(x)
    ensures WellFormed(b) && Unregistered(a, b, cs, x)
    ensures MembersLeave(a, b, s, Elems(cs))
  {
    assert cs[..|cs|] == cs;
    UnregisterFirst(a, s, cs, x, |cs|)
  }

  /** `__remove_component` for the first `n` components of `cs`, in order. */
  ghost function UnregisterFirst(a: Arena, s: SceneRef, cs: seq<CompRef>, x: EntityRef, n: nat): (b: Arena)
    requires WellFormed(a) && s < |a.scenes| && NoDup(cs)
    requires forall i :: 0 <= i < |cs| ==>
      Registered(a.scenes, a.comps, a.mgrs, s, cs[i]) && a.owner[cs[i]] == Some(x)
    requires n <= |cs|
    ensures WellFormed(b) && Unregistered(a, b, cs[..n], x)
    ensures MembersLeave(a, b, s, Elems(cs[..n]))
  {
    UnregisterRounds(a, s, cs, x, n)
  }

  /** The rounds of `UnregisterFirst`, one component at a time. */
  ghost function UnregisterRounds(a: Arena, s: SceneRef, cs: seq<CompRef>, x: EntityRef, n: nat): (b: Arena)
    requires WellFormed(a) && s < |a.scenes| && NoDup(cs)
    requires forall i :: 0 <= i < |cs| ==>
      Registered(a.scenes, a.comps, a.mgrs, s, cs[i]) && a.owner[cs[i]] == Some(x)
    requires n <= |cs|
    ensures WellFormed(b) && Unregistered(a, b, cs[..n], x)
    ensures MembersLeave(a, b, s, Elems(cs[..n]))
  {
    if n == 0 then
      MembersNone(a, a, s);
      assert Elems(cs[..0]) == {};
      a
    else
      var a1 := UnregisterRounds(a, s, cs, x, n - 1);
      StillRegistered(a, a1, s, cs, x, n);
      var b := Unregister(a1, s, cs[n - 1]);
      UnregisterFirstStep(a, a1, b, s, cs, x, n);
      UnregisterMembers(a1, s, cs[n - 1]);
      UnregisteredKinds(a, a1, cs[..n - 1], x);
      UnregisterMembersStep(a, a1, b, s, cs, n);
      b
  }

  /** One more round of the components loop of `remove_scene`. */
  lemma UnregisterFirstNext(a: Arena, s: SceneRef, cs: seq<CompRef>, x: EntityRef, j: nat)
    requires WellFormed(a) && s < |a.scenes| && NoDup(cs)
    requires forall i :: 0 <= i < |cs| ==> Registered(a.scenes, a.comps, a.mgrs, s, cs[i]) && a.owner[cs[i]] == Some(x)
    requires j < |cs|
    ensures var b := UnregisterFirst(a, s, cs, x, j);
      WellFormed(b) && Registered(b.scenes, b.comps, b.mgrs, s, cs[j]) &&
      UnregisterFirst(a, s, cs, x, j + 1) == Unregister(b, s, cs[j])
  {
    StillRegistered(a, UnregisterFirst(a, s, cs, x, j), s, cs, x, j + 1);
  }

  /** One more round takes one more component out of its manager. */
  lemma UnregisterMembersStep(a: Arena, a1: Arena, b: Arena, s: SceneRef, cs: seq<CompRef>, n: nat)
    requires NoDup(cs) && 0 < n <= |cs| && SameKinds(a.comps, a1.comps)
    requires MembersLeave(a, a1, s, Elems(cs[..n - 1])) && MembersLeave(a1, b, s, {cs[n - 1]})
    ensures MembersLeave(a, b, s, Elems(cs[..n]))
  {
    var last := cs[n - 1];
    assert cs[..n] == cs[..n - 1] + [last];
    assert last !in cs[..n - 1];
    assert Elems(cs[..n]) == Elems(cs[..n - 1]) + {last};
    MembersTrans(a, a1, b, s, Elems(cs[..n - 1]), {last});
  }

  /** Taking components out of their managers changes no component's kinds. */
  lemma UnregisteredKinds(a: Arena, a1: Arena, cs: seq<CompRef>, x: EntityRef)
    requires Unregistered(a, a1, cs, x)
    ensures SameKinds(a.comps, a1.comps)
  {
    forall c | 0 <= c < |a.comps|
      ensures a1.comps[c].kind == a.comps[c].kind && a1.comps[c].managerKind == a.comps[c].managerKind
    {
      assert a1.comps[c] == if c in cs then a.comps[c].(entity := None) else a.comps[c];
    }
  }

  /** The components of `cs` after the first `n - 1` are still registered. */
  lemma StillRegistered(a: Arena, a1: Arena, s: SceneRef, cs: seq<CompRef>, x: EntityRef, n: nat)
    requires NoDup(cs) && 0 < n <= |cs|
    requires Registered(a.scenes, a.comps, a.mgrs, s, cs[n - 1])
    requires Unregistered(a, a1, cs[..n - 1], x)
    ensures Registered(a1.scenes, a1.comps, a1.mgrs, s, cs[n - 1])
  {
    assert cs[n - 1] !in cs[..n - 1];
  }

  lemma UnregisterFirstStep(a: Arena, a1: Arena, b: Arena, s: SceneRef, cs: seq<CompRef>, x: EntityRef, n: nat)
    requires 0 < n <= |cs| && WellFormed(a) && x < |a.ents|
    requires Unregistered(a, a1, cs[..n - 1], x)
    requires cs[n - 1] < |a.comps| && a.owner[cs[n - 1]] == Some(x)
    requires b == a1.(comps := b.comps, scenes := b.scenes, mgrs := b.mgrs, trace := b.trace)
    requires SceneTablesOnly(a1, b) && a1.trace <= b.trace
    requires b.comps == a1.comps[cs[n - 1] := a1.comps[cs[n - 1]].(entity := None)]
    requires RegsKept(a1.scenes, a1.comps, a1.mgrs, b.scenes, b.comps, b.mgrs, Some(cs[n - 1]))
    requires GoodsKept(a1.ents, a1.scenes, a1.comps, a1.mgrs, b.ents, b.scenes, b.comps, b.mgrs, a1.owner[cs[n - 1]])
    ensures Unregistered(a, b, cs[..n], x)
  {
    var last := cs[n - 1];
    assert cs[..n] == cs[..n - 1] + [last];
    forall c | 0 <= c < |a.comps|
      ensures b.comps[c] == if c in cs[..n] then a.comps[c].(entity := None) else a.comps[c]
    {
      assert c in cs[..n] <==> c in cs[..n - 1] || c == last;
    }
    forall t: SceneRef, d: CompRef | d !in cs[..n] && Registered(a.scenes, a.comps, a.mgrs, t, d)
      ensures Registered(b.scenes, b.comps, b.mgrs, t, d)
    {
      assert d !in cs[..n - 1];
    }
  }

  /** The components whose owners leave scene `s` for no scene from `a` to `b`. */
  ghost function Departed(a: Arena, b: Arena, s: SceneRef): set<CompRef>
  {
    set c: CompRef | c < |a.owner| && a.owner[c].Some? && a.owner[c].value < |a.ents| && a.owner[c].value < |b.ents| &&
      a.ents[a.owner[c].value].scene == Some(s) && b.ents[a.owner[c].value].scene == None
  }

  /** Every component that departs from `a` to `b` has lost its entity in
      `b`, and no component gains an entity or changes it for another. */
  ghost predicate Unhooked(a: Arena, b: Arena, s: SceneRef)
  {
    |b.comps| == |a.comps| &&
    (forall c :: c in Departed(a, b, s) ==> c < |b.comps| && b.comps[c].entity == None) &&
    forall c :: 0 <= c < |a.comps| && b.comps[c].entity != a.comps[c].entity ==> b.comps[c].entity == None
  }

  /** Every entity that changes scene from `a` to `b` ends in scene `s` or in none. */
  ghost predicate ChangesTo(a: Arena, b: Arena, s: SceneRef)
  {
    forall y :: 0 <= y < |a.ents| && y < |b.ents| && b.ents[y].scene != a.ents[y].scene ==>
      b.ents[y].scene == None || b.ents[y].scene == Some(s)
  }

  /** The components whose owners are out of scene `s` in `a` and in it in `b`. */
  ghost function Arrived(a: Arena, b: Arena, s: SceneRef): set<CompRef>
  {
    set c: CompRef | c < |a.owner| && a.owner[c].Some? && a.owner[c].value < |a.ents| && a.owner[c].value < |b.ents| &&
      a.ents[a.owner[c].value].scene != Some(s) && b.ents[a.owner[c].value].scene == Some(s)
  }

  /** The components whose owners leave a scene other than `s` from `a` to
      `b`, and which that scene files with manager `q` in `a`. */
  ghost function Gone(a: Arena, b: Arena, s: SceneRef, q: MgrRef): set<CompRef>
  {
    set c: CompRef | c < |a.owner| && a.owner[c].Some? && a.owner[c].value < |a.ents| && a.owner[c].value < |b.ents| &&
      a.ents[a.owner[c].value].scene.Some? && a.ents[a.owner[c].value].scene != Some(s) &&
      b.ents[a.owner[c].value].scene != a.ents[a.owner[c].value].scene &&
      FiledWith(a, a.ents[a.owner[c].value].scene.value, c, q)
  }

  /** From `a` to `b` every component whose owner left another scene has
      left the manager that scene filed it with, and every component whose
      owner entered `s` has joined the manager `s` files it with, one copy
      each; no other member joins or leaves, managers are only created, the
      manager map of `s` only grows and no other scene's manager map or
      manager list changes. */
  ghost predicate MembersMove(a: Arena, b: Arena, s: SceneRef)
  {
    |a.mgrs| <= |b.mgrs| && |b.scenes| == |a.scenes| && MapGrows(a, b, s) && AllFiled(b, s, Arrived(a, b, s)) &&
    (forall t :: 0 <= t < |a.scenes| && t != s ==>
       b.scenes[t].managerMap == a.scenes[t].managerMap && b.scenes[t].managerList == a.scenes[t].managerList) &&
    (forall q :: 0 <= q < |a.mgrs| ==> b.mgrs[q] == a.mgrs[q].(members := b.mgrs[q].members)) &&
    forall q :: 0 <= q < |b.mgrs| ==>
      multiset(b.mgrs[q].members) ==
        multiset(Before(a, q)) - multiset(Gone(a, b, s, q)) + multiset(Filed(b, s, Arrived(a, b, s), q))
  }

  // ---------------------------------------------------------------------------
  // Elementary changes

  /** `Vec::push` of `x` onto the entity list of scene `s`. */
  ghost function Push(a: Arena, s: SceneRef, x: EntityRef): Arena
    requires s < |a.scenes|
  {
    a.(scenes := a.scenes[s := a.scenes[s].(entities := a.scenes[s].entities + [x])])
  }

  /** `__remove_entity`: the first entry `x` leaves the entity list of scene `s`. */
  ghost function Unlist(a: Arena, s: SceneRef, x: EntityRef): Arena
    requires s < |a.scenes|
  {
    a.(scenes := a.scenes[s := a.scenes[s].(entities := RemoveFirst<EntityRef>(a.scenes[s].entities, x))])
  }

  /** The scene back-reference of `x` becomes `v`. */
  ghost function WithScene(a: Arena, x: EntityRef, v: Option<SceneRef>): Arena
    requires x < |a.ents|
  {
    a.(ents := a.ents[x := a.ents[x].(scene := v)])
  }

  // ---------------------------------------------------------------------------
  // What each propagation function needs and promises

  /** `Scene::add_entity(s, x)` does nothing when `x` is in `s` already;
      otherwise it walks the subtree of `x`, which is consistent. */
  ghost predicate AddReady(a: Arena, s: SceneRef, x: EntityRef)
  {
    WellFormed(a) && s < |a.scenes| && x < |a.ents| &&
    (a.ents[x].scene != Some(s) ==> Good(a, x) && DescGood(a, x))
  }

  /** `Scene::remove_entity(s, x)` walks the subtree of `x`, every entity of
      which is consistent or was cleared while `s` listed it. */
  ghost predicate RemoveReady(a: Arena, s: SceneRef, x: EntityRef)
  {
    WellFormed(a) && s < |a.scenes| && x < |a.ents| &&
    forall y :: y in Sub(a.children, a.rank, x) ==> Removable(a, s, y)
  }

  /** `set_scene(x, s)` runs right after `x` was pushed onto the list of `s`:
      `x` has no scene yet and is listed by `s` alone. */
  ghost predicate Entering(a: Arena, s: SceneRef, x: EntityRef)
  {
    WellFormed(a) && s < |a.scenes| && x < |a.ents| && a.ents[x].scene == None &&
    (forall u :: 0 <= u < |a.scenes| ==> (x in a.scenes[u].entities <==> u == s)) &&
    DescGood(a, x)
  }

  /** The children loop of `set_scene` runs once `x` is in scene `s` and listed there. */
  ghost predicate KidsEntering(a: Arena, s: SceneRef, x: EntityRef, n: nat)
  {
    WellFormed(a) && s < |a.scenes| && x < |a.ents| && n <= |a.children[x]| &&
    a.ents[x].scene == Some(s) && OnList(a, x) && DescGood(a, x)
  }

  /** `remove_scene(x)` runs right after `x` left the list of scene `s`: it
      still records `s` (or, cleared, records none and holds no component),
      no scene lists it, and its descendants are removable from `s`. */
  ghost predicate Leaving(a: Arena, s: SceneRef, x: EntityRef)
  {
    WellFormed(a) && s < |a.scenes| && x < |a.ents| &&
    (a.ents[x].scene == Some(s) || (a.ents[x].scene == None && a.ents[x].components == map[])) &&
    (forall u :: 0 <= u < |a.scenes| ==> x !in a.scenes[u].entities) &&
    forall y :: y in Desc(a.children, a.rank, x) ==> Removable(a, s, y)
  }

  /** Promise of `Scene::add_entity(s, x)`: `x` ends in `s`; nothing happens
      when it was there already, and otherwise it ends consistent, appended to
      the list of `s`; only the subtree of `x` changes scene, nothing leaves
      `s`, and whatever enters `s` has all its children in `s`. */
  ghost predicate Added(a: Arena, b: Arena, s: SceneRef, x: EntityRef)
  {
    WellFormed(a) && s < |a.scenes| && x < |a.ents| && Frame(a, b) && Kept(a, b) &&
    b.ents[x].scene == Some(s) &&
    (a.ents[x].scene == Some(s) ==> b == a) &&
    (a.ents[x].scene != Some(s) ==> Good(b, x) && a.scenes[s].entities + [x] <= b.scenes[s].entities) &&
    a.scenes[s].entities <= b.scenes[s].entities &&
    StaysIn(a, b, s) && NewClosed(a, b, s) && ScenesOutside(a, b, Sub(a.children, a.rank, x))
  }

  /** Promise of `set_scene(x, s)`. */
  ghost predicate Entered(a: Arena, b: Arena, s: SceneRef, x: EntityRef)
  {
    WellFormed(a) && s < |a.scenes| && x < |a.ents| && Frame(a, b) && Kept(a, b) &&
    Good(b, x) && b.ents[x].scene == Some(s) &&
    a.scenes[s].entities <= b.scenes[s].entities &&
    StaysIn(a, b, s) && NewClosed(a, b, s) && ScenesOutside(a, b, Sub(a.children, a.rank, x))
  }

  /** Promise of the first `n` rounds of the children loop of `set_scene(x, s)`:
      those children are in `s`, and `x` still is. */
  ghost predicate KidsEntered(a: Arena, b: Arena, s: SceneRef, x: EntityRef, n: nat)
  {
    WellFormed(a) && s < |a.scenes| && x < |a.ents| && n <= |a.children[x]| && Frame(a, b) && Kept(a, b) &&
    b.ents[x].scene == Some(s) && OnList(b, x) &&
    (forall i :: 0 <= i < n ==> b.ents[a.children[x][i]].scene == Some(s)) &&
    a.scenes[s].entities <= b.scenes[s].entities &&
    StaysIn(a, b, s) && NewClosed(a, b, s) && ScenesOutside(a, b, KidsDesc(a, x, n))
  }

  /** Promise of `Scene::remove_entity(s, x)`: nothing happens when `s` does not
      list `x`; otherwise `x` ends consistent with no scene.  Only the subtree of `x`
      changes scene, and only by leaving `s`; whatever leaves `s` has none of
      its children in `s`; the list of `s` only loses entries and the other
      lists stay as they are. */
  ghost predicate Removed(a: Arena, b: Arena, s: SceneRef, x: EntityRef)
  {
    WellFormed(a) && s < |a.scenes| && x < |a.ents| && Frame(a, b) && Kept(a, b) &&
    (x !in a.scenes[s].entities ==> b == a) &&
    (x in a.scenes[s].entities ==> b.ents[x].scene == None && Good(b, x)) &&
    LeavesOnly(a, b, s) && NewOpen(a, b, s) && Shrinks(a, b, s) && OtherListsSame(a, b, s) &&
    ListKept(a, b, s, Sub(a.children, a.rank, x)) && ScenesOutside(a, b, Sub(a.children, a.rank, x))
  }

  /** Promise of `remove_scene(x)` when `x` records scene `s` or, cleared, none. */
  ghost predicate Left(a: Arena, b: Arena, s: SceneRef, x: EntityRef)
  {
    WellFormed(a) && s < |a.scenes| && x < |a.ents| && Frame(a, b) && Kept(a, b) &&
    Good(b, x) && b.ents[x].scene == None &&
    LeavesOnly(a, b, s) && NewOpen(a, b, s) && Shrinks(a, b, s) && OtherListsSame(a, b, s) &&
    ListKept(a, b, s, Desc(a.children, a.rank, x)) && ScenesOutside(a, b, Sub(a.children, a.rank, x))
  }

  /** Promise of the first `n` rounds of the children loop of `remove_scene(x)`:
      those children are out of `s`; `x` still records its scene and is still unlisted. */
  ghost predicate KidsLeft(a: Arena, b: Arena, s: SceneRef, x: EntityRef, n: nat)
  {
    WellFormed(a) && s < |a.scenes| && x < |a.ents| && n <= |a.children[x]| && Frame(a, b) && Kept(a, b) &&
    b.ents[x].scene == a.ents[x].scene && (forall u :: 0 <= u < |b.scenes| ==> x !in b.scenes[u].entities) &&
    (forall i :: 0 <= i < n ==> b.ents[a.children[x][i]].scene != Some(s)) &&
    LeavesOnly(a, b, s) && NewOpen(a, b, s) && Shrinks(a, b, s) && OtherListsSame(a, b, s) &&
    ListKept(a, b, s, KidsDesc(a, x, n)) && ScenesOutside(a, b, KidsDesc(a, x, n))
  }

  // ---------------------------------------------------------------------------
  // The propagation functions

  /** `Scene::add_entity(s, x)`: unless `x` is already in `s`, it is taken out
      of its old scene, pushed onto the list of `s`, and `set_scene` moves it
      and its subtree into `s`. */
  ghost function AddEntity(a: Arena, s: SceneRef, x: EntityRef): (b: Arena)
    requires AddReady(a, s, x)
    ensures Added(a, b, s, x)
    ensures ChangesTo(a, b, s) && MembersMove(a, b, s)
    decreases a.rank[x], 5
  {
    if a.ents[x].scene == Some(s) then
      AddedSame(a, s, x);
      MoveNone(a, a, s);
      a
    else
      GoodRemovable(a, a.ents[x].scene, x);
      var a1 := if a.ents[x].scene == None then a else RemoveEntity(a, a.ents[x].scene.value, x);
      LeftOther(a, a1, s, x);
      var a2 := Push(a1, s, x);
      PushReady(a, a1, s, x);
      var b := SetScene(a2, s, x);
      AddCompose(a, a1, b, s, x);
      AddMembers(a, a1, b, s, x);
      b
  }

  /** `set_scene(x, s)`: `x` records `s`, every child is added to `s`, and
      then every component of `x` is registered with the managers of `s`. */
  ghost function SetScene(a: Arena, s: SceneRef, x: EntityRef): (b: Arena)
    requires Entering(a, s, x)
    ensures Entered(a, b, s, x)
    ensures ChangesTo(a, b, s) && MembersMove(a, b, s)
    decreases a.rank[x], 4
  {
    var a1 := WithScene(a, x, Some(s));
    EnterStep(a, s, x);
    var a2 := SetSceneKids(a1, s, x, |a.children[x]|);
    RegReady(a1, a2, s, x);
    var b := RegisterAll(a2, s, CompsOf(a2.ents[x].components));
    SetCompose(a, a2, b, s, x);
    SetMove(a, a2, b, s, x);
    b
  }

  /** The first `n` rounds of the children loop of `set_scene(x, s)`. */
  ghost function SetSceneKids(a: Arena, s: SceneRef, x: EntityRef, n: nat): (b: Arena)
    requires KidsEntering(a, s, x, n)
    ensures KidsEntered(a, b, s, x, n)
    ensures ChangesTo(a, b, s) && MembersMove(a, b, s)
    decreases a.rank[x], 3, n
  {
    if n == 0 then
      KidsEnteredNone(a, s, x);
      MoveNone(a, a, s);
      a
    else
      var a1 := SetSceneKids(a, s, x, n - 1);
      KidReady(a, a1, s, x, n);
      var b := AddEntity(a1, s, a.children[x][n - 1]);
      KidsEnteredStep(a, a1, b, s, x, n);
      KidsMove(a, a1, b, s, x, n);
      b
  }

  /** `Scene::remove_entity(s, x)`: when `s` lists `x`, its entry goes and
      `remove_scene` takes `x` and its subtree out of `s`. */
  ghost function RemoveEntity(a: Arena, s: SceneRef, x: EntityRef): (b: Arena)
    requires RemoveReady(a, s, x)
    ensures Removed(a, b, s, x)
    ensures MembersLeave(a, b, s, Departed(a, b, s)) && Unhooked(a, b, s)
    decreases a.rank[x], 2
  {
    if x !in a.scenes[s].entities then
      RemovedSame(a, s, x);
      DepartedNone(a, a, s);
      UnhookedNone(a, a, s);
      a
    else
      var a1 := Unlist(a, s, x);
      UnlistStep(a, s, x);
      var b := RemoveScene(a1, s, x);
      RemoveCompose(a, b, s, x);
      UnlistMembers(a, s, x, b);
      UnlistUnhooked(a, s, x, b);
      b
  }

  /** `remove_scene(x)` for `x` in scene `s` (or cleared): every component of `x` leaves the
      managers of `s`, every child is removed from `s`, and `x` records no scene. */
  ghost function RemoveScene(a: Arena, s: SceneRef, x: EntityRef): (b: Arena)
    requires Leaving(a, s, x) && RegisteredAll(a.ents, a.scenes, a.comps, a.mgrs, x)
    ensures Left(a, b, s, x)
    ensures MembersLeave(a, b, s, Departed(a, b, s)) && Unhooked(a, b, s)
    decreases a.rank[x], 1
  {
    var cs := CompsOf(a.ents[x].components);
    UnregReady(a, s, x);
    var a1 := UnregisterAll(a, s, cs, x);
    UnregDone(a, a1, s, x, cs);
    var a2 := RemoveSceneKids(a1, s, x, |a.children[x]|);
    var b := WithScene(a2, x, None);
    LeaveCompose(a, a1, a2, s, x);
    LeaveMembers(a, a1, a2, s, x);
    LeaveUnhooked(a, a1, a2, s, x);
    b
  }

  /** The first `n` rounds of the children loop of `remove_scene(x)`. */
  ghost function RemoveSceneKids(a: Arena, s: SceneRef, x: EntityRef, n: nat): (b: Arena)
    requires Leaving(a, s, x) && n <= |a.children[x]|
    ensures KidsLeft(a, b, s, x, n)
    ensures MembersLeave(a, b, s, Departed(a, b, s)) && Unhooked(a, b, s)
    decreases a.rank[x], 0, n
  {
    if n == 0 then
      KidsLeftNone(a, s, x);
      DepartedNone(a, a, s);
      UnhookedNone(a, a, s);
      a
    else
      var a1 := RemoveSceneKids(a, s, x, n - 1);
      KidOutReady(a, a1, s, x, n);
      var b := RemoveEntity(a1, s, a.children[x][n - 1]);
      KidsLeftStep(a, a1, b, s, x, n);
      DepartCompose(a, a1, b, s);
      UnhookTrans(a, a1, b, s);
      b
  }

  // ---------------------------------------------------------------------------
  // Composition of the steps: adding

  lemma FrameTrans(a: Arena, b: Arena, c: Arena)
    requires Frame(a, b) && Frame(b, c)
    ensures Frame(a, c)
  {
  }

  lemma KeptTrans(a: Arena, b: Arena, c: Arena)
    requires Frame(a, b) && Kept(a, b) && Kept(b, c)
    ensures Kept(a, c)
  {
  }

  /** Keeping everything but `x` in the middle of two changes that keep
      everything, and ending with `x` consistent (and listed) if it was, keeps all. */
  lemma KeptAround(a: Arena, b: Arena, c: Arena, d: Arena, x: EntityRef)
    requires Frame(a, b) && Frame(b, c) && Kept(a, b) && KeptExcept(b, c, Some(x)) && Kept(c, d)
    requires x < |a.ents| && (Good(a, x) ==> Good(d, x)) && (OnList(a, x) ==> OnList(d, x))
    ensures Kept(a, d)
  {
  }

  lemma StaysTrans(a: Arena, b: Arena, c: Arena, s: SceneRef)
    requires |b.ents| == |a.ents| && |c.ents| == |a.ents| && StaysIn(a, b, s) && StaysIn(b, c, s)
    ensures StaysIn(a, c, s)
  {
  }

  lemma LeavesTrans(a: Arena, b: Arena, c: Arena, s: SceneRef)
    requires |b.ents| == |a.ents| && |c.ents| == |a.ents| && LeavesOnly(a, b, s) && LeavesOnly(b, c, s)
    ensures LeavesOnly(a, c, s)
  {
  }

  lemma OutsideTrans(a: Arena, b: Arena, c: Arena, m: set<EntityRef>, m': set<EntityRef>)
    requires |b.ents| == |a.ents| && |c.ents| == |a.ents| && ScenesOutside(a, b, m) && ScenesOutside(b, c, m')
    ensures ScenesOutside(a, c, m + m')
  {
  }

  lemma ClosedTrans(a: Arena, b: Arena, c: Arena, s: SceneRef)
    requires |b.ents| == |a.ents| && |c.ents| == |a.ents| && c.children == b.children
    requires NewClosed(a, b, s) && StaysIn(b, c, s) && NewClosed(b, c, s)
    ensures NewClosed(a, c, s)
  {
    forall y | 0 <= y < |a.ents| && y < |c.ents| && a.ents[y].scene != Some(s) && c.ents[y].scene == Some(s)
      ensures ClosedAt(c, s, y)
    {
      if b.ents[y].scene == Some(s) {
        assert ClosedAt(b, s, y);
      }
    }
  }

  lemma OpenTrans(a: Arena, b: Arena, c: Arena, s: SceneRef)
    requires |b.ents| == |a.ents| && |c.ents| == |a.ents| && c.children == b.children
    requires NewOpen(a, b, s) && LeavesOnly(b, c, s) && NewOpen(b, c, s)
    ensures NewOpen(a, c, s)
  {
    forall y | 0 <= y < |a.ents| && y < |c.ents| && a.ents[y].scene == Some(s) && c.ents[y].scene != Some(s)
      ensures OpenAt(c, s, y)
    {
      if b.ents[y].scene != Some(s) {
        assert OpenAt(b, s, y);
      }
    }
  }

  lemma ListKeptTrans(a: Arena, b: Arena, c: Arena, s: SceneRef, m: set<EntityRef>, m': set<EntityRef>)
    requires ListKept(a, b, s, m) && ListKept(b, c, s, m')
    ensures ListKept(a, c, s, m + m')
  {
  }

  lemma ListsTrans(a: Arena, b: Arena, c: Arena, s: SceneRef)
    requires Shrinks(a, b, s) && OtherListsSame(a, b, s) && Shrinks(b, c, s) && OtherListsSame(b, c, s)
    ensures Shrinks(a, c, s) && OtherListsSame(a, c, s)
  {
  }

  /** A change of entity lists alone that keeps them in agreement with the
      entities keeps the arena well-formed. */
  lemma ListsOnlyWellFormed(a: Arena, b: Arena)
    requires WellFormed(a) && b == a.(scenes := b.scenes) && |b.scenes| == |a.scenes|
    requires forall t :: 0 <= t < |a.scenes| ==> b.scenes[t] == a.scenes[t].(entities := b.scenes[t].entities)
    requires ListsAgree(b.ents, b.scenes)
    ensures WellFormed(b) && Frame(a, b)
  {
    forall t | 0 <= t < |b.scenes| ensures ManagersAgree(b.scenes[t], b.mgrs, t) {
      assert ManagersAgree(a.scenes[t], a.mgrs, t);
    }
  }

  /** So does a change of one scene back-reference that keeps them in agreement. */
  lemma SceneOnlyWellFormed(a: Arena, x: EntityRef, v: Option<SceneRef>)
    requires WellFormed(a) && x < |a.ents| && (v.Some? ==> v.value < |a.scenes|)
    requires ListsAgree(WithScene(a, x, v).ents, a.scenes)
    ensures WellFormed(WithScene(a, x, v)) && Frame(a, WithScene(a, x, v))
  {
  }

  /** The first `n` children of `x` with their descendants are the first
      `n - 1` with theirs, plus the subtree of child `n - 1`. */
  lemma KidsDescStep(a: Arena, x: EntityRef, n: nat)
    requires WellFormed(a) && x < |a.children| && 0 < n <= |a.children[x]|
    ensures KidsDesc(a, x, n) == KidsDesc(a, x, n - 1) + Sub(a.children, a.rank, a.children[x][n - 1])
  {
    ChildrenBelow(a.children, a.rank, x);
    assert a.children[x][..n][..n - 1] == a.children[x][..n - 1];
  }

  lemma AddedSame(a: Arena, s: SceneRef, x: EntityRef)
    requires AddReady(a, s, x) && a.ents[x].scene == Some(s)
    ensures Added(a, a, s, x)
  {
  }

  /** A consistent subtree is removable from the scene its root records. */
  lemma GoodRemovable(a: Arena, t: Option<SceneRef>, x: EntityRef)
    requires Good(a, x) && DescGood(a, x) && t == a.ents[x].scene
    ensures t.Some? ==> RemoveReady(a, t.value, x)
  {
  }

  /** Removal steps keep the removable entities outside `ex` removable: a
      consistent one stays consistent, and a cleared one is either still
      listed by `s` alone or on no list at all. */
  lemma RemovableKept(a: Arena, b: Arena, s: SceneRef, ex: Option<EntityRef>, m: set<EntityRef>)
    requires Frame(a, b) && KeptExcept(a, b, ex) && LeavesOnly(a, b, s) && Shrinks(a, b, s) && OtherListsSame(a, b, s)
    requires forall y :: y in m ==> Some(y) != ex && Removable(a, s, y)
    ensures forall y :: y in m ==> Removable(b, s, y)
  {
    forall y | y in m ensures Removable(b, s, y) {
      if !Good(a, y) {
        assert b.ents[y].scene == None;
        if y !in b.scenes[s].entities {
          assert Listed(b.ents, b.scenes, y);
        }
      }
    }
  }

  /** `x` out of any scene but `s`, and still listed as having none. */
  ghost predicate Outed(a: Arena, a1: Arena, s: SceneRef, x: EntityRef)
  {
    WellFormed(a) && s < |a.scenes| && x < |a.ents| && Frame(a, a1) && Kept(a, a1) &&
    a1.ents[x].scene == None && OnList(a1, x) && a1.scenes[s].entities == a.scenes[s].entities &&
    StaysIn(a, a1, s) && NewClosed(a, a1, s) && ScenesOutside(a, a1, Sub(a.children, a.rank, x)) &&
    DescGood(a1, x)
  }

  /** Leaving another scene first moves nothing into or out of `s`. */
  lemma LeftOther(a: Arena, a1: Arena, s: SceneRef, x: EntityRef)
    requires AddReady(a, s, x) && a.ents[x].scene != Some(s)
    requires a.ents[x].scene == None ==> a1 == a
    requires a.ents[x].scene.Some? ==> a.ents[x].scene.value < |a.scenes| && Removed(a, a1, a.ents[x].scene.value, x)
    ensures Outed(a, a1, s, x)
  {
    if a.ents[x].scene.Some? {
      var t := a.ents[x].scene.value;
      assert x in a.scenes[t].entities;
    }
  }

  lemma PushAgree(a1: Arena, s: SceneRef, x: EntityRef)
    requires WellFormed(a1) && s < |a1.scenes| && x < |a1.ents| && a1.ents[x].scene == None
    requires x !in a1.scenes[s].entities
    ensures WellFormed(Push(a1, s, x)) && Frame(a1, Push(a1, s, x))
  {
    var a2 := Push(a1, s, x);
    assert ListsAgree(a2.ents, a2.scenes);
    ListsOnlyWellFormed(a1, a2);
  }

  lemma PushKept(a1: Arena, s: SceneRef, x: EntityRef)
    requires WellFormed(a1) && s < |a1.scenes| && x < |a1.ents|
    ensures KeptExcept(a1, Push(a1, s, x), Some(x))
  {
    var a2 := Push(a1, s, x);
    forall y: EntityRef | y < |a1.ents| && Some(y) != Some(x) && OnList(a1, y) ensures OnList(a2, y) {
    }
  }

  lemma PushReady(a: Arena, a1: Arena, s: SceneRef, x: EntityRef)
    requires Outed(a, a1, s, x)
    ensures Entering(Push(a1, s, x), s, x)
    ensures Frame(a1, Push(a1, s, x)) && KeptExcept(a1, Push(a1, s, x), Some(x))
  {
    assert x !in a1.scenes[s].entities;
    if x in Desc(a1.children, a1.rank, x) {
      DescRank(a1.children, a1.rank, x, x);
    }
    PushAgree(a1, s, x);
    PushKept(a1, s, x);
  }

  lemma AddCompose(a: Arena, a1: Arena, b: Arena, s: SceneRef, x: EntityRef)
    requires AddReady(a, s, x) && a.ents[x].scene != Some(s) && Outed(a, a1, s, x)
    requires Frame(a1, Push(a1, s, x)) && KeptExcept(a1, Push(a1, s, x), Some(x))
    requires Entered(Push(a1, s, x), b, s, x)
    ensures Added(a, b, s, x)
  {
    var a2 := Push(a1, s, x);
    FrameTrans(a, a1, a2);
    FrameTrans(a, a2, b);
    KeptAround(a, a1, a2, b, x);
    StaysTrans(a, a1, a2, s);
    StaysTrans(a, a2, b, s);
    ClosedTrans(a, a1, a2, s);
    ClosedTrans(a, a2, b, s);
    OutsideTrans(a, a1, a2, Sub(a.children, a.rank, x), {});
    OutsideTrans(a, a2, b, Sub(a.children, a.rank, x), Sub(a.children, a.rank, x));
    assert a2.scenes[s].entities == a.scenes[s].entities + [x];
  }

  /** `x` now records `s`; nothing else changed. */
  ghost predicate SelfEntered(a: Arena, a1: Arena, s: SceneRef, x: EntityRef)
  {
    Frame(a, a1) && Kept(a, a1) && StaysIn(a, a1, s) && ScenesOutside(a, a1, {x}) && a1.scenes == a.scenes
  }

  lemma EnterStep(a: Arena, s: SceneRef, x: EntityRef)
    requires Entering(a, s, x)
    ensures KidsEntering(WithScene(a, x, Some(s)), s, x, |a.children[x]|)
    ensures SelfEntered(a, WithScene(a, x, Some(s)), s, x)
  {
    var a1 := WithScene(a, x, Some(s));
    assert ListsAgree(a1.ents, a1.scenes);
    SceneOnlyWellFormed(a, x, Some(s));
    assert x in a.scenes[s].entities;
    assert !OnList(a, x) && !Good(a, x);
    EnterKept(a, s, x);
  }

  lemma EnterKept(a: Arena, s: SceneRef, x: EntityRef)
    requires WellFormed(a) && x < |a.ents| && !OnList(a, x) && !Good(a, x)
    ensures Kept(a, WithScene(a, x, Some(s)))
  {
    var a1 := WithScene(a, x, Some(s));
    forall y: EntityRef | y < |a.ents| && OnList(a, y) ensures OnList(a1, y) {
      assert y != x;
    }
  }

  lemma RegReady(a1: Arena, a2: Arena, s: SceneRef, x: EntityRef)
    requires x < |a1.children| && KidsEntered(a1, a2, s, x, |a1.children[x]|)
    ensures var cs := CompsOf(a2.ents[x].components); forall i :: 0 <= i < |cs| ==> cs[i] < |a2.comps|
  {
    CompsOfOwned(a2.ents, a2.comps, a2.owner, x);
  }

  /** Registration changes no scene and no entity list. */
  lemma JoinedKeeps(a2: Arena, b: Arena, s: SceneRef, cs: seq<CompRef>)
    requires WellFormed(a2) && WellFormed(b) && Joined(a2, b, s, cs)
    ensures Frame(a2, b) && Kept(a2, b) && b.ents == a2.ents && b.children == a2.children && b.rank == a2.rank
    ensures forall u :: 0 <= u < |a2.scenes| ==> b.scenes[u].entities == a2.scenes[u].entities
  {
    forall y: EntityRef | y < |a2.ents| && OnList(a2, y) ensures OnList(b, y) {
      if a2.ents[y].scene.Some? {
        assert b.scenes[a2.ents[y].scene.value].entities == a2.scenes[a2.ents[y].scene.value].entities;
      }
    }
  }

  /** Once its components are registered, a listed `x` is consistent. */
  lemma JoinedGood(a2: Arena, b: Arena, s: SceneRef, x: EntityRef)
    requires WellFormed(a2) && x < |a2.ents| && OnList(a2, x) && a2.ents[x].scene == Some(s)
    requires Joined(a2, b, s, CompsOf(a2.ents[x].components))
    ensures Good(b, x)
  {
    var cs := CompsOf(a2.ents[x].components);
    assert b.scenes[s].entities == a2.scenes[s].entities;
    forall t | t in b.ents[x].components
      ensures Registered(b.scenes, b.comps, b.mgrs, s, b.ents[x].components[t])
    {
      assert b.ents[x].components[t] in cs;
    }
  }

  /** `x` enters with all its children; whatever else enters did so in the children loop. */
  lemma SetClosed(a: Arena, a2: Arena, b: Arena, s: SceneRef, x: EntityRef)
    requires x < |a.ents| && x < |a.children| && a.ents[x].scene == None
    requires Frame(WithScene(a, x, Some(s)), a2) && NewClosed(WithScene(a, x, Some(s)), a2, s)
    requires forall i :: 0 <= i < |a.children[x]| ==> a2.ents[a.children[x][i]].scene == Some(s)
    requires b.ents == a2.ents && b.children == a2.children
    ensures NewClosed(a, b, s)
  {
    var a1 := WithScene(a, x, Some(s));
    forall y | 0 <= y < |a.ents| && y < |b.ents| && a.ents[y].scene != Some(s) && b.ents[y].scene == Some(s)
      ensures ClosedAt(b, s, y)
    {
      if y != x {
        assert a1.ents[y].scene == a.ents[y].scene;
        assert ClosedAt(a2, s, y);
      }
    }
  }

  lemma SetCompose(a: Arena, a2: Arena, b: Arena, s: SceneRef, x: EntityRef)
    requires Entering(a, s, x) && SelfEntered(a, WithScene(a, x, Some(s)), s, x)
    requires KidsEntered(WithScene(a, x, Some(s)), a2, s, x, |a.children[x]|)
    requires WellFormed(b) && Joined(a2, b, s, CompsOf(a2.ents[x].components))
    ensures Entered(a, b, s, x)
  {
    var a1 := WithScene(a, x, Some(s));
    JoinedKeeps(a2, b, s, CompsOf(a2.ents[x].components));
    JoinedGood(a2, b, s, x);
    SetClosed(a, a2, b, s, x);
    FrameTrans(a, a1, a2);
    FrameTrans(a, a2, b);
    KeptTrans(a, a1, a2);
    KeptTrans(a, a2, b);
  }

  lemma KidsEnteredNone(a: Arena, s: SceneRef, x: EntityRef)
    requires KidsEntering(a, s, x, 0)
    ensures KidsEntered(a, a, s, x, 0)
  {
  }

  lemma KidReady(a: Arena, a1: Arena, s: SceneRef, x: EntityRef, n: nat)
    requires KidsEntering(a, s, x, n) && n > 0 && KidsEntered(a, a1, s, x, n - 1)
    ensures a.children[x][n - 1] < |a1.ents| && AddReady(a1, s, a.children[x][n - 1])
    ensures a1.rank[a.children[x][n - 1]] < a.rank[x]
  {
    var c := a.children[x][n - 1];
    KidInDesc(a, x, c);
  }

  /** A child of `x`, and every descendant of it, descends from `x`. */
  lemma KidInDesc(a: Arena, x: EntityRef, c: EntityRef)
    requires WellFormed(a) && x < |a.children| && c in a.children[x]
    ensures c < |a.children| && Sub(a.children, a.rank, c) <= Desc(a.children, a.rank, x)
  {
    ChildrenBelow(a.children, a.rank, x);
    KidsInDescOf(a.children, a.rank, a.children[x], a.rank[x], c);
    DescTrans(a.children, a.rank, x, c);
  }

  lemma KidsEnteredStep(a: Arena, a1: Arena, b: Arena, s: SceneRef, x: EntityRef, n: nat)
    requires KidsEntering(a, s, x, n) && n > 0 && KidsEntered(a, a1, s, x, n - 1)
    requires a.children[x][n - 1] < |a1.ents| && Added(a1, b, s, a.children[x][n - 1])
    ensures KidsEntered(a, b, s, x, n)
  {
    FrameTrans(a, a1, b);
    KeptTrans(a, a1, b);
    KidsDescStep(a, x, n);
    StaysTrans(a, a1, b, s);
    ClosedTrans(a, a1, b, s);
    OutsideTrans(a, a1, b, KidsDesc(a, x, n - 1), Sub(a.children, a.rank, a.children[x][n - 1]));
  }

  // ---------------------------------------------------------------------------
  // Composition of the steps: removing

  lemma RemovedSame(a: Arena, s: SceneRef, x: EntityRef)
    requires RemoveReady(a, s, x) && x !in a.scenes[s].entities
    ensures Removed(a, a, s, x)
  {
  }

  /** `x` is off the list of `s`; nothing else changed. */
  ghost predicate Unlisted(a: Arena, a1: Arena, s: SceneRef, x: EntityRef)
  {
    Frame(a, a1) && KeptExcept(a, a1, Some(x)) && a1.ents == a.ents &&
    Shrinks(a, a1, s) && OtherListsSame(a, a1, s) && ListKept(a, a1, s, {x})
  }

  lemma UnlistAgree(a: Arena, s: SceneRef, x: EntityRef)
    requires WellFormed(a) && s < |a.scenes|
    ensures WellFormed(Unlist(a, s, x)) && Frame(a, Unlist(a, s, x))
    ensures x !in Unlist(a, s, x).scenes[s].entities
  {
    var a1 := Unlist(a, s, x);
    var l := a.scenes[s].entities;
    RemoveFirstNoDup(l, x);
    forall y | y in RemoveFirst(l, x) ensures y in l {
      RemoveFirstSubset(l, x, y);
    }
    assert ListsAgree(a1.ents, a1.scenes);
    ListsOnlyWellFormed(a, a1);
  }

  lemma UnlistKept(a: Arena, s: SceneRef, x: EntityRef)
    requires WellFormed(a) && s < |a.scenes|
    ensures KeptExcept(a, Unlist(a, s, x), Some(x)) && ListKept(a, Unlist(a, s, x), s, {x})
  {
    var a1 := Unlist(a, s, x);
    forall y | y in a.scenes[s].entities && y !in {x} ensures y in a1.scenes[s].entities {
      RemoveFirstOthers(a.scenes[s].entities, x, y);
    }
    forall y: EntityRef | y < |a.ents| && Some(y) != Some(x) && OnList(a, y) ensures OnList(a1, y) {
      RemoveFirstOthers(a.scenes[s].entities, x, y);
      if a.ents[y].scene.None? {
        forall u | 0 <= u < |a1.scenes| ensures y !in a1.scenes[u].entities {
          if u == s {
            RemoveFirstOthers(a.scenes[s].entities, x, y);
          }
        }
      }
    }
    forall y: EntityRef | y < |a.ents| && Some(y) != Some(x) && Good(a, y) ensures Good(a1, y) {
      assert OnList(a, y);
    }
  }

  lemma UnlistStep(a: Arena, s: SceneRef, x: EntityRef)
    requires RemoveReady(a, s, x) && x in a.scenes[s].entities
    ensures Leaving(Unlist(a, s, x), s, x) && Unlisted(a, Unlist(a, s, x), s, x)
    ensures RegisteredAll(a.ents, a.scenes, a.comps, a.mgrs, x)
  {
    var a1 := Unlist(a, s, x);
    UnlistAgree(a, s, x);
    UnlistKept(a, s, x);
    assert x in Sub(a.children, a.rank, x);
    if Good(a, x) {
      var i :| 0 <= i < |a.scenes[s].entities| && a.scenes[s].entities[i] == x;
      assert a.ents[x].scene == Some(s);
      OnlyListedIn(a, s, x);
    }
    forall y | y in Desc(a.children, a.rank, x) ensures Some(y) != Some(x) && Removable(a, s, y) {
      DescRank(a.children, a.rank, x, y);
    }
    RemovableKept(a, a1, s, Some(x), Desc(a.children, a.rank, x));
  }

  lemma RemoveCompose(a: Arena, b: Arena, s: SceneRef, x: EntityRef)
    requires RemoveReady(a, s, x) && x in a.scenes[s].entities && Unlisted(a, Unlist(a, s, x), s, x)
    requires Left(Unlist(a, s, x), b, s, x)
    ensures Removed(a, b, s, x)
  {
    var a1 := Unlist(a, s, x);
    FrameTrans(a, a1, b);
    ListKeptTrans(a, a1, b, s, {x}, Desc(a.children, a.rank, x));
  }

  lemma UnregReady(a: Arena, s: SceneRef, x: EntityRef)
    requires Leaving(a, s, x) && RegisteredAll(a.ents, a.scenes, a.comps, a.mgrs, x)
    ensures var cs := CompsOf(a.ents[x].components);
      NoDup(cs) && forall i :: 0 <= i < |cs| ==> Registered(a.scenes, a.comps, a.mgrs, s, cs[i]) && a.owner[cs[i]] == Some(x)
  {
    var m := a.ents[x].components;
    var cs := CompsOf(m);
    CompsOfOwned(a.ents, a.comps, a.owner, x);
    forall i | 0 <= i < |cs| ensures Registered(a.scenes, a.comps, a.mgrs, s, cs[i]) {
      assert cs[i] in m.Values;
      var t :| t in m && m[t] == cs[i];
    }
  }

  /** The components of `x` have left the managers; the entities and their
      lists are as they were. */
  ghost predicate Quiet(a: Arena, a1: Arena)
  {
    Frame(a, a1) && Kept(a, a1) && a1.ents == a.ents &&
    forall u :: 0 <= u < |a.scenes| ==> a1.scenes[u].entities == a.scenes[u].entities
  }

  lemma UnregFrame(a: Arena, a1: Arena, cs: seq<CompRef>, x: EntityRef)
    requires WellFormed(a) && WellFormed(a1) && Unregistered(a, a1, cs, x)
    ensures Frame(a, a1) && a1.ents == a.ents && a1.children == a.children && a1.rank == a.rank
    ensures forall u :: 0 <= u < |a.scenes| ==> a1.scenes[u].entities == a.scenes[u].entities
  {
  }

  lemma UnregDone(a: Arena, a1: Arena, s: SceneRef, x: EntityRef, cs: seq<CompRef>)
    requires Leaving(a, s, x) && WellFormed(a1) && Unregistered(a, a1, cs, x)
    ensures Leaving(a1, s, x) && Quiet(a, a1)
  {
    UnregFrame(a, a1, cs, x);
    if a.ents[x].scene.Some? {
      assert !Good(a, x);
    } else {
      assert Listed(a1.ents, a1.scenes, x);
    }
    forall y: EntityRef | y < |a.ents| && OnList(a, y) ensures OnList(a1, y) {
      if a.ents[y].scene.Some? {
        assert a1.scenes[a.ents[y].scene.value].entities == a.scenes[a.ents[y].scene.value].entities;
      }
    }
    RemovableKept(a, a1, s, None, Desc(a.children, a.rank, x));
  }

  lemma KidsLeftNone(a: Arena, s: SceneRef, x: EntityRef)
    requires Leaving(a, s, x)
    ensures KidsLeft(a, a, s, x, 0)
  {
  }

  lemma KidOutReady(a: Arena, a1: Arena, s: SceneRef, x: EntityRef, n: nat)
    requires Leaving(a, s, x) && 0 < n <= |a.children[x]| && KidsLeft(a, a1, s, x, n - 1)
    ensures a.children[x][n - 1] < |a1.ents| && RemoveReady(a1, s, a.children[x][n - 1])
    ensures a1.rank[a.children[x][n - 1]] < a.rank[x]
  {
    var c := a.children[x][n - 1];
    KidInDesc(a, x, c);
    RemovableKept(a, a1, s, None, Sub(a.children, a.rank, c));
  }

  lemma KidsLeftStep(a: Arena, a1: Arena, b: Arena, s: SceneRef, x: EntityRef, n: nat)
    requires Leaving(a, s, x) && 0 < n <= |a.children[x]| && KidsLeft(a, a1, s, x, n - 1)
    requires a.children[x][n - 1] < |a1.ents| && RemoveReady(a1, s, a.children[x][n - 1])
    requires Removed(a1, b, s, a.children[x][n - 1])
    ensures KidsLeft(a, b, s, x, n)
  {
    var c := a.children[x][n - 1];
    FrameTrans(a, a1, b);
    KeptTrans(a, a1, b);
    KidsDescStep(a, x, n);
    if x in Sub(a.children, a.rank, c) {
      DescRank(a.children, a.rank, c, x);
    }
    LeavesTrans(a, a1, b, s);
    OpenTrans(a, a1, b, s);
    OutsideTrans(a, a1, b, KidsDesc(a, x, n - 1), Sub(a.children, a.rank, c));
    ListsTrans(a, a1, b, s);
    ListKeptTrans(a, a1, b, s, KidsDesc(a, x, n - 1), Sub(a.children, a.rank, c));
    KidOut(a1, b, s, c);
    StillUnlisted(a1, b, s, x);
    KidsOut(a, a1, b, s, x, n);
  }

  lemma StillUnlisted(a1: Arena, b: Arena, s: SceneRef, x: EntityRef)
    requires Shrinks(a1, b, s) && OtherListsSame(a1, b, s)
    requires forall u :: 0 <= u < |a1.scenes| ==> x !in a1.scenes[u].entities
    ensures forall u :: 0 <= u < |b.scenes| ==> x !in b.scenes[u].entities
  {
  }

  lemma KidsOut(a: Arena, a1: Arena, b: Arena, s: SceneRef, x: EntityRef, n: nat)
    requires x < |a.children| && 0 < n <= |a.children[x]| && |a1.ents| == |b.ents| && LeavesOnly(a1, b, s)
    requires forall i :: 0 <= i < n ==> a.children[x][i] < |a1.ents|
    requires forall i :: 0 <= i < n - 1 ==> a1.ents[a.children[x][i]].scene != Some(s)
    requires b.ents[a.children[x][n - 1]].scene != Some(s)
    ensures forall i :: 0 <= i < n ==> b.ents[a.children[x][i]].scene != Some(s)
  {
  }

  /** A removed entity is out of `s`. */
  lemma KidOut(a1: Arena, b: Arena, s: SceneRef, c: EntityRef)
    requires RemoveReady(a1, s, c) && Removed(a1, b, s, c)
    ensures b.ents[c].scene != Some(s)
  {
    assert c in Sub(a1.children, a1.rank, c);
    if Good(a1, c) {
      assert OnList(a1, c);
    }
  }

  /** `x`, unlisted, drops its scene (if it still had one). */
  lemma UnsceneStep(a2: Arena, s: SceneRef, x: EntityRef)
    requires WellFormed(a2) && s < |a2.scenes| && x < |a2.ents|
    requires a2.ents[x].scene == Some(s) || a2.ents[x].scene == None
    requires forall u :: 0 <= u < |a2.scenes| ==> x !in a2.scenes[u].entities
    ensures WellFormed(WithScene(a2, x, None)) && Frame(a2, WithScene(a2, x, None))
    ensures KeptExcept(a2, WithScene(a2, x, None), Some(x)) && Good(WithScene(a2, x, None), x)
    ensures LeavesOnly(a2, WithScene(a2, x, None), s) && ScenesOutside(a2, WithScene(a2, x, None), {x})
  {
    var b := WithScene(a2, x, None);
    assert ListsAgree(b.ents, b.scenes);
    SceneOnlyWellFormed(a2, x, None);
  }

  /** `x` leaves with none of its children in `s`. */
  lemma UnsceneOpen(a1: Arena, a2: Arena, s: SceneRef, x: EntityRef)
    requires WellFormed(a1) && x < |a1.ents| && Frame(a1, a2) && NewOpen(a1, a2, s)
    requires forall i :: 0 <= i < |a1.children[x]| ==> a2.ents[a1.children[x][i]].scene != Some(s)
    ensures NewOpen(a1, WithScene(a2, x, None), s)
  {
    var b := WithScene(a2, x, None);
    forall y | 0 <= y < |a1.ents| && y < |b.ents| && a1.ents[y].scene == Some(s) && b.ents[y].scene != Some(s)
      ensures OpenAt(b, s, y)
    {
      if y != x {
        assert OpenAt(a2, s, y);
      }
    }
  }

  /** What holds from `a1` on holds from `a` when the two have the same entities and lists. */
  lemma FromQuiet(a: Arena, a1: Arena, b: Arena, s: SceneRef, m: set<EntityRef>, m': set<EntityRef>)
    requires a1.ents == a.ents && |a1.scenes| == |a.scenes|
    requires forall u :: 0 <= u < |a.scenes| ==> a1.scenes[u].entities == a.scenes[u].entities
    requires LeavesOnly(a1, b, s) && NewOpen(a1, b, s) && Shrinks(a1, b, s) && OtherListsSame(a1, b, s)
    requires ScenesOutside(a1, b, m) && ListKept(a1, b, s, m')
    ensures LeavesOnly(a, b, s) && NewOpen(a, b, s) && Shrinks(a, b, s) && OtherListsSame(a, b, s)
    ensures ScenesOutside(a, b, m) && ListKept(a, b, s, m')
  {
  }

  lemma LeaveCompose(a: Arena, a1: Arena, a2: Arena, s: SceneRef, x: EntityRef)
    requires Leaving(a, s, x) && Quiet(a, a1) && KidsLeft(a1, a2, s, x, |a.children[x]|)
    ensures Left(a, WithScene(a2, x, None), s, x)
  {
    var b := WithScene(a2, x, None);
    UnsceneStep(a2, s, x);
    UnsceneOpen(a1, a2, s, x);
    FrameTrans(a, a1, a2);
    FrameTrans(a, a2, b);
    if a.ents[x].scene.Some? {
      assert !Good(a, x) && !OnList(a, x);
    }
    KeptTrans(a, a1, a2);
    KeptAround(a, a2, b, b, x);
    LeavesTrans(a1, a2, b, s);
    ListsTrans(a1, a2, b, s);
    ListKeptTrans(a1, a2, b, s, Desc(a.children, a.rank, x), {});
    OutsideTrans(a1, a2, b, Desc(a.children, a.rank, x), {x});
    FromQuiet(a, a1, b, s, Desc(a.children, a.rank, x) + {x}, Desc(a.children, a.rank, x) + {});
  }

  // ---------------------------------------------------------------------------
  // What becomes of a whole subtree

  /** Every entity of scene `s` has all its children in `s`. */
  ghost predicate ClosedScene(a: Arena, s: SceneRef)
  {
    forall y :: 0 <= y < |a.ents| && y < |a.children| ==> ClosedAt(a, s, y)
  }

  /** A change that keeps `s` and closes whatever enters `s` keeps `s`
      closed, and whatever of `x` in `s` then has its whole subtree in `s`. */
  lemma ClosedSubtree(a: Arena, b: Arena, s: SceneRef, x: EntityRef)
    requires WellFormed(a) && x < |a.ents| && |b.ents| == |a.ents| && b.children == a.children
    requires StaysIn(a, b, s) && NewClosed(a, b, s) && ClosedScene(a, s) && b.ents[x].scene == Some(s)
    ensures ClosedScene(b, s)
    ensures forall y :: y in Sub(a.children, a.rank, x) ==> y < |b.ents| && b.ents[y].scene == Some(s)
  {
    forall y | 0 <= y < |b.ents| && y < |b.children| ensures ClosedAt(b, s, y) {
      if a.ents[y].scene == Some(s) {
        assert ClosedAt(a, s, y);
      }
    }
    var m := set y | 0 <= y < |b.ents| && b.ents[y].scene == Some(s);
    forall y, i | y < |b.children| && y in m && 0 <= i < |b.children[y]| ensures b.children[y][i] in m {
      assert ClosedAt(b, s, y);
    }
    ClosedContainsDesc(a.children, a.rank, m, x);
  }

  /** When the subtree of `x` was all in `s`, a change that moves only that
      subtree, only out of `s`, opens whatever leaves `s`, and takes `x` out,
      takes out the whole subtree. */
  lemma OpenSubtree(a: Arena, b: Arena, s: SceneRef, x: EntityRef)
    requires WellFormed(a) && x < |a.ents| && |b.ents| == |a.ents| && b.children == a.children
    requires LeavesOnly(a, b, s) && NewOpen(a, b, s) && ScenesOutside(a, b, Sub(a.children, a.rank, x))
    requires forall y :: y in Sub(a.children, a.rank, x) ==> y < |a.ents| && a.ents[y].scene == Some(s)
    requires b.ents[x].scene == None
    ensures forall y :: y in Sub(a.children, a.rank, x) ==> y < |b.ents| && b.ents[y].scene == None
  {
    var sub := Sub(a.children, a.rank, x);
    var m := set y | 0 <= y < |a.ents| && a.ents[y].scene == Some(s) && b.ents[y].scene == None;
    forall y, i | y < |a.children| && y in m && 0 <= i < |a.children[y]| ensures a.children[y][i] in m {
      assert OpenAt(b, s, y);
      assert y in sub;
      ChildOfSub(a.children, a.rank, x, y, a.children[y][i]);
    }
    ClosedContainsDesc(a.children, a.rank, m, x);
  }

  /** When scene membership was inherited down the tree in `s`, it still is
      after `Scene::add_entity(s, x)`, and the whole subtree of `x` is in `s`. */
  lemma AddEntityClosed(a: Arena, s: SceneRef, x: EntityRef)
    requires AddReady(a, s, x) && ClosedScene(a, s)
    ensures var b := AddEntity(a, s, x);
      ClosedScene(b, s) && forall y :: y in Sub(a.children, a.rank, x) ==> y < |b.ents| && b.ents[y].scene == Some(s)
  {
    ClosedSubtree(a, AddEntity(a, s, x), s, x);
  }

  /** When the whole subtree of `x` is in `s`, `Scene::remove_entity(s, x)`
      leaves every entity of it with no scene. */
  lemma RemoveEntityOpen(a: Arena, s: SceneRef, x: EntityRef)
    requires RemoveReady(a, s, x) && x in a.scenes[s].entities
    requires forall y :: y in Sub(a.children, a.rank, x) ==> y < |a.ents| && a.ents[y].scene == Some(s)
    ensures var b := RemoveEntity(a, s, x);
      forall y :: y in Sub(a.children, a.rank, x) ==> y < |b.ents| && b.ents[y].scene == None
  {
    OpenSubtree(a, RemoveEntity(a, s, x), s, x);
  }

  /** `Scene::remove_entity(s, x)` right after `Scene::add_entity(s, x)` takes
      the whole subtree of `x`, consistent to begin with, out of every scene. */
  lemma AddThenRemove(a: Arena, s: SceneRef, x: EntityRef)
    requires s < |a.scenes| && Good(a, x) && DescGood(a, x) && ClosedScene(a, s)
    ensures RemoveReady(AddEntity(a, s, x), s, x)
    ensures var c := RemoveEntity(AddEntity(a, s, x), s, x);
      forall y :: y in Sub(a.children, a.rank, x) ==> y < |c.ents| && c.ents[y].scene == None
  {
    var b := AddEntity(a, s, x);
    AddedReady(a, b, s, x);
    AddEntityClosed(a, s, x);
    RemoveEntityOpen(b, s, x);
  }

  /** A subtree consistent before `Scene::add_entity` is consistent after it,
      and so removable from `s`. */
  lemma AddedReady(a: Arena, b: Arena, s: SceneRef, x: EntityRef)
    requires Good(a, x) && DescGood(a, x) && Added(a, b, s, x)
    ensures Good(b, x) && DescGood(b, x) && RemoveReady(b, s, x)
    ensures x in b.scenes[s].entities && b.children == a.children && b.rank == a.rank
  {
  }

  /** After `Scene::add_entity(s, x)`, `s` is the one scene that lists `x`,
      unless `x` was in `s` already without being consistent. */
  lemma AddEntityListed(a: Arena, s: SceneRef, x: EntityRef)
    requires AddReady(a, s, x)
    ensures var b := AddEntity(a, s, x);
      a.ents[x].scene != Some(s) || Good(a, x) ==>
        forall u :: 0 <= u < |b.scenes| ==> (x in b.scenes[u].entities <==> u == s)
  {
    var b := AddEntity(a, s, x);
    if a.ents[x].scene != Some(s) || Good(a, x) {
      OnlyListedIn(b, s, x);
    }
  }

  /** An entity that records scene `s` and is listed there is on no other list. */
  lemma OnlyListedIn(b: Arena, s: SceneRef, x: EntityRef)
    requires ListsAgree(b.ents, b.scenes) && Listed(b.ents, b.scenes, x) && b.ents[x].scene == Some(s)
    ensures forall u :: 0 <= u < |b.scenes| ==> (x in b.scenes[u].entities <==> u == s)
  {
    forall u | 0 <= u < |b.scenes| && x in b.scenes[u].entities ensures u == s {
      var i :| 0 <= i < |b.scenes[u].entities| && b.scenes[u].entities[i] == x;
    }
  }

  /** `Scene::remove_entity(s, x)` of a listed `x` leaves it on no list; the
      other entries of the list of `s` stay unless they are under `x`. */
  lemma RemoveEntityUnlisted(a: Arena, s: SceneRef, x: EntityRef)
    requires RemoveReady(a, s, x) && x in a.scenes[s].entities
    ensures var b := RemoveEntity(a, s, x);
      (forall u :: 0 <= u < |b.scenes| ==> x !in b.scenes[u].entities) &&
      (forall y :: y in a.scenes[s].entities && y !in Sub(a.children, a.rank, x) ==> y in b.scenes[s].entities)
  {
    var b := RemoveEntity(a, s, x);
    assert Good(b, x);
  }

  // ---------------------------------------------------------------------------
  // Composition of the steps: manager members

  /** A step in which no entity changes scene and no manager changes takes
      nobody out of a manager. */
  lemma DepartedNone(a: Arena, a1: Arena, s: SceneRef)
    requires a1.ents == a.ents && a1.mgrs == a.mgrs && |a1.scenes| == |a.scenes|
    requires forall t :: 0 <= t < |a.scenes| ==>
      a1.scenes[t].managerMap == a.scenes[t].managerMap && a1.scenes[t].managerList == a.scenes[t].managerList
    ensures MembersLeave(a, a1, s, Departed(a, a1, s))
  {
    assert Departed(a, a1, s) == {};
    MembersNone(a, a1, s);
  }

  /** Taking `x` off an entity list changes nothing that decides what a
      later step takes out of the managers. */
  lemma UnlistMembers(a: Arena, s: SceneRef, x: EntityRef, b: Arena)
    requires s < |a.scenes|
    requires MembersLeave(Unlist(a, s, x), b, s, Departed(Unlist(a, s, x), b, s))
    ensures MembersLeave(a, b, s, Departed(a, b, s))
  {
    var a1 := Unlist(a, s, x);
    var m := Departed(a, b, s);
    assert Departed(a1, b, s) == m;
    forall q | 0 <= q < |a.mgrs| ensures Filed(a1, s, m, q) == Filed(a, s, m, q) {
      assert a1.scenes[s].managerMap == a.scenes[s].managerMap;
    }
  }

  /** What two removal steps take out of the managers adds up: an entity
      departs over both steps when it departs in exactly one of them. */
  lemma {:induction false} DepartCompose(a: Arena, a1: Arena, b: Arena, s: SceneRef)
    requires |a1.ents| == |a.ents| && |b.ents| == |a.ents| && a1.owner == a.owner && SameKinds(a.comps, a1.comps)
    requires LeavesOnly(a, a1, s) && LeavesOnly(a1, b, s)
    requires MembersLeave(a, a1, s, Departed(a, a1, s)) && MembersLeave(a1, b, s, Departed(a1, b, s))
    ensures MembersLeave(a, b, s, Departed(a, b, s))
  {
    DepartSplit(a, a1, b, s);
    MembersTrans(a, a1, b, s, Departed(a, a1, s), Departed(a1, b, s));
  }

  /** An entity departs over two removal steps when it departs in exactly one of them. */
  lemma DepartSplit(a: Arena, a1: Arena, b: Arena, s: SceneRef)
    requires |a1.ents| == |a.ents| && |b.ents| == |a.ents| && a1.owner == a.owner
    requires LeavesOnly(a, a1, s) && LeavesOnly(a1, b, s)
    ensures Departed(a, a1, s) !! Departed(a1, b, s)
    ensures Departed(a, b, s) == Departed(a, a1, s) + Departed(a1, b, s)
  {
  }

  /** A step in which no entity changes scene and no component changes
      unhooks nothing. */
  lemma UnhookedNone(a: Arena, a1: Arena, s: SceneRef)
    requires a1.ents == a.ents && a1.comps == a.comps
    ensures Unhooked(a, a1, s)
  {
    assert Departed(a, a1, s) == {};
  }

  /** Taking `x` off an entity list changes nothing that decides what a
      later step unhooks. */
  lemma UnlistUnhooked(a: Arena, s: SceneRef, x: EntityRef, b: Arena)
    requires s < |a.scenes| && Unhooked(Unlist(a, s, x), b, s)
    ensures Unhooked(a, b, s)
  {
    assert Departed(Unlist(a, s, x), b, s) == Departed(a, b, s);
  }

  /** What two removal steps unhook adds up. */
  lemma UnhookTrans(a: Arena, a1: Arena, b: Arena, s: SceneRef)
    requires |a1.ents| == |a.ents| && |b.ents| == |a.ents| && a1.owner == a.owner
    requires LeavesOnly(a, a1, s) && LeavesOnly(a1, b, s)
    requires Unhooked(a, a1, s) && Unhooked(a1, b, s)
    ensures Unhooked(a, b, s)
  {
    DepartSplit(a, a1, b, s);
  }

  /** `remove_scene(x)` takes out of the managers of `s` the components of
      `x` and those of every entity its children loop takes out of `s`. */
  lemma {:induction false} LeaveMembers(a: Arena, a1: Arena, a2: Arena, s: SceneRef, x: EntityRef)
    requires WellFormed(a) && x < |a.ents| && (a.ents[x].scene == Some(s) || a.ents[x].components == map[])
    requires a1.ents == a.ents && a1.owner == a.owner && SameKinds(a.comps, a1.comps)
    requires |a2.ents| == |a.ents| && a2.owner == a.owner && a2.ents[x].scene == a1.ents[x].scene
    requires MembersLeave(a, a1, s, Elems(CompsOf(a.ents[x].components)))
    requires MembersLeave(a1, a2, s, Departed(a1, a2, s))
    ensures MembersLeave(a, WithScene(a2, x, None), s, Departed(a, WithScene(a2, x, None), s))
  {
    var m := Elems(CompsOf(a.ents[x].components));
    LeaveDeparted(a, a1, a2, s, x);
    MembersTrans(a, a1, a2, s, m, Departed(a1, a2, s));
  }

  /** `remove_scene(x)` unhooks the components of `x` and those of every
      entity its children loop takes out of `s`. */
  lemma LeaveUnhooked(a: Arena, a1: Arena, a2: Arena, s: SceneRef, x: EntityRef)
    requires WellFormed(a) && x < |a.ents| && (a.ents[x].scene == Some(s) || a.ents[x].components == map[])
    requires Unregistered(a, a1, CompsOf(a.ents[x].components), x)
    requires |a2.ents| == |a.ents| && a2.owner == a.owner && a2.ents[x].scene == a1.ents[x].scene
    requires Unhooked(a1, a2, s)
    ensures Unhooked(a, WithScene(a2, x, None), s)
  {
    LeaveDeparted(a, a1, a2, s, x);
  }

  /** What departs over `remove_scene(x)`: the components of `x` and what
      departs in its children loop, which are apart. */
  lemma LeaveDeparted(a: Arena, a1: Arena, a2: Arena, s: SceneRef, x: EntityRef)
    requires WellFormed(a) && x < |a.ents| && (a.ents[x].scene == Some(s) || a.ents[x].components == map[])
    requires a1.ents == a.ents && a1.owner == a.owner
    requires |a2.ents| == |a.ents| && a2.owner == a.owner && a2.ents[x].scene == a1.ents[x].scene
    ensures var m := Elems(CompsOf(a.ents[x].components));
      m !! Departed(a1, a2, s) && Departed(a, WithScene(a2, x, None), s) == m + Departed(a1, a2, s)
  {
    var cs := CompsOf(a.ents[x].components);
    var m := Elems(cs);
    var b := WithScene(a2, x, None);
    CompsOfOwned(a.ents, a.comps, a.owner, x);
    assert m !! Departed(a1, a2, s);
    forall c: CompRef
      ensures c in Departed(a, b, s) <==> c in m || c in Departed(a1, a2, s)
    {
      if c < |a.owner| && a.owner[c].Some? {
        var y := a.owner[c].value;
        if y == x {
          assert c in a.ents[x].components.Values;
        } else {
          assert b.ents[y] == a2.ents[y];
        }
      }
    }
    assert Departed(a, b, s) == m + Departed(a1, a2, s);
  }

  // ---------------------------------------------------------------------------
  // Composition of the steps: moving between scenes

  /** A step in which no entity changes scene and no manager changes moves
      nobody between managers. */
  lemma MoveNone(a: Arena, b: Arena, s: SceneRef)
    requires s < |a.scenes| && b.ents == a.ents && b.mgrs == a.mgrs && |b.scenes| == |a.scenes|
    requires forall t :: 0 <= t < |a.scenes| ==>
      b.scenes[t].managerMap == a.scenes[t].managerMap && b.scenes[t].managerList == a.scenes[t].managerList
    ensures MembersMove(a, b, s)
  {
    assert Arrived(a, b, s) == {};
    forall q | 0 <= q < |b.mgrs|
      ensures Gone(a, b, s, q) == {} && Filed(b, s, {}, q) == {}
    { }
  }

  /** A step that touches neither the entities, the components, the
      managers nor the manager tables adds nothing to a move. */
  lemma MoveSame(a: Arena, a1: Arena, b: Arena, s: SceneRef)
    requires MembersMove(a, a1, s) && b.ents == a1.ents && b.comps == a1.comps && b.mgrs == a1.mgrs
    requires |b.scenes| == |a1.scenes|
    requires forall t :: 0 <= t < |a1.scenes| ==>
      b.scenes[t].managerMap == a1.scenes[t].managerMap && b.scenes[t].managerList == a1.scenes[t].managerList
    ensures MembersMove(a, b, s)
  {
    assert Arrived(a, b, s) == Arrived(a, a1, s);
    forall q | 0 <= q < |b.mgrs|
      ensures Gone(a, b, s, q) == Gone(a, a1, s, q) && Filed(b, s, Arrived(a, b, s), q) == Filed(a1, s, Arrived(a, a1, s), q)
    { }
  }

  /** Leaving scene `t` for no scene, as `Scene::remove_entity(t, _)` does,
      is a move for any other scene `s`: what leaves is what departs from
      `t`, and nothing arrives. */
  lemma LeaveToMove(a: Arena, b: Arena, t: SceneRef, s: SceneRef)
    requires t != s && s < |a.scenes| && |b.ents| == |a.ents|
    requires LeavesOnly(a, b, t) && MembersLeave(a, b, t, Departed(a, b, t))
    ensures MembersMove(a, b, s) && ChangesTo(a, b, s) && StaysIn(a, b, s)
  {
    LeaveArrived(a, b, t, s);
    assert MapGrows(a, b, s);
    forall q | 0 <= q < |b.mgrs|
      ensures multiset(b.mgrs[q].members) ==
        multiset(Before(a, q)) - multiset(Gone(a, b, s, q)) + multiset(Filed(b, s, Arrived(a, b, s), q))
    {
      LeaveGone(a, b, t, s, q);
      assert Filed(b, s, {}, q) == {};
    }
  }

  /** Nobody enters `s` while the only change of scene is leaving another. */
  lemma LeaveArrived(a: Arena, b: Arena, t: SceneRef, s: SceneRef)
    requires t != s && LeavesOnly(a, b, t)
    ensures Arrived(a, b, s) == {}
  {
  }

  /** While the only change of scene is leaving `t`, what is gone from other
      scenes than `s` is what departs from `t`. */
  lemma LeaveGone(a: Arena, b: Arena, t: SceneRef, s: SceneRef, q: MgrRef)
    requires t != s && LeavesOnly(a, b, t)
    ensures Gone(a, b, s, q) == Filed(a, t, Departed(a, b, t), q)
  {
  }

  /** What arrives in `s` over two steps arrives in exactly one of them. */
  lemma ArrivedSplit(a: Arena, a1: Arena, b: Arena, s: SceneRef)
    requires |a1.ents| == |a.ents| && |b.ents| == |a.ents| && a1.owner == a.owner
    requires StaysIn(a, a1, s) && StaysIn(a1, b, s)
    ensures Arrived(a, a1, s) !! Arrived(a1, b, s)
    ensures Arrived(a, b, s) == Arrived(a, a1, s) + Arrived(a1, b, s)
  {
  }

  /** What leaves another scene over two steps leaves in exactly one of
      them, when every change of scene ends in `s` or in none and nothing
      leaves `s`. */
  lemma GoneSplit(a: Arena, a1: Arena, b: Arena, s: SceneRef, q: MgrRef)
    requires |a1.ents| == |a.ents| && |b.ents| == |a.ents| && a1.owner == a.owner
    requires SameKinds(a.comps, a1.comps) && |a1.scenes| == |a.scenes|
    requires forall t :: 0 <= t < |a.scenes| && t != s ==> a1.scenes[t].managerMap == a.scenes[t].managerMap
    requires ChangesTo(a, a1, s) && ChangesTo(a1, b, s) && StaysIn(a1, b, s)
    ensures Gone(a, a1, s, q) !! Gone(a1, b, s, q)
    ensures Gone(a, b, s, q) == Gone(a, a1, s, q) + Gone(a1, b, s, q)
  {
    assert forall c, t :: t != s ==> FiledWith(a1, t, c, q) == FiledWith(a, t, c, q);
  }

  /** Entities in `s` and entities in another scene own different components. */
  lemma ArrivedNotGone(a: Arena, a1: Arena, b: Arena, s: SceneRef, q: MgrRef)
    requires a1.owner == a.owner
    ensures Arrived(a, a1, s) !! Gone(a1, b, s, q)
  {
  }

  /** Under a well-formed arena a scene files components only with known managers. */
  lemma FiledKnown(a: Arena, t: SceneRef, c: CompRef, q: MgrRef)
    requires WellFormed(a) && FiledWith(a, t, c, q)
    ensures q < |a.mgrs|
  {
    KindManagerKnown(a, t, c);
  }

  /** Two moves into `s` in a row, in which every change of scene ends in
      `s` or in none and nothing leaves `s`, make one move. */
  lemma {:induction false} MoveTrans(a: Arena, a1: Arena, b: Arena, s: SceneRef)
    requires WellFormed(a1) && |a1.ents| == |a.ents| && |b.ents| == |a.ents| && a1.owner == a.owner
    requires SameKinds(a.comps, a1.comps) && SameKinds(a1.comps, b.comps)
    requires ChangesTo(a, a1, s) && ChangesTo(a1, b, s) && StaysIn(a, a1, s) && StaysIn(a1, b, s)
    requires MembersMove(a, a1, s) && MembersMove(a1, b, s)
    ensures MembersMove(a, b, s)
  {
    var arr1, arr2 := Arrived(a, a1, s), Arrived(a1, b, s);
    ArrivedSplit(a, a1, b, s);
    forall q | 0 <= q < |b.mgrs|
      ensures multiset(b.mgrs[q].members) ==
        multiset(Before(a, q)) - multiset(Gone(a, b, s, q)) + multiset(Filed(b, s, Arrived(a, b, s), q))
    {
      MoveTransAt(a, a1, b, s, q);
    }
    forall c | c in arr1
      ensures c < |b.comps| && b.comps[c].managerKind in b.scenes[s].managerMap &&
        b.scenes[s].managerMap[b.comps[c].managerKind] < |b.mgrs|
    {
    }
  }

  lemma {:induction false} MoveTransAt(a: Arena, a1: Arena, b: Arena, s: SceneRef, q: MgrRef)
    requires WellFormed(a1) && |a1.ents| == |a.ents| && |b.ents| == |a.ents| && a1.owner == a.owner
    requires SameKinds(a.comps, a1.comps) && SameKinds(a1.comps, b.comps)
    requires ChangesTo(a, a1, s) && ChangesTo(a1, b, s) && StaysIn(a, a1, s) && StaysIn(a1, b, s)
    requires MembersMove(a, a1, s) && MembersMove(a1, b, s) && q < |b.mgrs|
    ensures multiset(b.mgrs[q].members) ==
      multiset(Before(a, q)) - multiset(Gone(a, b, s, q)) + multiset(Filed(b, s, Arrived(a, b, s), q))
  {
    var arr1, arr2 := Arrived(a, a1, s), Arrived(a1, b, s);
    var g1, g2 := Gone(a, a1, s, q), Gone(a1, b, s, q);
    ArrivedSplit(a, a1, b, s);
    GoneSplit(a, a1, b, s, q);
    FiledKept(a1, b, s, arr1, q);
    var f1, f2 := Filed(b, s, arr1, q), Filed(b, s, arr2, q);
    assert Filed(b, s, Arrived(a, b, s), q) == f1 + f2;
    if q < |a1.mgrs| {
      ArrivedNotGone(a, a1, b, s, q);
      TwoRounds(multiset(Before(a, q)), multiset(Before(a1, q)), multiset(b.mgrs[q].members), g1, g2, f1, f2);
    } else {
      MoveTransNew(a, a1, b, s, q);
    }
  }

  /** A manager created in the second step gets only what arrives in it. */
  lemma MoveTransNew(a: Arena, a1: Arena, b: Arena, s: SceneRef, q: MgrRef)
    requires WellFormed(a1) && |a.mgrs| <= |a1.mgrs| <= q && SameKinds(a.comps, a1.comps) && |a1.scenes| == |a.scenes|
    requires forall t :: 0 <= t < |a.scenes| && t != s ==> a1.scenes[t].managerMap == a.scenes[t].managerMap
    ensures Gone(a, a1, s, q) == {} && Gone(a1, b, s, q) == {} && Before(a, q) == [] && Before(a1, q) == []
  {
    forall c | c in Gone(a1, b, s, q) ensures false {
      FiledKnown(a1, a1.ents[a1.owner[c].value].scene.value, c, q);
    }
    forall c | c in Gone(a, a1, s, q) ensures false {
      var t := a.ents[a.owner[c].value].scene.value;
      assert FiledWith(a1, t, c, q);
      FiledKnown(a1, t, c, q);
    }
  }

  /** Leaving scene `t` is a change of scene that ends in none. */
  lemma ChangesTrans(a: Arena, a1: Arena, b: Arena, s: SceneRef)
    requires |a1.ents| == |a.ents| && |b.ents| == |a.ents| && ChangesTo(a, a1, s) && ChangesTo(a1, b, s)
    ensures ChangesTo(a, b, s)
  {
  }

  /** What arrives in `s` over `set_scene(x, s)`: the components of `x`,
      and what arrives in its children loop, which are apart. */
  lemma SetArrived(a: Arena, a2: Arena, s: SceneRef, x: EntityRef)
    requires WellFormed(a) && x < |a.ents| && a.ents[x].scene == None
    requires |a2.ents| == |a.ents| && a2.owner == a.owner && a2.ents[x].scene == Some(s)
    ensures var m := Elems(CompsOf(a.ents[x].components)); var a1 := WithScene(a, x, Some(s));
      m !! Arrived(a1, a2, s) && Arrived(a, a2, s) == m + Arrived(a1, a2, s)
  {
    var a1 := WithScene(a, x, Some(s));
    var m := Elems(CompsOf(a.ents[x].components));
    CompsOfOwned(a.ents, a.comps, a.owner, x);
    forall c: CompRef
      ensures c in Arrived(a, a2, s) <==> c in m || c in Arrived(a1, a2, s)
    {
      if c < |a.owner| && a.owner[c].Some? && a.owner[c].value == x {
        assert c in a.ents[x].components.Values;
      }
    }
  }

  /** The children loop of `set_scene(x, s)` is a move into `s`, one child
      after another. */
  lemma KidsMove(a: Arena, a1: Arena, b: Arena, s: SceneRef, x: EntityRef, n: nat)
    requires KidsEntering(a, s, x, n) && n > 0 && KidsEntered(a, a1, s, x, n - 1)
    requires a.children[x][n - 1] < |a1.ents| && Added(a1, b, s, a.children[x][n - 1])
    requires ChangesTo(a, a1, s) && MembersMove(a, a1, s) && ChangesTo(a1, b, s) && MembersMove(a1, b, s)
    ensures ChangesTo(a, b, s) && MembersMove(a, b, s)
  {
    ChangesTrans(a, a1, b, s);
    MoveTrans(a, a1, b, s);
  }

  /** The stages of `set_scene(x, s)` make one move into `s`. */
  lemma SetMove(a: Arena, a2: Arena, b: Arena, s: SceneRef, x: EntityRef)
    requires Entering(a, s, x) && KidsEntered(WithScene(a, x, Some(s)), a2, s, x, |a.children[x]|)
    requires ChangesTo(WithScene(a, x, Some(s)), a2, s) && MembersMove(WithScene(a, x, Some(s)), a2, s)
    requires WellFormed(b) && Joined(a2, b, s, CompsOf(a2.ents[x].components))
    requires NoDup(CompsOf(a2.ents[x].components)) ==>
      MembersJoin(a2, b, s, Elems(CompsOf(a2.ents[x].components)))
    ensures ChangesTo(a, b, s) && MembersMove(a, b, s)
  {
    var a1 := WithScene(a, x, Some(s));
    assert a2.ents[x].components == a.ents[x].components;
    CompsOfOwned(a2.ents, a2.comps, a2.owner, x);
    SetArrived(a, a2, s, x);
    SetMembers(a, a1, a2, b, s, x, Elems(CompsOf(a.ents[x].components)));
  }

  /** `set_scene(x, s)` is a move into `s`: `x` itself moves from no scene,
      the children loop moves the rest, and registering the components `m`
      of `x` puts them into the managers of `s`. */
  lemma {:induction false} SetMembers(a: Arena, a1: Arena, a2: Arena, b: Arena, s: SceneRef, x: EntityRef, m: set<CompRef>)
    requires x < |a.ents| && a.ents[x].scene == None && a1 == WithScene(a, x, Some(s)) && WellFormed(a1)
    requires |a2.ents| == |a.ents| && a2.owner == a.owner && a2.ents[x].scene == Some(s)
    requires MembersMove(a1, a2, s) && ChangesTo(a1, a2, s)
    requires m !! Arrived(a1, a2, s) && Arrived(a, a2, s) == m + Arrived(a1, a2, s)
    requires MembersJoin(a2, b, s, m) && b.ents == a2.ents && b.comps == a2.comps
    ensures MembersMove(a, b, s) && ChangesTo(a, b, s)
  {
    var arr1 := Arrived(a1, a2, s);
    assert Arrived(a, b, s) == m + arr1;
    forall q | 0 <= q < |b.mgrs|
      ensures multiset(b.mgrs[q].members) ==
        multiset(Before(a, q)) - multiset(Gone(a, b, s, q)) + multiset(Filed(b, s, Arrived(a, b, s), q))
    {
      SetMembersQ(a, a1, a2, b, s, x, m, q);
    }
    forall c | c in arr1
      ensures c < |b.comps| && b.comps[c].managerKind in b.scenes[s].managerMap &&
        b.scenes[s].managerMap[b.comps[c].managerKind] < |b.mgrs|
    {
    }
  }

  lemma SetMembersQ(a: Arena, a1: Arena, a2: Arena, b: Arena, s: SceneRef, x: EntityRef, m: set<CompRef>, q: MgrRef)
    requires x < |a.ents| && a.ents[x].scene == None && a1 == WithScene(a, x, Some(s)) && WellFormed(a1)
    requires |a2.ents| == |a.ents| && a2.owner == a.owner && a2.ents[x].scene == Some(s)
    requires MembersMove(a1, a2, s)
    requires m !! Arrived(a1, a2, s) && Arrived(a, b, s) == m + Arrived(a1, a2, s)
    requires MembersJoin(a2, b, s, m) && b.ents == a2.ents && b.comps == a2.comps && q < |b.mgrs|
    ensures multiset(b.mgrs[q].members) ==
      multiset(Before(a, q)) - multiset(Gone(a, b, s, q)) + multiset(Filed(b, s, Arrived(a, b, s), q))
  {
    SetGone(a, a2, b, s, x, q);
    if q >= |a2.mgrs| {
      GoneNone(a1, a2, s, q);
    }
    FiledKept(a2, b, s, Arrived(a1, a2, s), q);
    SetMembersAt(a, a1, a2, b, s, m, q);
  }

  /** `x` moved from no scene, so it leaves nothing behind. */
  lemma SetGone(a: Arena, a2: Arena, b: Arena, s: SceneRef, x: EntityRef, q: MgrRef)
    requires x < |a.ents| && a.ents[x].scene == None
    requires |a2.ents| == |a.ents| && a2.owner == a.owner && a2.ents[x].scene == Some(s) && b.ents == a2.ents
    ensures Gone(a, b, s, q) == Gone(WithScene(a, x, Some(s)), a2, s, q)
  {
    var a1 := WithScene(a, x, Some(s));
    assert forall c, t :: FiledWith(a1, t, c, q) == FiledWith(a, t, c, q);
  }

  /** Nobody leaves a manager that does not exist yet. */
  lemma GoneNone(a1: Arena, a2: Arena, s: SceneRef, q: MgrRef)
    requires WellFormed(a1) && q >= |a1.mgrs|
    ensures Gone(a1, a2, s, q) == {}
  {
    forall c | c in Gone(a1, a2, s, q) ensures false {
      FiledKnown(a1, a1.ents[a1.owner[c].value].scene.value, c, q);
    }
  }

  lemma {:induction false} SetMembersAt(a: Arena, a1: Arena, a2: Arena, b: Arena, s: SceneRef, m: set<CompRef>, q: MgrRef)
    requires q < |b.mgrs| && Before(a1, q) == Before(a, q) && |a.mgrs| <= |a2.mgrs|
    requires multiset(b.mgrs[q].members) == multiset(Before(a2, q)) + multiset(Filed(b, s, m, q))
    requires q < |a2.mgrs| ==>
      multiset(a2.mgrs[q].members) ==
        multiset(Before(a1, q)) - multiset(Gone(a1, a2, s, q)) + multiset(Filed(a2, s, Arrived(a1, a2, s), q))
    requires Filed(b, s, Arrived(a1, a2, s), q) == if q < |a2.mgrs| then Filed(a2, s, Arrived(a1, a2, s), q) else {}
    requires m !! Arrived(a1, a2, s) && Arrived(a, b, s) == m + Arrived(a1, a2, s)
    requires Gone(a, b, s, q) == Gone(a1, a2, s, q) && (q >= |a2.mgrs| ==> Gone(a1, a2, s, q) == {})
    ensures multiset(b.mgrs[q].members) ==
      multiset(Before(a, q)) - multiset(Gone(a, b, s, q)) + multiset(Filed(b, s, Arrived(a, b, s), q))
  {
    var f1, fm := Filed(b, s, Arrived(a1, a2, s), q), Filed(b, s, m, q);
    assert Filed(b, s, Arrived(a, b, s), q) == f1 + fm;
    if q >= |a2.mgrs| {
      assert Before(a, q) == Before(a1, q) == Before(a2, q) == [];
    }
    AddAfter(multiset(Before(a1, q)), multiset(Before(a2, q)), multiset(b.mgrs[q].members), Gone(a1, a2, s, q), f1, fm);
  }

  /** `Scene::add_entity(s, x)` is a move into `s`: leaving the old scene of
      `x` takes its subtree's components out of that scene's managers, and
      `set_scene` puts what enters `s` into the managers of `s`. */
  lemma AddMembers(a: Arena, a1: Arena, b: Arena, s: SceneRef, x: EntityRef)
    requires s < |a.scenes| && x < |a.ents| && a.ents[x].scene != Some(s) && Frame(a, a1) && StaysIn(a, a1, s)
    requires a.ents[x].scene == None ==> a1 == a
    requires a.ents[x].scene.Some? ==>
      a.ents[x].scene.value < |a.scenes| && LeavesOnly(a, a1, a.ents[x].scene.value) &&
      MembersLeave(a, a1, a.ents[x].scene.value, Departed(a, a1, a.ents[x].scene.value))
    requires WellFormed(Push(a1, s, x)) && Frame(Push(a1, s, x), b) && StaysIn(Push(a1, s, x), b, s)
    requires ChangesTo(Push(a1, s, x), b, s) && MembersMove(Push(a1, s, x), b, s)
    ensures ChangesTo(a, b, s) && MembersMove(a, b, s)
  {
    var a2 := Push(a1, s, x);
    if a.ents[x].scene.Some? {
      LeaveToMove(a, a1, a.ents[x].scene.value, s);
    } else {
      MoveNone(a, a1, s);
    }
    MoveSame(a, a1, a2, s);
    MoveTrans(a, a2, b, s);
  }
}
