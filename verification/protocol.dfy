/** The scene protocol on values.  An `Arena` is the whole state of the scene
    graph; every operation of `SceneGraph.World` is specified by a function
    from the arena before to the arena after, and what the protocol promises
    is stated in the `ensures` of these functions. */
module Protocol {
  import opened Handles
  import opened Collections
  import opened Hierarchy
  import opened Tables

  /** All tables of the scene graph, indexed by handle. */
  datatype Arena = Arena(depth: seq<nat>, parent: seq<Option<EntityRef>>, children: seq<seq<EntityRef>>,
                         rank: seq<nat>, ents: seq<EntityData>, comps: seq<ComponentData>,
                         owner: seq<Option<EntityRef>>, scenes: seq<SceneData>, mgrs: seq<ManagerData>,
                         plugins: seq<PluginData>, trace: seq<Event>)

  /** Every table is well-formed; children always rank below their parent. */
  ghost predicate WellFormed(a: Arena)
  {
    |a.depth| == |a.children| && |a.parent| == |a.children| && |a.ents| == |a.children| &&
    Ranked(a.children, a.rank) &&
    (forall x :: 0 <= x < |a.parent| && a.parent[x].Some? ==> a.parent[x].value < |a.children|) &&
    TablesOk(a.ents, a.comps, a.owner, a.scenes, a.mgrs, a.plugins)
  }

  /** `x` is listed by its own scene (and by none when it has none) and its
      components are registered there. */
  ghost predicate Good(a: Arena, x: EntityRef)
  {
    GoodAt(a.ents, a.scenes, a.comps, a.mgrs, x)
  }

  /** Every scene's managers hold a component. */
  ghost predicate NoEmpty(a: Arena)
  {
    NoEmptyManagers(a.scenes, a.mgrs)
  }

  /** The scenes of `b` are those of `a` but for their manager maps and lists. */
  ghost predicate SceneTablesOnly(a: Arena, b: Arena)
  {
    |b.scenes| == |a.scenes| &&
    forall t :: 0 <= t < |a.scenes| ==>
      b.scenes[t] == a.scenes[t].(managerMap := b.scenes[t].managerMap, managerList := b.scenes[t].managerList)
  }

  /** Only the manager tables of scenes, the managers and the trace differ. */
  ghost predicate ManagersOnly(a: Arena, b: Arena)
  {
    b == a.(scenes := b.scenes, mgrs := b.mgrs, trace := b.trace) && SceneTablesOnly(a, b)
  }

  // ---------------------------------------------------------------------------
  // Registration of components with the managers of a scene

  /** `Scene::__add_component`: `c` joins the manager of its manager Id,
      which is created (and the manager list re-sorted, once the scene is
      initted) when the scene has none; an initted scene initialises the
      manager after every addition. */
  ghost function Register(a: Arena, s: SceneRef, c: CompRef): (b: Arena)
    requires WellFormed(a) && s < |a.scenes| && c < |a.comps|
    ensures WellFormed(b) && ManagersOnly(a, b)
    ensures Registered(b.scenes, b.comps, b.mgrs, s, c)
    ensures RegsKept(a.scenes, a.comps, a.mgrs, b.scenes, b.comps, b.mgrs, None)
    ensures GoodsKept(a.ents, a.scenes, a.comps, a.mgrs, b.ents, b.scenes, b.comps, b.mgrs, None)
    ensures NoEmpty(a) ==> NoEmpty(b)
    ensures a.comps[c].managerKind in b.scenes[s].managerMap
    ensures b.trace == a.trace +
      if a.scenes[s].initted then [ManagerInit(b.scenes[s].managerMap[a.comps[c].managerKind])] else []
  {
    if a.comps[c].managerKind in a.scenes[s].managerMap then JoinManager(a, s, c) else NewManager(a, s, c)
  }

  /** `c` joins the manager the scene already has for its manager Id. */
  ghost function JoinManager(a: Arena, s: SceneRef, c: CompRef): (b: Arena)
    requires WellFormed(a) && s < |a.scenes| && c < |a.comps|
    requires a.comps[c].managerKind in a.scenes[s].managerMap
    ensures WellFormed(b) && ManagersOnly(a, b)
    ensures Registered(b.scenes, b.comps, b.mgrs, s, c)
    ensures RegsKept(a.scenes, a.comps, a.mgrs, b.scenes, b.comps, b.mgrs, None)
    ensures GoodsKept(a.ents, a.scenes, a.comps, a.mgrs, b.ents, b.scenes, b.comps, b.mgrs, None)
    ensures NoEmpty(a) ==> NoEmpty(b)
    ensures a.comps[c].managerKind in b.scenes[s].managerMap
    ensures b.trace == a.trace +
      if a.scenes[s].initted then [ManagerInit(b.scenes[s].managerMap[a.comps[c].managerKind])] else []
    ensures b.scenes == a.scenes && |b.mgrs| == |a.mgrs|
    ensures var r := a.scenes[s].managerMap[a.comps[c].managerKind];
      r < |a.mgrs| && b.mgrs[r].members == a.mgrs[r].members + [c] &&
      forall q :: 0 <= q < |a.mgrs| && q != r ==> b.mgrs[q] == a.mgrs[q]
  {
    var k, sd := a.comps[c].managerKind, a.scenes[s];
    assert ManagersAgree(sd, a.mgrs, s);
    var r := sd.managerMap[k];
    var mgrs' := a.mgrs[r := a.mgrs[r].(members := a.mgrs[r].members + [c])];
    JoinManagerStep(a.ents, a.comps, a.owner, a.scenes, a.mgrs, a.plugins, s, c, r, mgrs');
    a.(mgrs := mgrs', trace := a.trace + if sd.initted then [ManagerInit(r)] else [])
  }

  /** A new manager holding only `c` is filed with the scene. */
  ghost function NewManager(a: Arena, s: SceneRef, c: CompRef): (b: Arena)
    requires WellFormed(a) && s < |a.scenes| && c < |a.comps|
    requires a.comps[c].managerKind !in a.scenes[s].managerMap
    ensures WellFormed(b) && ManagersOnly(a, b)
    ensures Registered(b.scenes, b.comps, b.mgrs, s, c)
    ensures RegsKept(a.scenes, a.comps, a.mgrs, b.scenes, b.comps, b.mgrs, None)
    ensures GoodsKept(a.ents, a.scenes, a.comps, a.mgrs, b.ents, b.scenes, b.comps, b.mgrs, None)
    ensures NoEmpty(a) ==> NoEmpty(b)
    ensures a.comps[c].managerKind in b.scenes[s].managerMap
    ensures b.trace == a.trace +
      if a.scenes[s].initted then [ManagerInit(b.scenes[s].managerMap[a.comps[c].managerKind])] else []
    ensures var k := a.comps[c].managerKind; var r: MgrRef := |a.mgrs|;
      |b.mgrs| == r + 1 && b.mgrs[..r] == a.mgrs &&
      b.mgrs[r] == ManagerData(k, a.comps[c].managerOrder, Some(s), [c]) &&
      b.scenes[s].managerMap == a.scenes[s].managerMap[k := r] &&
      multiset(b.scenes[s].managerList) == multiset(a.scenes[s].managerList) + multiset{r} &&
      (!a.scenes[s].initted ==> b.scenes[s].managerList == a.scenes[s].managerList + [r])
  {
    var k, sd := a.comps[c].managerKind, a.scenes[s];
    assert ManagersAgree(sd, a.mgrs, s);
    var r := |a.mgrs|;
    var m := ManagerData(k, a.comps[c].managerOrder, Some(s), [c]);
    var mgrs' := a.mgrs + [m];
    ListKeyed(sd, a.mgrs, s, m);
    var list := if sd.initted then SortBy(sd.managerList + [r], MgrOrders(mgrs')) else sd.managerList + [r];
    var scenes' := a.scenes[s := sd.(managerMap := sd.managerMap[k := r], managerList := list)];
    NewManagerStep(a.ents, a.comps, a.owner, a.scenes, a.mgrs, a.plugins, s, c, list, scenes', mgrs');
    a.(scenes := scenes', mgrs := mgrs', trace := a.trace + if sd.initted then [ManagerInit(r)] else [])
  }

  /** The manager of the kind of `c` in `s` is a known manager. */
  lemma KindManagerKnown(a: Arena, s: SceneRef, c: CompRef)
    requires WellFormed(a) && s < |a.scenes| && c < |a.comps|
    requires a.comps[c].managerKind in a.scenes[s].managerMap
    ensures a.scenes[s].managerMap[a.comps[c].managerKind] < |a.mgrs|
  {
    assert ManagersAgree(a.scenes[s], a.mgrs, s);
  }

  /** The branch of `__remove_component` that keeps the manager: `c` loses
      its entity back-reference and its first entry leaves the members. */
  ghost function KeepManager(a: Arena, s: SceneRef, c: CompRef, r: MgrRef): (b: Arena)
    requires WellFormed(a) && s < |a.scenes| && c < |a.comps|
    requires a.comps[c].managerKind in a.scenes[s].managerMap && r == a.scenes[s].managerMap[a.comps[c].managerKind]
    requires r < |a.mgrs|
    ensures b == a.(comps := a.comps[c := a.comps[c].(entity := None)],
                    mgrs := a.mgrs[r := a.mgrs[r].(members := RemoveFirst<CompRef>(a.mgrs[r].members, c))])
    ensures WellFormed(b)
    ensures RegsKept(a.scenes, a.comps, a.mgrs, b.scenes, b.comps, b.mgrs, Some(c))
    ensures GoodsKept(a.ents, a.scenes, a.comps, a.mgrs, b.ents, b.scenes, b.comps, b.mgrs, a.owner[c])
    ensures NoEmpty(a) && RemoveFirst<CompRef>(a.mgrs[r].members, c) != [] ==> NoEmpty(b)
  {
    var comps' := a.comps[c := a.comps[c].(entity := None)];
    var mgrs' := a.mgrs[r := a.mgrs[r].(members := RemoveFirst<CompRef>(a.mgrs[r].members, c))];
    LeaveManagerStep(a.ents, a.comps, a.owner, a.scenes, a.mgrs, a.plugins, s, c, r, comps', mgrs');
    a.(comps := comps', mgrs := mgrs')
  }

  /** The branch of `__remove_component` that drops the manager, which holds
      nothing once `c` has left: it loses its scene, leaves the map and the
      list of `s`, and gets `clear`. */
  ghost function DropManager(a: Arena, s: SceneRef, c: CompRef, r: MgrRef): (b: Arena)
    requires WellFormed(a) && s < |a.scenes| && c < |a.comps|
    requires a.comps[c].managerKind in a.scenes[s].managerMap && r == a.scenes[s].managerMap[a.comps[c].managerKind]
    requires r < |a.mgrs| && RemoveFirst<CompRef>(a.mgrs[r].members, c) == []
    ensures var sd := a.scenes[s];
      b == a.(comps := a.comps[c := a.comps[c].(entity := None)],
              scenes := a.scenes[s := sd.(managerMap := sd.managerMap - {a.comps[c].managerKind},
                                          managerList := RemoveFirst<MgrRef>(sd.managerList, r))],
              mgrs := a.mgrs[r := a.mgrs[r].(members := [], scene := None)],
              trace := a.trace + [ManagerClear(r)])
    ensures WellFormed(b)
    ensures RegsKept(a.scenes, a.comps, a.mgrs, b.scenes, b.comps, b.mgrs, Some(c))
    ensures GoodsKept(a.ents, a.scenes, a.comps, a.mgrs, b.ents, b.scenes, b.comps, b.mgrs, a.owner[c])
    ensures NoEmpty(a) ==> NoEmpty(b)
  {
    var sd := a.scenes[s];
    var comps' := a.comps[c := a.comps[c].(entity := None)];
    var mgrs' := a.mgrs[r := a.mgrs[r].(members := RemoveFirst<CompRef>(a.mgrs[r].members, c))];
    var mgrs'' := mgrs'[r := mgrs'[r].(scene := None)];
    var scenes' := a.scenes[s := sd.(managerMap := sd.managerMap - {a.comps[c].managerKind},
                                     managerList := RemoveFirst<MgrRef>(sd.managerList, r))];
    DropManagerStep(a.ents, a.comps, a.owner, a.scenes, a.mgrs, a.plugins, s, c, r, comps', scenes', mgrs'');
    a.(comps := comps', scenes := scenes', mgrs := mgrs'', trace := a.trace + [ManagerClear(r)])
  }

  /** What either branch of `__remove_component` leaves, spelled out field by field. */
  lemma RemovalShape(a: Arena, s: SceneRef, c: CompRef, r: MgrRef, dropped: bool, b: Arena)
    requires s < |a.scenes| && c < |a.comps| && a.comps[c].managerKind in a.scenes[s].managerMap
    requires r == a.scenes[s].managerMap[a.comps[c].managerKind] && r < |a.mgrs|
    requires !dropped ==>
      b == a.(comps := a.comps[c := a.comps[c].(entity := None)],
              mgrs := a.mgrs[r := a.mgrs[r].(members := RemoveFirst<CompRef>(a.mgrs[r].members, c))])
    requires dropped ==> RemoveFirst<CompRef>(a.mgrs[r].members, c) == []
    requires dropped ==>
      b == a.(comps := a.comps[c := a.comps[c].(entity := None)],
              scenes := a.scenes[s := a.scenes[s].(managerMap := a.scenes[s].managerMap - {a.comps[c].managerKind},
                                                   managerList := RemoveFirst<MgrRef>(a.scenes[s].managerList, r))],
              mgrs := a.mgrs[r := a.mgrs[r].(members := [], scene := None)],
              trace := a.trace + [ManagerClear(r)])
    ensures b == a.(comps := b.comps, scenes := b.scenes, mgrs := b.mgrs, trace := b.trace)
    ensures b.comps == a.comps[c := a.comps[c].(entity := None)]
    ensures SceneTablesOnly(a, b)
    ensures var k := a.comps[c].managerKind;
      |b.mgrs| == |a.mgrs| &&
      b.mgrs[r] == a.mgrs[r].(members := RemoveFirst<CompRef>(a.mgrs[r].members, c), scene := b.mgrs[r].scene) &&
      (forall q :: 0 <= q < |a.mgrs| && q != r ==> b.mgrs[q] == a.mgrs[q]) &&
      (!dropped ==> b.scenes == a.scenes && b.trace == a.trace && b.mgrs[r].scene == a.mgrs[r].scene) &&
      (dropped ==>
         b.mgrs[r].scene == None && b.trace == a.trace + [ManagerClear(r)] &&
         b.scenes == a.scenes[s := a.scenes[s].(managerMap := a.scenes[s].managerMap - {k},
                                                managerList := RemoveFirst<MgrRef>(a.scenes[s].managerList, r))])
  {
  }

  /** `Scene::__remove_component`: `c` loses its entity back-reference and
      leaves its manager.  Whether the manager is empty is asked before `c`
      leaves it, so the manager is cleared, loses its scene and leaves the
      scene's map and list only when it held nothing to begin with; a
      manager whose last component leaves stays filed, empty. */
  ghost function Unregister(a: Arena, s: SceneRef, c: CompRef): (b: Arena)
    requires WellFormed(a) && s < |a.scenes| && c < |a.comps|
    requires a.comps[c].managerKind in a.scenes[s].managerMap
    ensures WellFormed(b)
    ensures b == a.(comps := b.comps, scenes := b.scenes, mgrs := b.mgrs, trace := b.trace)
    ensures b.comps == a.comps[c := a.comps[c].(entity := None)]
    ensures SceneTablesOnly(a, b)
    ensures var k, r := a.comps[c].managerKind, a.scenes[s].managerMap[a.comps[c].managerKind];
      r < |a.mgrs| && |b.mgrs| == |a.mgrs| &&
      b.mgrs[r] == a.mgrs[r].(members := RemoveFirst<CompRef>(a.mgrs[r].members, c), scene := b.mgrs[r].scene) &&
      (forall q :: 0 <= q < |a.mgrs| && q != r ==> b.mgrs[q] == a.mgrs[q]) &&
      (a.mgrs[r].members != [] ==>
         b.scenes == a.scenes && b.trace == a.trace && b.mgrs[r].scene == a.mgrs[r].scene) &&
      (a.mgrs[r].members == [] ==>
         b.mgrs[r].scene == None && b.trace == a.trace + [ManagerClear(r)] &&
         b.scenes == a.scenes[s := a.scenes[s].(managerMap := a.scenes[s].managerMap - {k},
                                                managerList := RemoveFirst<MgrRef>(a.scenes[s].managerList, r))])
    ensures RegsKept(a.scenes, a.comps, a.mgrs, b.scenes, b.comps, b.mgrs, Some(c))
    ensures GoodsKept(a.ents, a.scenes, a.comps, a.mgrs, b.ents, b.scenes, b.comps, b.mgrs, a.owner[c])
  {
    var k := a.comps[c].managerKind;
    KindManagerKnown(a, s, c);
    var r := a.scenes[s].managerMap[k];
    var isEmpty := a.mgrs[r].members == [];
    if isEmpty then
      var b := DropManager(a, s, c, r);
      RemovalShape(a, s, c, r, true, b);
      assert WellFormed(b) && RegsKept(a.scenes, a.comps, a.mgrs, b.scenes, b.comps, b.mgrs, Some(c));
      assert GoodsKept(a.ents, a.scenes, a.comps, a.mgrs, b.ents, b.scenes, b.comps, b.mgrs, a.owner[c]);
      b
    else
      var b := KeepManager(a, s, c, r);
      RemovalShape(a, s, c, r, false, b);
      assert WellFormed(b) && RegsKept(a.scenes, a.comps, a.mgrs, b.scenes, b.comps, b.mgrs, Some(c));
      assert GoodsKept(a.ents, a.scenes, a.comps, a.mgrs, b.ents, b.scenes, b.comps, b.mgrs, a.owner[c]);
      b
  }

  /** `Scene::__remove_component` as evidently intended: whether the manager
      is empty is asked after `c` has left it, so a manager is dropped as
      soon as it holds nothing and no scene keeps an empty manager. */
  ghost function UnregisterFixed(a: Arena, s: SceneRef, c: CompRef): (b: Arena)
    requires WellFormed(a) && s < |a.scenes| && c < |a.comps|
    requires a.comps[c].managerKind in a.scenes[s].managerMap
    ensures WellFormed(b)
    ensures b == a.(comps := b.comps, scenes := b.scenes, mgrs := b.mgrs, trace := b.trace)
    ensures b.comps == a.comps[c := a.comps[c].(entity := None)]
    ensures SceneTablesOnly(a, b)
    ensures var k, r := a.comps[c].managerKind, a.scenes[s].managerMap[a.comps[c].managerKind];
      r < |a.mgrs| && |b.mgrs| == |a.mgrs| &&
      b.mgrs[r] == a.mgrs[r].(members := RemoveFirst<CompRef>(a.mgrs[r].members, c), scene := b.mgrs[r].scene) &&
      (forall q :: 0 <= q < |a.mgrs| && q != r ==> b.mgrs[q] == a.mgrs[q]) &&
      (RemoveFirst<CompRef>(a.mgrs[r].members, c) != [] ==>
         b.scenes == a.scenes && b.trace == a.trace && b.mgrs[r].scene == a.mgrs[r].scene) &&
      (RemoveFirst<CompRef>(a.mgrs[r].members, c) == [] ==>
         b.mgrs[r].scene == None && b.trace == a.trace + [ManagerClear(r)] &&
         b.scenes == a.scenes[s := a.scenes[s].(managerMap := a.scenes[s].managerMap - {k},
                                                managerList := RemoveFirst<MgrRef>(a.scenes[s].managerList, r))])
    ensures RegsKept(a.scenes, a.comps, a.mgrs, b.scenes, b.comps, b.mgrs, Some(c))
    ensures GoodsKept(a.ents, a.scenes, a.comps, a.mgrs, b.ents, b.scenes, b.comps, b.mgrs, a.owner[c])
    ensures NoEmpty(a) ==> NoEmpty(b)
  {
    var k := a.comps[c].managerKind;
    KindManagerKnown(a, s, c);
    var r := a.scenes[s].managerMap[k];
    var dropped := RemoveFirst<CompRef>(a.mgrs[r].members, c) == [];
    if dropped then
      var b := DropManager(a, s, c, r);
      RemovalShape(a, s, c, r, true, b);
      assert WellFormed(b) && RegsKept(a.scenes, a.comps, a.mgrs, b.scenes, b.comps, b.mgrs, Some(c));
      assert GoodsKept(a.ents, a.scenes, a.comps, a.mgrs, b.ents, b.scenes, b.comps, b.mgrs, a.owner[c]);
      assert NoEmpty(a) ==> NoEmpty(b);
      b
    else
      var b := KeepManager(a, s, c, r);
      RemovalShape(a, s, c, r, false, b);
      assert WellFormed(b) && RegsKept(a.scenes, a.comps, a.mgrs, b.scenes, b.comps, b.mgrs, Some(c));
      assert GoodsKept(a.ents, a.scenes, a.comps, a.mgrs, b.ents, b.scenes, b.comps, b.mgrs, a.owner[c]);
      assert NoEmpty(a) ==> NoEmpty(b);
      b
  }

  /** Removing the only component of a manager as written leaves the manager
      filed with its scene and empty; the corrected removal drops it. */
  lemma EmptyManagerKept(a: Arena, s: SceneRef, c: CompRef)
    requires WellFormed(a) && s < |a.scenes| && c < |a.comps|
    requires a.comps[c].managerKind in a.scenes[s].managerMap
    requires a.scenes[s].managerMap[a.comps[c].managerKind] < |a.mgrs|
    requires a.mgrs[a.scenes[s].managerMap[a.comps[c].managerKind]].members == [c]
    ensures var b, k := Unregister(a, s, c), a.comps[c].managerKind;
      k in b.scenes[s].managerMap && b.mgrs[b.scenes[s].managerMap[k]].members == [] && !NoEmpty(b)
    ensures a.comps[c].managerKind !in UnregisterFixed(a, s, c).scenes[s].managerMap
  {
    var b, k := Unregister(a, s, c), a.comps[c].managerKind;
    var r := a.scenes[s].managerMap[k];
    assert RemoveFirst([c], c) == [];
    assert b.mgrs[r].members == [];
  }
  // ---------------------------------------------------------------------------
  // What removals do to the members of managers

  /** Scene `s` files component `c` with manager `q`. */
  ghost predicate FiledWith(a: Arena, s: SceneRef, c: CompRef, q: MgrRef)
  {
    s < |a.scenes| && c < |a.comps| && a.comps[c].managerKind in a.scenes[s].managerMap &&
    a.scenes[s].managerMap[a.comps[c].managerKind] == q
  }

  /** The components of `m` that scene `s` files with manager `q`. */
  ghost function Filed(a: Arena, s: SceneRef, m: set<CompRef>, q: MgrRef): set<CompRef>
  {
    set c | c in m && FiledWith(a, s, c, q)
  }

  /** From `a` to `b` every component of `m` leaves the manager scene `s`
      files it with, one copy each; no other member leaves or joins, no
      manager is dropped or created and no scene's manager map or manager
      list changes. */
  ghost predicate MembersLeave(a: Arena, b: Arena, s: SceneRef, m: set<CompRef>)
  {
    |b.scenes| == |a.scenes| && |b.mgrs| == |a.mgrs| &&
    (forall t :: 0 <= t < |a.scenes| ==>
       b.scenes[t].managerMap == a.scenes[t].managerMap && b.scenes[t].managerList == a.scenes[t].managerList) &&
    forall q :: 0 <= q < |a.mgrs| ==>
      b.mgrs[q] == a.mgrs[q].(members := b.mgrs[q].members) &&
      multiset(b.mgrs[q].members) == multiset(a.mgrs[q].members) - multiset(Filed(a, s, m, q))
  }

  /** From `a` to `b` one copy of `c` leaves the manager scene `s` files it
      with, and every other manager stays as it was. */
  ghost predicate LeftManager(a: Arena, b: Arena, s: SceneRef, c: CompRef)
  {
    s < |a.scenes| && c < |a.comps| && a.comps[c].managerKind in a.scenes[s].managerMap &&
    var r := a.scenes[s].managerMap[a.comps[c].managerKind];
    r < |a.mgrs| && |b.mgrs| == |a.mgrs| && b.mgrs[r].members == RemoveFirst<CompRef>(a.mgrs[r].members, c) &&
    forall q :: 0 <= q < |a.mgrs| && q != r ==> b.mgrs[q] == a.mgrs[q]
  }

  /** `__remove_component` takes `c` out of its manager, whether or not the
      manager is then dropped. */
  lemma UnregisterLeaves(a: Arena, s: SceneRef, c: CompRef)
    requires WellFormed(a) && s < |a.scenes| && c < |a.comps|
    requires a.comps[c].managerKind in a.scenes[s].managerMap
    ensures LeftManager(a, Unregister(a, s, c), s, c)
  {
  }

  /** A step that touches no manager and no manager table takes nobody out. */
  lemma MembersNone(a: Arena, b: Arena, s: SceneRef)
    requires b.mgrs == a.mgrs && |b.scenes| == |a.scenes|
    requires forall t :: 0 <= t < |a.scenes| ==>
      b.scenes[t].managerMap == a.scenes[t].managerMap && b.scenes[t].managerList == a.scenes[t].managerList
    ensures MembersLeave(a, b, s, {})
  {
    forall q | 0 <= q < |a.mgrs|
      ensures Filed(a, s, {}, q) == {}
    { }
  }

  /** A step that touches neither the managers nor the scenes adds nothing
      to what leaves the managers. */
  lemma MembersSame(a: Arena, a1: Arena, b: Arena, s: SceneRef, m: set<CompRef>)
    requires MembersLeave(a, a1, s, m) && b.scenes == a1.scenes && b.mgrs == a1.mgrs
    ensures MembersLeave(a, b, s, m)
  {
  }

  /** Two steps that take disjoint sets of components out of the managers of
      `s`, and change no manager kind in between, take out their union. */
  lemma {:induction false} MembersTrans(a: Arena, a1: Arena, b: Arena, s: SceneRef, m1: set<CompRef>, m2: set<CompRef>)
    requires MembersLeave(a, a1, s, m1) && MembersLeave(a1, b, s, m2) && m1 !! m2
    requires SameKinds(a.comps, a1.comps)
    ensures MembersLeave(a, b, s, m1 + m2)
  {
    forall q | 0 <= q < |a.mgrs|
      ensures multiset(b.mgrs[q].members) == multiset(a.mgrs[q].members) - multiset(Filed(a, s, m1 + m2, q))
    {
      var f1, f2 := Filed(a, s, m1, q), Filed(a1, s, m2, q);
      assert forall c :: FiledWith(a1, s, c, q) == FiledWith(a, s, c, q);
      assert Filed(a, s, m1 + m2, q) == f1 + f2;
      assert multiset(f1 + f2) == multiset(f1) + multiset(f2);
      MinusMinus(multiset(a.mgrs[q].members), multiset(f1), multiset(f2));
    }
  }

  /** Removing a registered component takes one copy of it out of its
      manager and drops no manager: the manager held it, so it was not
      empty when asked. */
  lemma UnregisterMembers(a: Arena, s: SceneRef, c: CompRef)
    requires WellFormed(a) && Registered(a.scenes, a.comps, a.mgrs, s, c)
    ensures MembersLeave(a, Unregister(a, s, c), s, {c})
  {
    var r := a.scenes[s].managerMap[a.comps[c].managerKind];
    assert a.mgrs[r].members != [];
    KeptManagerMembers(a, Unregister(a, s, c), s, c, r);
  }

  /** `c` leaves manager `r`, which held it, and nothing else changes in
      the managers or the scenes. */
  lemma KeptManagerMembers(a: Arena, b: Arena, s: SceneRef, c: CompRef, r: MgrRef)
    requires FiledWith(a, s, c, r) && r < |a.mgrs| && c in a.mgrs[r].members
    requires b.scenes == a.scenes && |b.mgrs| == |a.mgrs|
    requires b.mgrs[r] == a.mgrs[r].(members := RemoveFirst<CompRef>(a.mgrs[r].members, c))
    requires forall q :: 0 <= q < |a.mgrs| && q != r ==> b.mgrs[q] == a.mgrs[q]
    ensures MembersLeave(a, b, s, {c})
  {
    RemoveFirstSpec(a.mgrs[r].members, c);
    forall q | 0 <= q < |a.mgrs|
      ensures multiset(b.mgrs[q].members) == multiset(a.mgrs[q].members) - multiset(Filed(a, s, {c}, q))
    {
      FiledOne(a, s, c, q);
    }
  }

  /** A single component is filed with one manager of a scene at most. */
  lemma FiledOne(a: Arena, s: SceneRef, c: CompRef, q: MgrRef)
    ensures Filed(a, s, {c}, q) == if FiledWith(a, s, c, q) then {c} else {}
  {
  }

  // ---------------------------------------------------------------------------
  // What registrations do to the members of managers

  /** The members manager `q` has in `a`; a manager created later had none. */
  ghost function Before(a: Arena, q: MgrRef): seq<CompRef>
  {
    if q < |a.mgrs| then a.mgrs[q].members else []
  }

  /** The manager map of scene `s` only grows from `a` to `b`, and every
      manager Id it gains is filed under a manager created meanwhile. */
  ghost predicate MapGrows(a: Arena, b: Arena, s: SceneRef)
  {
    s < |a.scenes| && s < |b.scenes| &&
    (forall k :: k in a.scenes[s].managerMap ==>
       k in b.scenes[s].managerMap && b.scenes[s].managerMap[k] == a.scenes[s].managerMap[k]) &&
    forall k :: k in b.scenes[s].managerMap && k !in a.scenes[s].managerMap ==>
      b.scenes[s].managerMap[k] >= |a.mgrs|
  }

  /** Scene `s` of `b` files every component of `m` with a manager of `b`. */
  ghost predicate AllFiled(b: Arena, s: SceneRef, m: set<CompRef>)
  {
    s < |b.scenes| &&
    forall c :: c in m ==>
      c < |b.comps| && b.comps[c].managerKind in b.scenes[s].managerMap &&
      b.scenes[s].managerMap[b.comps[c].managerKind] < |b.mgrs|
  }

  /** From `a` to `b` every component of `m` joins, one copy each, the
      manager scene `s` files it with in `b`; no other member joins or
      leaves, managers are only created, the manager map of `s` only grows
      and no other scene's manager map or manager list changes. */
  ghost predicate MembersJoin(a: Arena, b: Arena, s: SceneRef, m: set<CompRef>)
  {
    |a.mgrs| <= |b.mgrs| && |b.scenes| == |a.scenes| && MapGrows(a, b, s) && AllFiled(b, s, m) &&
    (forall t :: 0 <= t < |a.scenes| && t != s ==>
       b.scenes[t].managerMap == a.scenes[t].managerMap && b.scenes[t].managerList == a.scenes[t].managerList) &&
    (forall q :: 0 <= q < |a.mgrs| ==> b.mgrs[q] == a.mgrs[q].(members := b.mgrs[q].members)) &&
    forall q :: 0 <= q < |b.mgrs| ==>
      multiset(b.mgrs[q].members) == multiset(Before(a, q)) + multiset(Filed(b, s, m, q))
  }

  /** `__add_component` puts one copy of `c` into the manager its scene
      files it with, whether that manager existed or is created for it, and
      changes no other manager. */
  lemma RegisterMembers(a: Arena, s: SceneRef, c: CompRef)
    requires WellFormed(a) && s < |a.scenes| && c < |a.comps|
    ensures MembersJoin(a, Register(a, s, c), s, {c})
  {
    if a.comps[c].managerKind in a.scenes[s].managerMap {
      JoinMembers(a, s, c);
    } else {
      NewMembers(a, s, c);
    }
  }

  lemma JoinMembers(a: Arena, s: SceneRef, c: CompRef)
    requires WellFormed(a) && s < |a.scenes| && c < |a.comps|
    requires a.comps[c].managerKind in a.scenes[s].managerMap
    ensures MembersJoin(a, JoinManager(a, s, c), s, {c})
  {
    var b := JoinManager(a, s, c);
    var r := a.scenes[s].managerMap[a.comps[c].managerKind];
    forall q | 0 <= q < |b.mgrs|
      ensures multiset(b.mgrs[q].members) == multiset(Before(a, q)) + multiset(Filed(b, s, {c}, q))
    {
      FiledOne(b, s, c, q);
    }
  }

  lemma NewMembers(a: Arena, s: SceneRef, c: CompRef)
    requires WellFormed(a) && s < |a.scenes| && c < |a.comps|
    requires a.comps[c].managerKind !in a.scenes[s].managerMap
    ensures MembersJoin(a, NewManager(a, s, c), s, {c})
  {
    var b := NewManager(a, s, c);
    assert forall t :: 0 <= t < |a.scenes| && t != s ==> b.scenes[t] == a.scenes[t];
    NewMembersStep(a, b, s, c);
  }

  lemma NewMembersStep(a: Arena, b: Arena, s: SceneRef, c: CompRef)
    requires s < |a.scenes| && c < |a.comps| && a.comps[c].managerKind !in a.scenes[s].managerMap
    requires b.comps == a.comps && |b.scenes| == |a.scenes|
    requires forall t :: 0 <= t < |a.scenes| && t != s ==> b.scenes[t] == a.scenes[t]
    requires b.scenes[s].managerMap == a.scenes[s].managerMap[a.comps[c].managerKind := |a.mgrs|]
    requires |b.mgrs| == |a.mgrs| + 1 && b.mgrs[..|a.mgrs|] == a.mgrs && b.mgrs[|a.mgrs|].members == [c]
    ensures MembersJoin(a, b, s, {c})
  {
    var r := |a.mgrs|;
    forall q | 0 <= q < r
      ensures b.mgrs[q] == a.mgrs[q]
    {
      assert b.mgrs[q] == b.mgrs[..r][q];
    }
    forall q | 0 <= q < |b.mgrs|
      ensures multiset(b.mgrs[q].members) == multiset(Before(a, q)) + multiset(Filed(b, s, {c}, q))
    {
      FiledOne(b, s, c, q);
    }
  }

  /** Under a growing manager map, components already filed stay filed with
      the same managers, and with none of the managers created meanwhile. */
  lemma FiledKept(a: Arena, b: Arena, s: SceneRef, m: set<CompRef>, q: MgrRef)
    requires AllFiled(a, s, m) && MapGrows(a, b, s) && SameKinds(a.comps, b.comps)
    ensures Filed(b, s, m, q) == if q < |a.mgrs| then Filed(a, s, m, q) else {}
  {
  }

  /** Two steps that put disjoint sets of components into the managers of
      `s`, and change no manager kind in between, put in their union. */
  lemma {:induction false} JoinTrans(a: Arena, a1: Arena, b: Arena, s: SceneRef, m1: set<CompRef>, m2: set<CompRef>)
    requires MembersJoin(a, a1, s, m1) && MembersJoin(a1, b, s, m2) && m1 !! m2
    requires SameKinds(a1.comps, b.comps)
    ensures MembersJoin(a, b, s, m1 + m2)
  {
    forall q | 0 <= q < |b.mgrs|
      ensures multiset(b.mgrs[q].members) == multiset(Before(a, q)) + multiset(Filed(b, s, m1 + m2, q))
    {
      FiledKept(a1, b, s, m1, q);
      var f1, f2 := Filed(b, s, m1, q), Filed(b, s, m2, q);
      assert Filed(b, s, m1 + m2, q) == f1 + f2;
      assert multiset(f1 + f2) == multiset(f1) + multiset(f2);
    }
  }
}
