/** The records of the arena and the invariants that tie them together, stated
    on table values so that the methods of `SceneGraph.World` can hand each
    step to a small lemma.  A table is a sequence indexed by handle. */
module Tables {
  import opened Handles
  import opened Collections

  /** A component: its own type, the type of the manager that holds it, the
      order a manager created for it gets, and its entity back-reference. */
  datatype ComponentData = ComponentData(kind: Id, managerKind: Id, managerOrder: nat, entity: Option<EntityRef>)

  /** The scene and component fields of an entity (`EntityInner`); its depth,
      parent and children are the hierarchy tables of `World`. */
  datatype EntityData = EntityData(scene: Option<SceneRef>, components: map<Id, CompRef>)

  /** `SceneData` without its clock. */
  datatype SceneData = SceneData(initted: bool, entities: seq<EntityRef>,
                                 managerMap: map<Id, MgrRef>, managerList: seq<MgrRef>,
                                 pluginMap: map<Id, PluginRef>, pluginList: seq<PluginRef>)

  /** A component manager as the list manager of the tests: its type, its sort
      order, its scene back-reference and the components it holds, in order. */
  datatype ManagerData = ManagerData(kind: Id, order: nat, scene: Option<SceneRef>, members: seq<CompRef>)

  /** A plugin: its type, its sort order and its scene back-reference. */
  datatype PluginData = PluginData(id: Id, order: nat, scene: Option<SceneRef>)

  /** The sort keys of all managers. */
  function MgrOrders(mgrs: seq<ManagerData>): (m: map<MgrRef, nat>)
    ensures forall r :: 0 <= r < |mgrs| ==> r in m && m[r] == mgrs[r].order
  {
    map r | 0 <= r < |mgrs| :: mgrs[r].order
  }

  /** Managers that keep their orders keep the order map. */
  lemma MgrOrdersKept(mgrs: seq<ManagerData>, mgrs': seq<ManagerData>)
    requires |mgrs'| == |mgrs| && forall r :: 0 <= r < |mgrs| ==> mgrs'[r].order == mgrs[r].order
    ensures MgrOrders(mgrs') == MgrOrders(mgrs)
  {
  }

  /** The Ids of all managers, the key `__remove_component` searches the manager list by. */
  function MgrKinds(mgrs: seq<ManagerData>): (m: map<MgrRef, Id>)
    ensures forall r :: 0 <= r < |mgrs| ==> r in m && m[r] == mgrs[r].kind
  {
    map r | 0 <= r < |mgrs| :: mgrs[r].kind
  }

  /** The sort keys of all plugins. */
  function PluginOrders(plugins: seq<PluginData>): (m: map<PluginRef, nat>)
    ensures forall p :: 0 <= p < |plugins| ==> p in m && m[p] == plugins[p].order
  {
    map p | 0 <= p < |plugins| :: plugins[p].order
  }

  /** The Ids of all plugins, the key `remove_plugin` searches the plugin list by. */
  function PluginIds(plugins: seq<PluginData>): (m: map<PluginRef, Id>)
    ensures forall p :: 0 <= p < |plugins| ==> p in m && m[p] == plugins[p].id
  {
    map p | 0 <= p < |plugins| :: plugins[p].id
  }

  /** The components of an entity in the order the model visits its
      component map: ascending by type Id.  (A `HashMap` iterates in an order
      it does not specify.) */
  function CompsOf(m: map<Id, CompRef>): (cs: seq<CompRef>)
    ensures forall c :: c in cs <==> c in m.Values
  {
    var ids := SortedIds(m.Keys);
    var cs := seq(|ids|, i requires 0 <= i < |ids| => m[ids[i]]);
    assert forall c :: c in m.Values ==> c in cs by {
      forall c | c in m.Values ensures c in cs {
        var t :| t in m && m[t] == c;
        var i :| 0 <= i < |ids| && ids[i] == t;
        assert cs[i] == c;
      }
    }
    cs
  }

  // ---------------------------------------------------------------------------
  // Well-formedness

  /** An entity's scene exists. */
  ghost predicate EntitiesKnown(ents: seq<EntityData>, nScenes: nat)
  {
    forall x :: 0 <= x < |ents| && ents[x].scene.Some? ==> ents[x].scene.value < nScenes
  }

  /** `owner` is exactly the inverse of the component maps: the component stored
      under type `t` of entity `x` exists, has type `t` and is owned by `x`, and
      an owned component is stored under its type by its owner.  So two entities
      never share a component. */
  ghost predicate Owned(ents: seq<EntityData>, comps: seq<ComponentData>, owner: seq<Option<EntityRef>>)
  {
    |owner| == |comps| &&
    (forall x, t :: 0 <= x < |ents| && t in ents[x].components ==>
      ents[x].components[t] < |comps| && comps[ents[x].components[t]].kind == t &&
      owner[ents[x].components[t]] == Some(x)) &&
    (forall c :: 0 <= c < |owner| && owner[c].Some? ==>
      owner[c].value < |ents| && comps[c].kind in ents[owner[c].value].components &&
      ents[owner[c].value].components[comps[c].kind] == c)
  }

  /** Every entry of a scene's entity list is an entity that records that
      scene or no scene at all, and no list repeats an entity.  (An entity is
      pushed onto the list just before its scene is set, and `Entity::clear`
      drops the scene of an entity that is still listed.) */
  ghost predicate ListsAgree(ents: seq<EntityData>, scenes: seq<SceneData>)
  {
    (forall s, i :: 0 <= s < |scenes| && 0 <= i < |scenes[s].entities| ==>
      scenes[s].entities[i] < |ents| &&
      ents[scenes[s].entities[i]].scene in {None, Some(s)}) &&
    (forall s :: 0 <= s < |scenes| ==> NoDup(scenes[s].entities))
  }

  /** The manager map and the manager list of scene `s` hold the same managers,
      one per Id, each with its scene back-reference set to `s`. */
  ghost predicate ManagersAgree(sd: SceneData, mgrs: seq<ManagerData>, s: SceneRef)
  {
    NoDup(sd.managerList) &&
    (forall k :: k in sd.managerMap ==>
      sd.managerMap[k] < |mgrs| && mgrs[sd.managerMap[k]].kind == k && sd.managerMap[k] in sd.managerList) &&
    (forall r :: r in sd.managerList ==>
      r < |mgrs| && mgrs[r].scene == Some(s) && mgrs[r].kind in sd.managerMap && sd.managerMap[mgrs[r].kind] == r)
  }

  ghost predicate AllManagersAgree(scenes: seq<SceneData>, mgrs: seq<ManagerData>)
  {
    forall s :: 0 <= s < |scenes| ==> ManagersAgree(scenes[s], mgrs, s)
  }

  /** The plugin tables name existing plugins, and the map files each plugin under its own Id. */
  ghost predicate PluginsKnown(scenes: seq<SceneData>, plugins: seq<PluginData>)
  {
    (forall s, k :: 0 <= s < |scenes| && k in scenes[s].pluginMap ==>
      scenes[s].pluginMap[k] < |plugins| && plugins[scenes[s].pluginMap[k]].id == k) &&
    (forall s, i :: 0 <= s < |scenes| && 0 <= i < |scenes[s].pluginList| ==> scenes[s].pluginList[i] < |plugins|)
  }

  // ---------------------------------------------------------------------------
  // The consistency the scene protocol maintains

  /** `x` sits in the entity list of the scene it records, and in no list
      when it records no scene. */
  ghost predicate Listed(ents: seq<EntityData>, scenes: seq<SceneData>, x: EntityRef)
  {
    x < |ents| &&
    (ents[x].scene.Some? ==> ents[x].scene.value < |scenes| && x in scenes[ents[x].scene.value].entities) &&
    (ents[x].scene.None? ==> forall s :: 0 <= s < |scenes| ==> x !in scenes[s].entities)
  }

  /** Component `c` is held by the manager of its manager Id in scene `s`. */
  ghost predicate Registered(scenes: seq<SceneData>, comps: seq<ComponentData>, mgrs: seq<ManagerData>,
                             s: SceneRef, c: CompRef)
  {
    s < |scenes| && c < |comps| && comps[c].managerKind in scenes[s].managerMap &&
    scenes[s].managerMap[comps[c].managerKind] < |mgrs| &&
    c in mgrs[scenes[s].managerMap[comps[c].managerKind]].members
  }

  /** Every component of `x` is registered with the scene of `x`. */
  ghost predicate RegisteredAll(ents: seq<EntityData>, scenes: seq<SceneData>, comps: seq<ComponentData>,
                                mgrs: seq<ManagerData>, x: EntityRef)
  {
    x < |ents| &&
    (ents[x].scene.Some? ==> forall t :: t in ents[x].components ==>
      Registered(scenes, comps, mgrs, ents[x].scene.value, ents[x].components[t]))
  }

  /** `x` is listed by its own scene and its components are registered there. */
  ghost predicate GoodAt(ents: seq<EntityData>, scenes: seq<SceneData>, comps: seq<ComponentData>,
                         mgrs: seq<ManagerData>, x: EntityRef)
  {
    Listed(ents, scenes, x) && RegisteredAll(ents, scenes, comps, mgrs, x)
  }

  ghost predicate ConsistentAll(ents: seq<EntityData>, scenes: seq<SceneData>, comps: seq<ComponentData>,
                                mgrs: seq<ManagerData>)
  {
    forall x :: 0 <= x < |ents| ==> GoodAt(ents, scenes, comps, mgrs, x)
  }

  /** Every manager a scene holds has at least one component: the scene drops
      a manager once its last component leaves. */
  ghost predicate NoEmptyManagers(scenes: seq<SceneData>, mgrs: seq<ManagerData>)
  {
    forall s, k :: 0 <= s < |scenes| && k in scenes[s].managerMap ==>
      scenes[s].managerMap[k] < |mgrs| && mgrs[scenes[s].managerMap[k]].members != []
  }

  /** The well-formedness of all tables but the hierarchy. */
  ghost predicate TablesOk(ents: seq<EntityData>, comps: seq<ComponentData>, owner: seq<Option<EntityRef>>,
                           scenes: seq<SceneData>, mgrs: seq<ManagerData>, plugins: seq<PluginData>)
  {
    EntitiesKnown(ents, |scenes|) && Owned(ents, comps, owner) && ListsAgree(ents, scenes) &&
    AllManagersAgree(scenes, mgrs) && PluginsKnown(scenes, plugins)
  }

  /** Every registration of the first state but those of component `but` holds in the second. */
  ghost predicate RegsKept(scenes: seq<SceneData>, comps: seq<ComponentData>, mgrs: seq<ManagerData>,
                           scenes': seq<SceneData>, comps': seq<ComponentData>, mgrs': seq<ManagerData>,
                           but: Option<CompRef>)
  {
    forall t: SceneRef, d: CompRef :: but != Some(d) && Registered(scenes, comps, mgrs, t, d) ==>
      Registered(scenes', comps', mgrs', t, d)
  }

  /** Every entity but `but` that is listed and registered in the first state is so in the second. */
  ghost predicate GoodsKept(ents: seq<EntityData>, scenes: seq<SceneData>, comps: seq<ComponentData>, mgrs: seq<ManagerData>,
                            ents': seq<EntityData>, scenes': seq<SceneData>, comps': seq<ComponentData>, mgrs': seq<ManagerData>,
                            but: Option<EntityRef>)
  {
    forall x: EntityRef :: x < |ents| && but != Some(x) && GoodAt(ents, scenes, comps, mgrs, x) ==>
      GoodAt(ents', scenes', comps', mgrs', x)
  }

  /** Entity lists and the scenes the entities record are all that
      `ListsAgree` and `Listed` look at. */
  lemma ListedKept(ents: seq<EntityData>, scenes: seq<SceneData>, ents': seq<EntityData>, scenes': seq<SceneData>)
    requires |ents'| == |ents| && forall y :: 0 <= y < |ents| ==> ents'[y].scene == ents[y].scene
    requires |scenes'| == |scenes| && forall u :: 0 <= u < |scenes| ==> scenes'[u].entities == scenes[u].entities
    ensures ListsAgree(ents, scenes) ==> ListsAgree(ents', scenes')
    ensures forall y :: Listed(ents, scenes, y) ==> Listed(ents', scenes', y)
  {
  }

  /** The components of an entity are distinct and owned by it. */
  lemma CompsOfOwned(ents: seq<EntityData>, comps: seq<ComponentData>, owner: seq<Option<EntityRef>>, x: EntityRef)
    requires Owned(ents, comps, owner) && x < |ents|
    ensures var cs := CompsOf(ents[x].components);
      NoDup(cs) && forall c :: c in cs ==> c < |comps| && owner[c] == Some(x)
  {
    var m := ents[x].components;
    var ids := SortedIds(m.Keys);
    var cs := CompsOf(m);
    forall i, j | 0 <= i < j < |cs| ensures cs[i] != cs[j] {
      assert cs[i] == m[ids[i]] && cs[j] == m[ids[j]];
      assert comps[cs[i]].kind == ids[i] && comps[cs[j]].kind == ids[j];
    }
  }

  // ---------------------------------------------------------------------------
  // Creation keeps every invariant

  lemma NewEntityTables(ents: seq<EntityData>, scenes: seq<SceneData>, comps: seq<ComponentData>,
                        mgrs: seq<ManagerData>, owner: seq<Option<EntityRef>>)
    requires Owned(ents, comps, owner) && ListsAgree(ents, scenes) && EntitiesKnown(ents, |scenes|)
    ensures Owned(ents + [EntityData(None, map[])], comps, owner)
    ensures ListsAgree(ents + [EntityData(None, map[])], scenes)
    ensures EntitiesKnown(ents + [EntityData(None, map[])], |scenes|)
    ensures ConsistentAll(ents, scenes, comps, mgrs) ==>
      ConsistentAll(ents + [EntityData(None, map[])], scenes, comps, mgrs)
  {
    var e := ents + [EntityData(None, map[])];
    if ConsistentAll(ents, scenes, comps, mgrs) {
      forall x | 0 <= x < |e|
        ensures GoodAt(e, scenes, comps, mgrs, x)
      {
        if x < |ents| {
          assert GoodAt(ents, scenes, comps, mgrs, x);
        }
      }
    }
  }

  lemma NewComponentTables(ents: seq<EntityData>, scenes: seq<SceneData>, comps: seq<ComponentData>,
                           mgrs: seq<ManagerData>, owner: seq<Option<EntityRef>>, c: ComponentData)
    requires Owned(ents, comps, owner)
    ensures Owned(ents, comps + [c], owner + [None])
    ensures ConsistentAll(ents, scenes, comps, mgrs) ==> ConsistentAll(ents, scenes, comps + [c], mgrs)
  {
    if ConsistentAll(ents, scenes, comps, mgrs) {
      forall x | 0 <= x < |ents|
        ensures GoodAt(ents, scenes, comps + [c], mgrs, x)
      {
        assert GoodAt(ents, scenes, comps, mgrs, x);
      }
    }
  }

  lemma NewSceneTables(ents: seq<EntityData>, scenes: seq<SceneData>, comps: seq<ComponentData>,
                       mgrs: seq<ManagerData>, plugins: seq<PluginData>)
    requires ListsAgree(ents, scenes) && EntitiesKnown(ents, |scenes|)
    requires AllManagersAgree(scenes, mgrs) && PluginsKnown(scenes, plugins)
    ensures ListsAgree(ents, scenes + [SceneData(false, [], map[], [], map[], [])])
    ensures EntitiesKnown(ents, |scenes| + 1)
    ensures AllManagersAgree(scenes + [SceneData(false, [], map[], [], map[], [])], mgrs)
    ensures PluginsKnown(scenes + [SceneData(false, [], map[], [], map[], [])], plugins)
    ensures ConsistentAll(ents, scenes, comps, mgrs) ==>
      ConsistentAll(ents, scenes + [SceneData(false, [], map[], [], map[], [])], comps, mgrs)
  {
    var sc := scenes + [SceneData(false, [], map[], [], map[], [])];
    forall s | 0 <= s < |sc|
      ensures ManagersAgree(sc[s], mgrs, s)
    {
      if s < |scenes| {
        assert sc[s] == scenes[s];
      }
    }
    if ConsistentAll(ents, scenes, comps, mgrs) {
      forall x | 0 <= x < |ents|
        ensures GoodAt(ents, sc, comps, mgrs, x)
      {
        assert GoodAt(ents, scenes, comps, mgrs, x);
        assert RegisteredAll(ents, sc, comps, mgrs, x);
      }
    }
  }

  // ---------------------------------------------------------------------------
  // Registration steps

  /** Two component tables that give every component the same types. */
  ghost predicate SameKinds(comps: seq<ComponentData>, comps': seq<ComponentData>)
  {
    |comps'| == |comps| &&
    forall c :: 0 <= c < |comps| ==>
      comps'[c].kind == comps[c].kind && comps'[c].managerKind == comps[c].managerKind
  }

  /** Ownership and registration do not look at a component's back-reference. */
  lemma SameKindsTables(ents: seq<EntityData>, scenes: seq<SceneData>, comps: seq<ComponentData>,
                        comps': seq<ComponentData>, mgrs: seq<ManagerData>, owner: seq<Option<EntityRef>>)
    requires SameKinds(comps, comps')
    ensures Owned(ents, comps, owner) ==> Owned(ents, comps', owner)
    ensures forall s, c :: Registered(scenes, comps, mgrs, s, c) ==> Registered(scenes, comps', mgrs, s, c)
  {
  }

  /** Entities keep their standing when the entity lists stay and no registration is lost. */
  lemma GoodKept(ents: seq<EntityData>, scenes: seq<SceneData>, comps: seq<ComponentData>, mgrs: seq<ManagerData>,
                 scenes': seq<SceneData>, comps': seq<ComponentData>, mgrs': seq<ManagerData>)
    requires |scenes'| == |scenes|
    requires forall s :: 0 <= s < |scenes| ==> scenes'[s].entities == scenes[s].entities
    requires forall s, c :: Registered(scenes, comps, mgrs, s, c) ==> Registered(scenes', comps', mgrs', s, c)
    ensures forall x :: GoodAt(ents, scenes, comps, mgrs, x) ==> GoodAt(ents, scenes', comps', mgrs', x)
    ensures ListsAgree(ents, scenes) ==> ListsAgree(ents, scenes')
  {
  }

  /** As `GoodKept`, when only the registrations of component `c` may be lost:
      every entity but the owner of `c` keeps its standing. */
  lemma GoodKeptBut(ents: seq<EntityData>, scenes: seq<SceneData>, comps: seq<ComponentData>, mgrs: seq<ManagerData>,
                    owner: seq<Option<EntityRef>>, c: CompRef,
                    scenes': seq<SceneData>, comps': seq<ComponentData>, mgrs': seq<ManagerData>)
    requires Owned(ents, comps, owner) && c < |comps|
    requires |scenes'| == |scenes|
    requires forall s :: 0 <= s < |scenes| ==> scenes'[s].entities == scenes[s].entities
    requires forall s, d :: d != c && Registered(scenes, comps, mgrs, s, d) ==> Registered(scenes', comps', mgrs', s, d)
    ensures forall x: EntityRef :: GoodAt(ents, scenes, comps, mgrs, x) && owner[c] != Some(x) ==> GoodAt(ents, scenes', comps', mgrs', x)
  {
    forall x: EntityRef | GoodAt(ents, scenes, comps, mgrs, x) && owner[c] != Some(x)
      ensures RegisteredAll(ents, scenes', comps', mgrs', x)
    {
      if ents[x].scene.Some? {
        forall t | t in ents[x].components
          ensures Registered(scenes', comps', mgrs', ents[x].scene.value, ents[x].components[t])
        {
          assert owner[ents[x].components[t]] == Some(x);
        }
      }
    }
  }

  /** Changing the members of one manager keeps the manager tables in agreement;
      a registration survives when its component stays a member. */
  lemma MembersTables(scenes: seq<SceneData>, comps: seq<ComponentData>, mgrs: seq<ManagerData>,
                      r: MgrRef, m: seq<CompRef>)
    requires AllManagersAgree(scenes, mgrs) && r < |mgrs|
    ensures AllManagersAgree(scenes, mgrs[r := mgrs[r].(members := m)])
    ensures forall s, c :: Registered(scenes, comps, mgrs, s, c) && (c in mgrs[r].members ==> c in m) ==>
      Registered(scenes, comps, mgrs[r := mgrs[r].(members := m)], s, c)
  {
    var m' := mgrs[r := mgrs[r].(members := m)];
    forall s | 0 <= s < |scenes| ensures ManagersAgree(scenes[s], m', s) {
      assert ManagersAgree(scenes[s], mgrs, s);
    }
  }

  /** A new manager for the manager Id of `c`, holding `c`, filed in scene `s`
      under a list with the old entries plus the new one. */
  lemma NewManagerTables(scenes: seq<SceneData>, comps: seq<ComponentData>, mgrs: seq<ManagerData>,
                         s: SceneRef, c: CompRef, list: seq<MgrRef>)
    requires AllManagersAgree(scenes, mgrs) && s < |scenes| && c < |comps|
    requires comps[c].managerKind !in scenes[s].managerMap
    requires multiset(list) == multiset(scenes[s].managerList + [|mgrs|])
    ensures var m' := mgrs + [ManagerData(comps[c].managerKind, comps[c].managerOrder, Some(s), [c])];
            var sc' := scenes[s := scenes[s].(managerMap := scenes[s].managerMap[comps[c].managerKind := |mgrs|],
                                              managerList := list)];
            AllManagersAgree(sc', m') && Registered(sc', comps, m', s, c) &&
            forall t, d :: Registered(scenes, comps, mgrs, t, d) ==> Registered(sc', comps, m', t, d)
  {
    var k, r := comps[c].managerKind, |mgrs|;
    var m' := mgrs + [ManagerData(k, comps[c].managerOrder, Some(s), [c])];
    var sd := scenes[s];
    var sd' := sd.(managerMap := sd.managerMap[k := r], managerList := list);
    var sc' := scenes[s := sd'];
    assert ManagersAgree(sd, mgrs, s);
    assert r !in sd.managerList;
    assert NoDup(sd.managerList + [r]);
    NoDupMultisetEqual(sd.managerList + [r], list);
    forall q | q in list ensures q in sd.managerList || q == r {
      assert q in multiset(list);
    }
    forall q | q in sd.managerList + [r] ensures q in list {
      assert q in multiset(sd.managerList + [r]);
    }
    assert ManagersAgree(sd', m', s);
    forall t | 0 <= t < |sc'| ensures ManagersAgree(sc'[t], m', t) {
      if t != s {
        assert ManagersAgree(scenes[t], mgrs, t);
      }
    }
  }

  /** `Vector::position` of the manager with Id `k` finds the one the map
      files under `k`, and removing at that position removes that manager. */
  lemma KindPosition(sd: SceneData, mgrs: seq<ManagerData>, s: SceneRef, k: Id)
    requires ManagersAgree(sd, mgrs, s) && k in sd.managerMap
    ensures forall j :: 0 <= j < |sd.managerList| ==> sd.managerList[j] in MgrKinds(mgrs)
    ensures var i := IndexOfKey(sd.managerList, MgrKinds(mgrs), k);
      i.Some? && sd.managerList[i.value] == sd.managerMap[k] &&
      RemoveAt(sd.managerList, i.value) == RemoveFirst<MgrRef>(sd.managerList, sd.managerMap[k])
  {
    var list, key, r := sd.managerList, MgrKinds(mgrs), sd.managerMap[k];
    assert forall j :: 0 <= j < |list| ==> list[j] in list;
    var i := IndexOf(list, r);
    var j := IndexOfKey(list, key, k);
    assert key[list[i.value]] == k;
    assert list[j.value] in list;
    assert list[j.value] == r;
  }

  /** The position of the manager with Id `k` in the manager list of a scene,
      found as `iter().position(|c| c.get_id() == id)` finds it. */
  function ManagerIndex(sd: SceneData, mgrs: seq<ManagerData>, s: SceneRef, k: Id): (i: nat)
    requires ManagersAgree(sd, mgrs, s) && k in sd.managerMap
    ensures i < |sd.managerList| && sd.managerList[i] == sd.managerMap[k]
    ensures RemoveAt(sd.managerList, i) == RemoveFirst<MgrRef>(sd.managerList, sd.managerMap[k])
  {
    KindPosition(sd, mgrs, s, k);
    IndexOfKey(sd.managerList, MgrKinds(mgrs), k).value
  }

  /** Dropping the manager filed under `k` from scene `s`: out of the map, out
      of the list, scene back-reference cleared.  Registrations under other
      Ids, and in other scenes, survive. */
  lemma DropManagerTables(scenes: seq<SceneData>, comps: seq<ComponentData>, mgrs: seq<ManagerData>,
                          s: SceneRef, k: Id)
    requires AllManagersAgree(scenes, mgrs) && s < |scenes| && k in scenes[s].managerMap
    ensures var r := scenes[s].managerMap[k];
            var sc' := scenes[s := scenes[s].(managerMap := scenes[s].managerMap - {k},
                                              managerList := RemoveFirst<MgrRef>(scenes[s].managerList, r))];
            var m' := mgrs[r := mgrs[r].(scene := None)];
            AllManagersAgree(sc', m') &&
            forall t: SceneRef, d: CompRef :: Registered(scenes, comps, mgrs, t, d) && (t == s ==> comps[d].managerKind != k) ==>
              Registered(sc', comps, m', t, d)
  {
    var sd := scenes[s];
    var r := sd.managerMap[k];
    var sd' := sd.(managerMap := sd.managerMap - {k}, managerList := RemoveFirst<MgrRef>(sd.managerList, r));
    var sc' := scenes[s := sd'];
    var m' := mgrs[r := mgrs[r].(scene := None)];
    assert ManagersAgree(sd, mgrs, s);
    RemoveFirstNoDup(sd.managerList, r);
    forall q | q in sd'.managerList ensures q in sd.managerList && q != r {
      RemoveFirstSubset(sd.managerList, r, q);
    }
    forall k' | k' in sd'.managerMap ensures sd'.managerMap[k'] in sd'.managerList {
      RemoveFirstOthers(sd.managerList, r, sd.managerMap[k']);
    }
    assert ManagersAgree(sd', m', s);
    forall t | 0 <= t < |sc'| ensures ManagersAgree(sc'[t], m', t) {
      if t != s {
        assert ManagersAgree(scenes[t], mgrs, t);
        assert r !in scenes[t].managerList;
      }
    }
  }

  // ---------------------------------------------------------------------------
  // One lemma per step of `__add_component` and `__remove_component`

  /** `__add_component` with an existing manager: `c` joins its members. */
  lemma JoinManagerStep(ents: seq<EntityData>, comps: seq<ComponentData>, owner: seq<Option<EntityRef>>,
                        scenes: seq<SceneData>, mgrs: seq<ManagerData>, plugins: seq<PluginData>,
                        s: SceneRef, c: CompRef, r: MgrRef, mgrs': seq<ManagerData>)
    requires TablesOk(ents, comps, owner, scenes, mgrs, plugins) && s < |scenes| && c < |comps|
    requires comps[c].managerKind in scenes[s].managerMap && r == scenes[s].managerMap[comps[c].managerKind]
    requires r < |mgrs| && mgrs' == mgrs[r := mgrs[r].(members := mgrs[r].members + [c])]
    ensures TablesOk(ents, comps, owner, scenes, mgrs', plugins)
    ensures Registered(scenes, comps, mgrs', s, c)
    ensures RegsKept(scenes, comps, mgrs, scenes, comps, mgrs', None)
    ensures GoodsKept(ents, scenes, comps, mgrs, ents, scenes, comps, mgrs', None)
    ensures NoEmptyManagers(scenes, mgrs) ==> NoEmptyManagers(scenes, mgrs')
  {
    MembersTables(scenes, comps, mgrs, r, mgrs[r].members + [c]);
    GoodKept(ents, scenes, comps, mgrs, scenes, comps, mgrs');
  }

  /** The manager list of a scene, with a new manager appended, has a sort key for every entry. */
  lemma ListKeyed(sd: SceneData, mgrs: seq<ManagerData>, s: SceneRef, m: ManagerData)
    requires ManagersAgree(sd, mgrs, s)
    ensures Keyed(sd.managerList + [|mgrs|], MgrOrders(mgrs + [m]))
  {
    var l := sd.managerList + [|mgrs|];
    forall i | 0 <= i < |l| ensures l[i] < |mgrs + [m]| {
      if i < |sd.managerList| {
        assert l[i] in sd.managerList;
      }
    }
  }

  /** `__add_component` without a manager: a new one holding `c` is filed
      under the manager Id of `c`, at the end of the list or sorted into it. */
  lemma NewManagerStep(ents: seq<EntityData>, comps: seq<ComponentData>, owner: seq<Option<EntityRef>>,
                       scenes: seq<SceneData>, mgrs: seq<ManagerData>, plugins: seq<PluginData>,
                       s: SceneRef, c: CompRef, list: seq<MgrRef>, scenes': seq<SceneData>, mgrs': seq<ManagerData>)
    requires TablesOk(ents, comps, owner, scenes, mgrs, plugins) && s < |scenes| && c < |comps|
    requires comps[c].managerKind !in scenes[s].managerMap
    requires multiset(list) == multiset(scenes[s].managerList + [|mgrs|])
    requires mgrs' == mgrs + [ManagerData(comps[c].managerKind, comps[c].managerOrder, Some(s), [c])]
    requires scenes' == scenes[s := scenes[s].(managerMap := scenes[s].managerMap[comps[c].managerKind := |mgrs|],
                                               managerList := list)]
    ensures TablesOk(ents, comps, owner, scenes', mgrs', plugins)
    ensures Registered(scenes', comps, mgrs', s, c)
    ensures RegsKept(scenes, comps, mgrs, scenes', comps, mgrs', None)
    ensures GoodsKept(ents, scenes, comps, mgrs, ents, scenes', comps, mgrs', None)
    ensures NoEmptyManagers(scenes, mgrs) ==> NoEmptyManagers(scenes', mgrs')
  {
    NewManagerTables(scenes, comps, mgrs, s, c, list);
    GoodKept(ents, scenes, comps, mgrs, scenes', comps, mgrs');
  }

  /** `__remove_component` keeping the manager: `c` loses its back-reference
      and leaves the members. */
  lemma LeaveManagerStep(ents: seq<EntityData>, comps: seq<ComponentData>, owner: seq<Option<EntityRef>>,
                         scenes: seq<SceneData>, mgrs: seq<ManagerData>, plugins: seq<PluginData>,
                         s: SceneRef, c: CompRef, r: MgrRef, comps': seq<ComponentData>, mgrs': seq<ManagerData>)
    requires TablesOk(ents, comps, owner, scenes, mgrs, plugins) && s < |scenes| && c < |comps|
    requires comps[c].managerKind in scenes[s].managerMap && r == scenes[s].managerMap[comps[c].managerKind]
    requires comps' == comps[c := comps[c].(entity := None)]
    requires r < |mgrs| && mgrs' == mgrs[r := mgrs[r].(members := RemoveFirst<CompRef>(mgrs[r].members, c))]
    ensures TablesOk(ents, comps', owner, scenes, mgrs', plugins)
    ensures RegsKept(scenes, comps, mgrs, scenes, comps', mgrs', Some(c))
    ensures GoodsKept(ents, scenes, comps, mgrs, ents, scenes, comps', mgrs', owner[c])
    ensures NoEmptyManagers(scenes, mgrs) && mgrs'[r].members != [] ==> NoEmptyManagers(scenes, mgrs')
  {
    SameKindsTables(ents, scenes, comps, comps', mgrs, owner);
    var m := RemoveFirst<CompRef>(mgrs[r].members, c);
    forall d | d != c && d in mgrs[r].members ensures d in m {
      RemoveFirstOthers(mgrs[r].members, c, d);
    }
    MembersTables(scenes, comps', mgrs, r, m);
    GoodKeptBut(ents, scenes, comps, mgrs, owner, c, scenes, comps', mgrs');
  }

  /** `__remove_component` dropping the manager, which holds nothing once `c`
      has left: it loses its scene and leaves the scene's map and list. */
  lemma DropManagerStep(ents: seq<EntityData>, comps: seq<ComponentData>, owner: seq<Option<EntityRef>>,
                        scenes: seq<SceneData>, mgrs: seq<ManagerData>, plugins: seq<PluginData>,
                        s: SceneRef, c: CompRef, r: MgrRef,
                        comps': seq<ComponentData>, scenes': seq<SceneData>, mgrs': seq<ManagerData>)
    requires TablesOk(ents, comps, owner, scenes, mgrs, plugins) && s < |scenes| && c < |comps|
    requires comps[c].managerKind in scenes[s].managerMap && r == scenes[s].managerMap[comps[c].managerKind]
    requires r < |mgrs| && RemoveFirst<CompRef>(mgrs[r].members, c) == []
    requires comps' == comps[c := comps[c].(entity := None)]
    requires var m1 := mgrs[r := mgrs[r].(members := RemoveFirst<CompRef>(mgrs[r].members, c))];
      mgrs' == m1[r := m1[r].(scene := None)]
    requires scenes' == scenes[s := scenes[s].(managerMap := scenes[s].managerMap - {comps[c].managerKind},
                                               managerList := RemoveFirst<MgrRef>(scenes[s].managerList, r))]
    ensures mgrs' == mgrs[r := mgrs[r].(scene := None, members := [])]
    ensures TablesOk(ents, comps', owner, scenes', mgrs', plugins)
    ensures RegsKept(scenes, comps, mgrs, scenes', comps', mgrs', Some(c))
    ensures GoodsKept(ents, scenes, comps, mgrs, ents, scenes', comps', mgrs', owner[c])
    ensures NoEmptyManagers(scenes, mgrs) ==> NoEmptyManagers(scenes', mgrs')
  {
    var k := comps[c].managerKind;
    assert forall u :: 0 <= u < |scenes| ==>
      scenes'[u].entities == scenes[u].entities && scenes'[u].pluginMap == scenes[u].pluginMap &&
      scenes'[u].pluginList == scenes[u].pluginList;
    ListedKept(ents, scenes, ents, scenes');
    assert PluginsKnown(scenes', plugins);
    SameKindsTables(ents, scenes, comps, comps', mgrs, owner);
    OnlyMember(mgrs[r].members, c);
    DropManagerRegs(scenes, comps, comps', mgrs, s, c, r, scenes', mgrs');
    GoodKeptBut(ents, scenes, comps, mgrs, owner, c, scenes', comps', mgrs');
    if NoEmptyManagers(scenes, mgrs) {
      DropManagerNoEmpty(scenes, mgrs, s, k, r, scenes', mgrs');
    }
  }

  /** A list that loses everything when `c` is removed holds nothing but `c`. */
  lemma OnlyMember(ms: seq<CompRef>, c: CompRef)
    requires RemoveFirst(ms, c) == []
    ensures forall d :: d in ms ==> d == c
  {
    forall d | d in ms ensures d == c {
      if d != c {
        RemoveFirstOthers(ms, c, d);
      }
    }
  }

  /** The manager tables after dropping a manager that held only `c`: they
      still agree, and every registration but that of `c` survives. */
  lemma DropManagerRegs(scenes: seq<SceneData>, comps: seq<ComponentData>, comps': seq<ComponentData>,
                        mgrs: seq<ManagerData>, s: SceneRef, c: CompRef, r: MgrRef,
                        scenes': seq<SceneData>, mgrs': seq<ManagerData>)
    requires AllManagersAgree(scenes, mgrs) && s < |scenes| && c < |comps| && SameKinds(comps, comps')
    requires comps[c].managerKind in scenes[s].managerMap && r == scenes[s].managerMap[comps[c].managerKind]
    requires r < |mgrs| && forall d :: d in mgrs[r].members ==> d == c
    requires mgrs' == mgrs[r := mgrs[r].(scene := None, members := [])]
    requires scenes' == scenes[s := scenes[s].(managerMap := scenes[s].managerMap - {comps[c].managerKind},
                                               managerList := RemoveFirst<MgrRef>(scenes[s].managerList, r))]
    ensures AllManagersAgree(scenes', mgrs')
    ensures RegsKept(scenes, comps, mgrs, scenes', comps', mgrs', Some(c))
  {
    var k := comps[c].managerKind;
    var m1 := mgrs[r := mgrs[r].(members := [])];
    MembersTables(scenes, comps', mgrs, r, []);
    DropManagerTables(scenes, comps', m1, s, k);
    assert m1[r := m1[r].(scene := None)] == mgrs';
    forall t: SceneRef, d: CompRef | d != c && Registered(scenes, comps, mgrs, t, d)
      ensures Registered(scenes', comps', mgrs', t, d)
    {
      assert Registered(scenes, comps', mgrs, t, d);
      assert d !in mgrs[r].members;
      assert Registered(scenes, comps', m1, t, d);
    }
  }

  /** Dropping the manager filed under `k` in scene `s` leaves no other map
      entry pointing at it, so no scene is left holding an empty manager. */
  lemma DropManagerNoEmpty(scenes: seq<SceneData>, mgrs: seq<ManagerData>, s: SceneRef, k: Id, r: MgrRef,
                           scenes': seq<SceneData>, mgrs': seq<ManagerData>)
    requires AllManagersAgree(scenes, mgrs) && NoEmptyManagers(scenes, mgrs)
    requires s < |scenes| && k in scenes[s].managerMap && r == scenes[s].managerMap[k] && r < |mgrs|
    requires mgrs' == mgrs[r := mgrs[r].(scene := None, members := [])]
    requires scenes' == scenes[s := scenes[s].(managerMap := scenes[s].managerMap - {k},
                                               managerList := RemoveFirst<MgrRef>(scenes[s].managerList, r))]
    ensures NoEmptyManagers(scenes', mgrs')
  {
    assert ManagersAgree(scenes[s], mgrs, s);
    forall t, k' | 0 <= t < |scenes'| && k' in scenes'[t].managerMap
      ensures scenes'[t].managerMap[k'] != r
    {
      assert ManagersAgree(scenes[t], mgrs, t);
    }
  }

  // ---------------------------------------------------------------------------
  // Entity component maps, scene lists

  /** Filing an unowned component `c` under its own type, absent from the map
      of `x`, keeps ownership exact. */
  lemma InsertComponentTables(ents: seq<EntityData>, comps: seq<ComponentData>, owner: seq<Option<EntityRef>>,
                              x: EntityRef, c: CompRef)
    requires Owned(ents, comps, owner) && x < |ents| && c < |comps| && owner[c] == None
    requires comps[c].kind !in ents[x].components
    ensures Owned(ents[x := ents[x].(components := ents[x].components[comps[c].kind := c])], comps, owner[c := Some(x)])
  {
    var t := comps[c].kind;
    var ents', owner' := ents[x := ents[x].(components := ents[x].components[t := c])], owner[c := Some(x)];
    forall y, u | 0 <= y < |ents'| && u in ents'[y].components
      ensures ents'[y].components[u] < |comps| && comps[ents'[y].components[u]].kind == u &&
              owner'[ents'[y].components[u]] == Some(y)
    {
      if y != x || u != t {
        assert ents'[y].components[u] == ents[y].components[u];
      }
    }
  }

  /** Taking the component filed under `t` out of the map of `x` and giving
      it no owner keeps ownership exact. */
  lemma DeleteComponentTables(ents: seq<EntityData>, comps: seq<ComponentData>, owner: seq<Option<EntityRef>>,
                              x: EntityRef, t: Id)
    requires Owned(ents, comps, owner) && x < |ents| && t in ents[x].components
    ensures Owned(ents[x := ents[x].(components := ents[x].components - {t})], comps,
                  owner[ents[x].components[t] := None])
  {
    var c := ents[x].components[t];
    var ents', owner' := ents[x := ents[x].(components := ents[x].components - {t})], owner[c := None];
    forall y, u | 0 <= y < |ents'| && u in ents'[y].components
      ensures owner'[ents'[y].components[u]] == Some(y)
    {
      assert ents'[y].components[u] == ents[y].components[u];
    }
  }

  /** Sorting (or otherwise permuting) the manager list of a scene keeps the
      map and the list in agreement. */
  lemma PermutedManagers(scenes: seq<SceneData>, mgrs: seq<ManagerData>, s: SceneRef, list: seq<MgrRef>)
    requires AllManagersAgree(scenes, mgrs) && s < |scenes|
    requires multiset(list) == multiset(scenes[s].managerList)
    ensures AllManagersAgree(scenes[s := scenes[s].(managerList := list)], mgrs)
  {
    var sd := scenes[s];
    assert ManagersAgree(sd, mgrs, s);
    NoDupMultisetEqual(sd.managerList, list);
    forall q ensures q in list <==> q in sd.managerList {
      assert q in list <==> q in multiset(list);
    }
    var sc' := scenes[s := sd.(managerList := list)];
    forall t | 0 <= t < |sc'| ensures ManagersAgree(sc'[t], mgrs, t) {
      assert ManagersAgree(scenes[t], mgrs, t);
    }
  }
}
