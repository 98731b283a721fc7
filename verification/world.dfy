/** The scene graph proper.  Entities, components, scenes, component managers
    and plugins live in one arena (`World`): a handle is an index into the
    arena's tables and creating an object appends to them.  Two handles denote
    the same object exactly when they are equal, which is what the pointer
    comparisons of `Entity` and `Scene` decide.

    Every operation updates the tables in place, step by step as the source
    does, and is proved to leave exactly the arena that its specification
    function in `Protocol`, `Propagation`, `EntityOps` or `SceneOps` computes
    from the arena before; what the operation promises is proved there. */
module SceneGraph {
  import opened Handles
  import opened Collections
  import opened Hierarchy
  import opened Tables
  import opened Protocol
  import opened Propagation
  import opened EntityOps
  import opened SceneOps

  class World {
    // The hierarchy fields of every entity, indexed by entity.
    var depth: seq<nat>
    var parent: seq<Option<EntityRef>>
    var children: seq<seq<EntityRef>>
    /** Fixed at creation; a child always ranks below its parent, so the
        children lists contain no cycle. */
    ghost var rank: seq<nat>

    // The remaining fields of every entity, component, scene, manager and plugin.
    var ents: seq<EntityData>
    var comps: seq<ComponentData>
    var scenes: seq<SceneData>
    var mgrs: seq<ManagerData>
    var plugins: seq<PluginData>

    /** The entity whose component map holds the component, if any. */
    ghost var owner: seq<Option<EntityRef>>
    /** Every lifecycle callback issued so far, in call order. */
    ghost var trace: seq<Event>

    /** The whole state as a value. */
    ghost function Snapshot(): Arena
      reads this
    {
      Arena(depth, parent, children, rank, ents, comps, owner, scenes, mgrs, plugins, trace)
    }

    ghost predicate Valid()
      reads this
    {
      WellFormed(Snapshot())
    }

    // -------------------------------------------------------------------------
    // Creation

    constructor ()
      ensures Snapshot() == Arena([], [], [], [], [], [], [], [], [], [], [])
      ensures Valid() && EntityOps.Forest(Snapshot())
    {
      depth, parent, children, rank, ents := [], [], [], [], [];
      comps, owner, scenes, mgrs, plugins := [], [], [], [], [];
      trace := [];
    }

    /** `Entity::new`: depth 0, no scene, no parent, no children, no components.
        The ghost `r` is the rank the caller gives the entity. */
    method NewEntity(ghost r: nat) returns (e: EntityRef)
      requires Valid()
      modifies this
      ensures e == |old(children)|
      ensures Snapshot() == old(Snapshot()).(depth := old(depth) + [0], parent := old(parent) + [None],
        children := old(children) + [[]], rank := old(rank) + [r], ents := old(ents) + [EntityData(None, map[])])
      ensures Valid() && Good(Snapshot(), e)
      ensures EntityOps.Forest(old(Snapshot())) ==> EntityOps.Forest(Snapshot())
      ensures ConsistentAll(old(ents), scenes, comps, mgrs) ==> ConsistentAll(ents, scenes, comps, mgrs)
    {
      e := |children|;
      AppendLeaf(children, rank, parent, depth, r);
      NewEntityTables(ents, scenes, comps, mgrs, owner);
      depth, parent, children := depth + [0], parent + [None], children + [[]];
      rank, ents := rank + [r], ents + [EntityData(None, map[])];
    }

    /** A new component of type `kind`, whose manager has Id `managerKind` and
        order `managerOrder`; it is attached to no entity. */
    method NewComponent(kind: Id, managerKind: Id, managerOrder: nat) returns (c: CompRef)
      requires Valid()
      modifies this
      ensures c == |old(comps)|
      ensures Snapshot() == old(Snapshot()).(comps := old(comps) + [ComponentData(kind, managerKind, managerOrder, None)],
                                             owner := old(owner) + [None])
      ensures Valid()
      ensures ConsistentAll(ents, scenes, old(comps), mgrs) ==> ConsistentAll(ents, scenes, comps, mgrs)
    {
      c := |comps|;
      NewComponentTables(ents, scenes, comps, mgrs, owner, ComponentData(kind, managerKind, managerOrder, None));
      comps, owner := comps + [ComponentData(kind, managerKind, managerOrder, None)], owner + [None];
    }

    /** `Scene::new`: not initted, no entities, no managers, no plugins. */
    method NewScene() returns (s: SceneRef)
      requires Valid()
      modifies this
      ensures s == |old(scenes)|
      ensures Snapshot() == old(Snapshot()).(scenes := old(scenes) + [SceneData(false, [], map[], [], map[], [])])
      ensures Valid()
      ensures ConsistentAll(ents, old(scenes), comps, mgrs) ==> ConsistentAll(ents, scenes, comps, mgrs)
    {
      s := |scenes|;
      NewSceneTables(ents, scenes, comps, mgrs, plugins);
      scenes := scenes + [SceneData(false, [], map[], [], map[], [])];
    }

    /** A new plugin with Id `id` and order `order`, in no scene. */
    method NewPlugin(id: Id, order: nat) returns (p: PluginRef)
      requires Valid()
      modifies this
      ensures p == |old(plugins)|
      ensures Snapshot() == old(Snapshot()).(plugins := old(plugins) + [PluginData(id, order, None)])
      ensures Valid()
    {
      p := |plugins|;
      plugins := plugins + [PluginData(id, order, None)];
    }

    // -------------------------------------------------------------------------
    // Queries

    /** `depth`: the cached depth, which in a consistent forest is 0 for a root
        and one more than the parent's depth otherwise. */
    function Depth(x: EntityRef): (d: nat)
      requires Valid() && x < |children|
      reads this
      ensures EntityOps.Forest(Snapshot()) && parent[x].None? ==> d == 0
      ensures EntityOps.Forest(Snapshot()) && parent[x].Some? ==>
        parent[x].value < |depth| && d == depth[parent[x].value] + 1
    {
      depth[x]
    }

    /** `component`: the component of type `t` attached to `x`, if there is one. */
    function Component(x: EntityRef, t: Id): (r: Option<CompRef>)
      requires Valid() && x < |children|
      reads this
      ensures r.Some? ==> r.value < |comps| && owner[r.value] == Some(x) && comps[r.value].kind == t
      ensures r.None? ==> forall c :: 0 <= c < |owner| && owner[c] == Some(x) ==> comps[c].kind != t
    {
      if t in ents[x].components then Some(ents[x].components[t]) else None
    }

    /** `has_component`: some component of type `t` is attached to `x`. */
    function HasComponent(x: EntityRef, t: Id): (b: bool)
      requires Valid() && x < |children|
      reads this
      ensures b <==> exists c :: 0 <= c < |owner| && owner[c] == Some(x) && comps[c].kind == t
    {
      assert t in ents[x].components ==> owner[ents[x].components[t]] == Some(x);
      t in ents[x].components
    }

    /** `Scene::has_entity`: `s` lists `x`; for a consistent `x` that is the
        same as `x` recording `s` as its scene. */
    function HasEntity(s: SceneRef, x: EntityRef): (r: bool)
      requires Valid() && s < |scenes|
      reads this
      ensures r <==> x in scenes[s].entities
      ensures x < |ents| && Good(Snapshot(), x) ==> (r <==> ents[x].scene == Some(s))
    {
      IndexOf(scenes[s].entities, x).Some?
    }

    /** `Scene::get_component_manager`: the manager `s` files under Id `k`,
        which has that Id, belongs to `s`, is on its list and, while no scene
        keeps an empty manager, holds a component. */
    function GetComponentManager(s: SceneRef, k: Id): (r: Option<MgrRef>)
      requires Valid() && s < |scenes|
      reads this
      ensures r.Some? <==> k in scenes[s].managerMap
      ensures r.Some? ==>
        r.value < |mgrs| && mgrs[r.value].kind == k && mgrs[r.value].scene == Some(s) && r.value in scenes[s].managerList
      ensures r.Some? && NoEmpty(Snapshot()) ==> mgrs[r.value].members != []
    {
      assert ManagersAgree(scenes[s], mgrs, s);
      if k in scenes[s].managerMap then Some(scenes[s].managerMap[k]) else None
    }

    /** `Scene::get_plugin`: the plugin `s` files under Id `id`, which has that Id. */
    function GetPlugin(s: SceneRef, id: Id): (r: Option<PluginRef>)
      requires Valid() && s < |scenes|
      reads this
      ensures r.Some? <==> id in scenes[s].pluginMap
      ensures r.Some? ==> r.value < |plugins| && plugins[r.value].id == id
    {
      if id in scenes[s].pluginMap then Some(scenes[s].pluginMap[id]) else None
    }

    /** `Scene::has_plugin`: `get_plugin` finds a plugin. */
    function HasPlugin(s: SceneRef, id: Id): (r: bool)
      requires Valid() && s < |scenes|
      reads this
      ensures r <==> GetPlugin(s, id).Some?
      ensures r ==> exists p :: 0 <= p < |plugins| && plugins[p].id == id
    {
      id in scenes[s].pluginMap
    }

    // -------------------------------------------------------------------------
    // Depths

    /** `update_children_depth`: every child of `e`, in list order, gets the
        depth of `e` plus one and then updates its own children. */
    method UpdateChildrenDepth(e: EntityRef)
      requires Ranked(children, rank) && |depth| == |children| && e < |children|
      modifies this`depth
      ensures depth == UpdatedDepths(children, rank, old(depth), e)
      decreases rank[e], 1
    {
      ChildrenBelow(children, rank, e);
      var v := depth[e] + 1;
      var kids := children[e];
      for i := 0 to |kids|
        invariant |depth| == |children|
        invariant depth == UpdatedList(children, rank, old(depth), v, kids[..i], rank[e])
      {
        assert kids[..i + 1][..i] == kids[..i];
        assert kids[i] in kids;
        depth := depth[kids[i] := v];
        UpdateChildrenDepth(kids[i]);
      }
      assert kids[..|kids|] == kids;
    }

    // -------------------------------------------------------------------------
    // Component managers

    /** `Scene::__add_component`. */
    method RegisterComponent(s: SceneRef, c: CompRef)
      requires Valid() && s < |scenes| && c < |comps|
      modifies this
      ensures Snapshot() == Protocol.Register(old(Snapshot()), s, c)
    {
      ghost var a := Snapshot();
      var k := comps[c].managerKind;
      var sd := scenes[s];
      assert ManagersAgree(sd, mgrs, s);
      if k in sd.managerMap {
        var r := sd.managerMap[k];
        JoinManagerValue(a, s, c);
        mgrs := mgrs[r := mgrs[r].(members := mgrs[r].members + [c])];
        if sd.initted {
          trace := trace + [ManagerInit(r)];
        }
      } else {
        var r := |mgrs|;
        NewManagerValue(a, s, c);
        var m' := mgrs + [ManagerData(k, comps[c].managerOrder, Some(s), [c])];
        var list := if sd.initted then SortBy(sd.managerList + [r], MgrOrders(m')) else sd.managerList + [r];
        mgrs, scenes := m', scenes[s := sd.(managerMap := sd.managerMap[k := r], managerList := list)];
        if sd.initted {
          trace := trace + [ManagerInit(r)];
        }
      }
    }

    /** `Scene::__remove_component`: whether the manager is empty is read
        before `c` leaves it, and only a manager that was empty is dropped. */
    method UnregisterComponent(s: SceneRef, c: CompRef)
      requires Valid() && s < |scenes| && c < |comps|
      requires comps[c].managerKind in scenes[s].managerMap
      modifies this
      ensures Snapshot() == Protocol.Unregister(old(Snapshot()), s, c)
    {
      var k := comps[c].managerKind;
      var sd := scenes[s];
      var r := sd.managerMap[k];
      assert ManagersAgree(sd, mgrs, s);
      var i := ManagerIndex(sd, mgrs, s, k);
      comps := comps[c := comps[c].(entity := None)];
      var isEmpty := mgrs[r].members == [];
      mgrs := mgrs[r := mgrs[r].(members := RemoveFirst<CompRef>(mgrs[r].members, c))];
      if isEmpty {
        mgrs := mgrs[r := mgrs[r].(scene := None)];
        scenes := scenes[s := sd.(managerMap := sd.managerMap - {k}, managerList := RemoveAt(sd.managerList, i))];
        trace := trace + [ManagerClear(r)];
      }
    }

    // -------------------------------------------------------------------------
    // Moving entities between scenes

    /** `Scene::add_entity(s, x)`. */
    method AddEntity(s: SceneRef, x: EntityRef)
      requires AddReady(Snapshot(), s, x)
      modifies this
      ensures Snapshot() == Propagation.AddEntity(old(Snapshot()), s, x)
      decreases rank[x], 6
    {
      if ents[x].scene != Some(s) {
        ghost var a := Snapshot();
        if ents[x].scene.Some? {
          GoodRemovable(a, ents[x].scene, x);
          RemoveEntity(ents[x].scene.value, x);
        }
        ghost var a1 := Snapshot();
        AddEntityValue(a, a1, s, x);
        PushEntity(s, x);
      }
    }

    /** The second half of `Scene::add_entity`: `x` is pushed onto the entity
        list of `s`, then gets the scene. */
    method PushEntity(s: SceneRef, x: EntityRef)
      requires s < |scenes| && Entering(Push(Snapshot(), s, x), s, x)
      modifies this
      ensures Snapshot() == Propagation.SetScene(Push(old(Snapshot()), s, x), s, x)
      decreases rank[x], 5
    {
      ghost var a := Snapshot();
      scenes := scenes[s := scenes[s].(entities := scenes[s].entities + [x])];
      assert Snapshot() == Push(a, s, x);
      SetScene(s, x);
    }

    /** `set_scene(x, s)`, run right after `x` was pushed onto the list of `s`. */
    method SetScene(s: SceneRef, x: EntityRef)
      requires Entering(Snapshot(), s, x)
      modifies this
      ensures Snapshot() == Propagation.SetScene(old(Snapshot()), s, x)
      decreases rank[x], 4
    {
      ghost var a := Snapshot();
      ents := ents[x := ents[x].(scene := Some(s))];
      assert Snapshot() == WithScene(a, x, Some(s));
      EnterStep(a, s, x);
      ghost var a1 := Snapshot();
      SetSceneChildren(s, x);
      RegReady(a1, Snapshot(), s, x);
      RegisterAllComponents(s, CompsOf(ents[x].components));
    }

    /** The children loop of `set_scene(x, s)`: each child is added to `s`. */
    method SetSceneChildren(s: SceneRef, x: EntityRef)
      requires x < |children| && KidsEntering(Snapshot(), s, x, |children[x]|)
      modifies this
      ensures Snapshot() == SetSceneKids(old(Snapshot()), s, x, |old(children)[x]|)
      decreases rank[x], 3
    {
      ghost var a := Snapshot();
      var kids := children[x];
      var i := 0;
      while i < |kids|
        invariant i <= |kids| && kids == a.children[x]
        invariant Snapshot() == SetSceneKids(a, s, x, i)
      {
        KidReady(a, Snapshot(), s, x, i + 1);
        AddEntity(s, kids[i]);
        i := i + 1;
      }
    }

    /** The components loop of `set_scene`: each of `cs` is registered with `s`. */
    method RegisterAllComponents(s: SceneRef, cs: seq<CompRef>)
      requires Valid() && s < |scenes| && forall i :: 0 <= i < |cs| ==> cs[i] < |comps|
      modifies this
      ensures Snapshot() == RegisterAll(old(Snapshot()), s, cs)
    {
      ghost var a := Snapshot();
      var j := 0;
      while j < |cs|
        invariant j <= |cs|
        invariant Snapshot() == RegisterFirst(a, s, cs, j)
      {
        RegisterFirstNext(a, s, cs, j);
        RegisterComponent(s, cs[j]);
        j := j + 1;
      }
      assert cs[..|cs|] == cs;
    }

    /** `Scene::remove_entity(s, x)`. */
    method RemoveEntity(s: SceneRef, x: EntityRef)
      requires RemoveReady(Snapshot(), s, x)
      modifies this
      ensures Snapshot() == Propagation.RemoveEntity(old(Snapshot()), s, x)
      decreases rank[x], 2
    {
      match IndexOf(scenes[s].entities, x)
      case None =>
      case Some(i) =>
        ghost var a := Snapshot();
        scenes := scenes[s := scenes[s].(entities := RemoveAt(scenes[s].entities, i))];
        assert Snapshot() == Unlist(a, s, x);
        UnlistStep(a, s, x);
        RemoveScene(s, x);
    }

    /** `remove_scene(x)`, run right after `x` left the list of its scene `s`. */
    method RemoveScene(s: SceneRef, x: EntityRef)
      requires Leaving(Snapshot(), s, x) && RegisteredAll(ents, scenes, comps, mgrs, x)
      modifies this
      ensures Snapshot() == Propagation.RemoveScene(old(Snapshot()), s, x)
      decreases rank[x], 1
    {
      ghost var a := Snapshot();
      var cs := CompsOf(ents[x].components);
      UnregReady(a, s, x);
      UnregisterAllComponents(s, cs, x);
      ghost var a1 := Snapshot();
      UnregDone(a, a1, s, x, cs);
      RemoveSceneChildren(s, x);
      ents := ents[x := ents[x].(scene := None)];
    }

    /** The components loop of `remove_scene(x)`: each of `cs`, components of
        `x`, leaves its manager in `s`. */
    method UnregisterAllComponents(s: SceneRef, cs: seq<CompRef>, x: EntityRef)
      requires Valid() && s < |scenes| && NoDup(cs)
      requires forall i :: 0 <= i < |cs| ==> Registered(scenes, comps, mgrs, s, cs[i]) && owner[cs[i]] == Some(x)
      modifies this
      ensures Snapshot() == UnregisterAll(old(Snapshot()), s, cs, x)
    {
      ghost var a := Snapshot();
      var j := 0;
      while j < |cs|
        invariant j <= |cs|
        invariant Snapshot() == UnregisterFirst(a, s, cs, x, j)
      {
        UnregisterFirstNext(a, s, cs, x, j);
        UnregisterComponent(s, cs[j]);
        j := j + 1;
      }
      assert cs[..|cs|] == cs;
    }

    /** The children loop of `remove_scene(x)`: each child is removed from `s`. */
    method RemoveSceneChildren(s: SceneRef, x: EntityRef)
      requires Leaving(Snapshot(), s, x)
      modifies this
      ensures Snapshot() == RemoveSceneKids(old(Snapshot()), s, x, |old(children)[x]|)
      decreases rank[x], 0
    {
      ghost var a := Snapshot();
      var kids := children[x];
      var i := 0;
      while i < |kids|
        invariant i <= |kids| && kids == a.children[x]
        invariant Snapshot() == RemoveSceneKids(a, s, x, i)
      {
        KidOutReady(a, Snapshot(), s, x, i + 1);
        RemoveEntity(s, kids[i]);
        i := i + 1;
      }
    }

    // -------------------------------------------------------------------------
    // The hierarchy

    /** `Entity::add_child(p, c)`: `c` records `p` and the depth below it, its
        subtree's depths are updated, it joins the children of `p`, and then
        the scene of `p`, if `p` has one. */
    method AddChild(p: EntityRef, c: EntityRef)
      requires Valid() && p < |children| && c < |children| && p != c && rank[c] < rank[p]
      requires ents[p].scene.Some? ==> AddReady(Snapshot(), ents[p].scene.value, c)
      modifies this
      ensures Snapshot() == EntityOps.AddChild(old(Snapshot()), p, c)
    {
      ghost var a := Snapshot();
      Attach(p, c);
      match ents[p].scene
      case None =>
      case Some(s) =>
        AttachReady(a, p, c, s);
        AddEntity(s, c);
    }

    /** The hierarchy half of `Entity::add_child`: parent link, depths, child list. */
    method Attach(p: EntityRef, c: EntityRef)
      requires Valid() && p < |children| && c < |children| && p != c && rank[c] < rank[p]
      modifies this
      ensures Snapshot() == EntityOps.Attach(old(Snapshot()), p, c)
    {
      AttachValue(Snapshot(), p, c);
      parent := parent[c := Some(p)];
      depth := depth[c := depth[p] + 1];
      UpdateChildrenDepth(c);
      children := children[p := children[p] + [c]];
    }

    /** `Entity::detach(x)`: `x` leaves the children of its parent, records no
        parent and depth 0, and its subtree's depths are updated. */
    method Detach(x: EntityRef)
      requires Valid() && x < |children|
      modifies this
      ensures Snapshot() == EntityOps.Detach(old(Snapshot()), x)
    {
      ghost var a := Snapshot();
      if parent[x].Some? {
        var q := parent[x].value;
        match IndexOf(children[q], x)
        case None =>
        case Some(i) =>
          children := children[q := RemoveAt(children[q], i)];
      }
      depth := depth[x := 0];
      parent := parent[x := None];
      DetachRanked(a.children, rank, a.parent, x);
      assert children == DetachedChildren(a.children, a.parent, x);
      UpdateChildrenDepth(x);
    }

    /** `Entity::remove_child(p, x)`: `x` is detached and, when `p` has a
        scene, removed from that scene. */
    method RemoveChild(p: EntityRef, x: EntityRef)
      requires Valid() && p < |children| && x < |children| && p != x
      requires ents[p].scene.Some? ==> RemoveReady(Snapshot(), ents[p].scene.value, x)
      modifies this
      ensures Snapshot() == EntityOps.RemoveChild(old(Snapshot()), p, x)
    {
      ghost var a := Snapshot();
      Detach(x);
      match ents[p].scene
      case None =>
      case Some(s) =>
        DetachReady(a, x, s);
        RemoveEntity(s, x);
    }

    /** `Entity::clear`: depth 0, no scene, no parent, no children, no components. */
    method ClearEntity(x: EntityRef)
      requires Valid() && x < |children|
      modifies this
      ensures Snapshot() == EntityOps.ClearEntity(old(Snapshot()), x)
    {
      ClearEntityValue(Snapshot(), x);
      depth := depth[x := 0];
      ents := ents[x := ents[x].(scene := None)];
      parent := parent[x := None];
      children := children[x := []];
      ents := ents[x := ents[x].(components := map[])];
      ghost var o := owner;
      owner := seq(|o|, c requires 0 <= c < |o| => if o[c] == Some(x) then None else o[c]);
    }

    // -------------------------------------------------------------------------
    // Components

    /** `Entity::add_component(x, c)`. */
    method AddComponent(x: EntityRef, c: CompRef)
      requires Valid() && x < |ents| && c < |comps| && owner[c] == None
      modifies this
      ensures Snapshot() == EntityOps.AddComponent(old(Snapshot()), x, c)
    {
      ghost var a := Snapshot();
      var t := comps[c].kind;
      if t !in ents[x].components {
        AddComponentValue(a, x, c);
        comps := comps[c := comps[c].(entity := Some(x))];
        assert Snapshot() == WithEntity(a, c, Some(x));
        if ents[x].scene.Some? {
          RegisterComponent(ents[x].scene.value, c);
        }
        ents := ents[x := ents[x].(components := ents[x].components[t := c])];
        owner := owner[c := Some(x)];
      }
    }

    /** `Entity::remove_component_by_type_id(x, t)`. */
    method RemoveComponent(x: EntityRef, t: Id)
      requires Valid() && x < |ents|
      requires ents[x].scene.Some? && t in ents[x].components ==>
        comps[ents[x].components[t]].managerKind in scenes[ents[x].scene.value].managerMap
      modifies this
      ensures Snapshot() == EntityOps.RemoveComponent(old(Snapshot()), x, t)
    {
      ghost var a := Snapshot();
      if t in ents[x].components {
        var c := ents[x].components[t];
        RemoveComponentValue(a, x, t);
        if ents[x].scene.Some? {
          UnregisterComponent(ents[x].scene.value, c);
        }
        assert Snapshot() == LeaveManager(a, x, t);
        comps := comps[c := comps[c].(entity := None)];
        ents := ents[x := ents[x].(components := ents[x].components - {t})];
        owner := owner[c := None];
      }
    }

    // -------------------------------------------------------------------------
    // The scene lifecycle and its plugins

    /** One callback loop of a scene: hook `h` on every element of `rs`, in order. */
    method Notify(rs: seq<nat>, h: Hook)
      modifies this`trace
      ensures trace == old(trace) + Each(rs, h)
    {
      for i := 0 to |rs|
        invariant trace == old(trace) + Each(rs[..i], h)
      {
        assert rs[..i + 1][..i] == rs[..i];
        trace := trace + [Call(h, rs[i])];
      }
      assert rs[..|rs|] == rs;
    }

    /** `Scene::init(s)`. */
    method Init(s: SceneRef)
      requires Valid() && s < |scenes|
      modifies this
      ensures Snapshot() == SceneOps.Init(old(Snapshot()), s)
    {
      if !scenes[s].initted {
        ListsKeyed(Snapshot(), s);
        var sd := scenes[s];
        scenes := scenes[s := sd.(initted := true)];
        var pl := SortBy(sd.pluginList, PluginOrders(plugins));
        var ml := SortBy(sd.managerList, MgrOrders(mgrs));
        scenes := scenes[s := scenes[s].(pluginList := pl, managerList := ml)];
        Notify(pl, InitPlugin);
        Notify(ml, InitManager);
      }
    }

    /** `Scene::update(s)`. */
    method Update(s: SceneRef)
      requires Valid() && s < |scenes|
      modifies this
      ensures Snapshot() == SceneOps.Update(old(Snapshot()), s)
    {
      UpdateValue(Snapshot(), s);
      trace := trace + [Tick(s)];
      Notify(scenes[s].pluginList, BeforePlugin);
      Notify(scenes[s].managerList, UpdateManager);
      Notify(scenes[s].pluginList, AfterPlugin);
    }

    /** `Scene::add_plugin(s, p)`. */
    method AddPlugin(s: SceneRef, p: PluginRef)
      requires Valid() && s < |scenes| && p < |plugins|
      modifies this
      ensures Snapshot() == SceneOps.AddPlugin(old(Snapshot()), s, p)
    {
      ListsKeyed(Snapshot(), s);
      var sd := scenes[s];
      var id := plugins[p].id;
      scenes := scenes[s := sd.(pluginMap := sd.pluginMap[id := p], pluginList := sd.pluginList + [p])];
      plugins := plugins[p := plugins[p].(scene := Some(s))];
      if sd.initted {
        assert PluginOrders(plugins) == PluginOrders(old(plugins));
        scenes := scenes[s := scenes[s].(pluginList := SortBy(sd.pluginList + [p], PluginOrders(plugins)))];
      }
    }

    /** `Scene::remove_plugin(s, p)`. */
    method RemovePlugin(s: SceneRef, p: PluginRef)
      requires Valid() && s < |scenes| && p < |plugins|
      modifies this
      ensures Snapshot() == SceneOps.RemovePlugin(old(Snapshot()), s, p)
    {
      if plugins[p].scene.Some? {
        IdsKeyed(Snapshot(), s);
        var id := plugins[p].id;
        var sd := scenes[s];
        scenes := scenes[s := sd.(pluginMap := sd.pluginMap - {id})];
        match IndexOfKey(sd.pluginList, PluginIds(plugins), id) {
          case None =>
          case Some(i) =>
            scenes := scenes[s := scenes[s].(pluginList := RemoveAt(sd.pluginList, i))];
        }
        plugins := plugins[p := plugins[p].(scene := None)];
        trace := trace + [PluginClear(p)];
      }
    }

    /** `Scene::clear(s)`: every listed entity is cleared, then every plugin,
        and the scene is emptied. */
    method Clear(s: SceneRef)
      requires Valid() && s < |scenes|
      modifies this
      ensures Snapshot() == SceneOps.ClearScene(old(Snapshot()), s)
    {
      ClearValue(Snapshot(), s);
      ClearEntities(scenes[s].entities);
      Notify(scenes[s].pluginList, ClearPlugin);
      scenes := scenes[s := SceneData(false, [], map[], [], map[], [])];
    }

    /** The first loop of `Scene::clear`: `Entity::clear` on each of `xs`, in order. */
    method ClearEntities(xs: seq<EntityRef>)
      requires Valid() && forall i :: 0 <= i < |xs| ==> xs[i] < |children|
      modifies this
      ensures Snapshot() == ClearAll(old(Snapshot()), xs)
    {
      ghost var a := Snapshot();
      for i := 0 to |xs|
        invariant Snapshot() == ClearAll(a, xs[..i])
      {
        ClearAllNext(a, xs, i);
        ClearEntity(xs[i]);
      }
      assert xs[..|xs|] == xs;
    }
  }

  // ---------------------------------------------------------------------------
  // The arenas the registration functions compute, spelled out

  lemma JoinManagerValue(a: Arena, s: SceneRef, c: CompRef)
    requires WellFormed(a) && s < |a.scenes| && c < |a.comps|
    requires a.comps[c].managerKind in a.scenes[s].managerMap
    ensures var sd := a.scenes[s]; var r := sd.managerMap[a.comps[c].managerKind];
      r < |a.mgrs| &&
      JoinManager(a, s, c) == a.(mgrs := a.mgrs[r := a.mgrs[r].(members := a.mgrs[r].members + [c])],
                                 trace := a.trace + if sd.initted then [ManagerInit(r)] else [])
  {
    assert ManagersAgree(a.scenes[s], a.mgrs, s);
  }

  lemma NewManagerValue(a: Arena, s: SceneRef, c: CompRef)
    requires WellFormed(a) && s < |a.scenes| && c < |a.comps|
    requires a.comps[c].managerKind !in a.scenes[s].managerMap
    ensures var k, sd, r := a.comps[c].managerKind, a.scenes[s], |a.mgrs|;
      var mgrs' := a.mgrs + [ManagerData(k, a.comps[c].managerOrder, Some(s), [c])];
      Keyed(sd.managerList + [r], MgrOrders(mgrs')) &&
      NewManager(a, s, c) == a.(scenes := a.scenes[s := sd.(managerMap := sd.managerMap[k := r],
        managerList := if sd.initted then SortBy(sd.managerList + [r], MgrOrders(mgrs')) else sd.managerList + [r])],
        mgrs := mgrs', trace := a.trace + if sd.initted then [ManagerInit(r)] else [])
  {
    var k, sd := a.comps[c].managerKind, a.scenes[s];
    assert ManagersAgree(sd, a.mgrs, s);
    ListKeyed(sd, a.mgrs, s, ManagerData(k, a.comps[c].managerOrder, Some(s), [c]));
  }

  /** `Scene::add_entity` once `x` has left any other scene: push, then `set_scene`. */
  lemma AddEntityValue(a: Arena, a1: Arena, s: SceneRef, x: EntityRef)
    requires AddReady(a, s, x) && a.ents[x].scene != Some(s)
    requires a1 == if a.ents[x].scene == None then a else Propagation.RemoveEntity(a, a.ents[x].scene.value, x)
    ensures s < |a1.scenes| && Entering(Push(a1, s, x), s, x)
    ensures Propagation.AddEntity(a, s, x) == Propagation.SetScene(Push(a1, s, x), s, x)
  {
    LeftOther(a, a1, s, x);
    PushReady(a, a1, s, x);
  }

  /** `add_child` updates the subtree depths before `c` joins the children of `p`. */
  lemma AttachValue(a: Arena, p: EntityRef, c: EntityRef)
    requires WellFormed(a) && p < |a.children| && c < |a.children| && a.rank[c] < a.rank[p]
    ensures EntityOps.Attach(a, p, c) ==
      a.(parent := a.parent[c := Some(p)], depth := UpdatedDepths(a.children, a.rank, a.depth[c := a.depth[p] + 1], c),
         children := a.children[p := a.children[p] + [c]])
  {
    var d := a.depth[c := a.depth[p] + 1];
    assert |d| == |a.children|;
  }

  /** `Scene::update` appends its events loop by loop. */
  lemma UpdateValue(a: Arena, s: SceneRef)
    requires WellFormed(a) && s < |a.scenes|
    ensures var sd := a.scenes[s];
      SceneOps.Update(a, s) == a.(trace := a.trace + [Tick(s)] + Each(sd.pluginList, BeforePlugin) +
                                           Each(sd.managerList, UpdateManager) + Each(sd.pluginList, AfterPlugin))
  {
    var sd := a.scenes[s];
    var e1, e2, e3 := Each(sd.pluginList, BeforePlugin), Each(sd.managerList, UpdateManager), Each(sd.pluginList, AfterPlugin);
    assert a.trace + ([Tick(s)] + e1 + e2 + e3) == a.trace + [Tick(s)] + e1 + e2 + e3;
  }

  /** `Scene::clear` clears the listed entities, then notifies the plugins,
      then empties the scene. */
  lemma ClearValue(a: Arena, s: SceneRef)
    requires WellFormed(a) && s < |a.scenes|
    ensures var xs := a.scenes[s].entities;
      (forall i :: 0 <= i < |xs| ==> xs[i] < |a.children|) &&
      var a1 := ClearAll(a, xs);
      a1.scenes == a.scenes &&
      ClearScene(a, s) == a1.(scenes := a1.scenes[s := SceneData(false, [], map[], [], map[], [])],
                              trace := a1.trace + Each(a.scenes[s].pluginList, ClearPlugin))
  {
    var xs := a.scenes[s].entities;
    assert forall i :: 0 <= i < |xs| ==> xs[i] < |a.children|;
  }

  /** `Entity::clear` resets the fields of `x` and frees its components. */
  lemma ClearEntityValue(a: Arena, x: EntityRef)
    requires WellFormed(a) && x < |a.children|
    ensures EntityOps.ClearEntity(a, x) ==
      a.(depth := a.depth[x := 0], parent := a.parent[x := None], children := a.children[x := []],
         ents := a.ents[x := EntityData(None, map[])],
         owner := seq(|a.owner|, c requires 0 <= c < |a.owner| => if a.owner[c] == Some(x) then None else a.owner[c]))
  {
  }

  /** `add_component` of a new type: back-reference, registration, then the map entry. */
  lemma AddComponentValue(a: Arena, x: EntityRef, c: CompRef)
    requires WellFormed(a) && x < |a.ents| && c < |a.comps| && a.owner[c] == None
    requires a.comps[c].kind !in a.ents[x].components
    ensures var a1 := WithEntity(a, c, Some(x));
      var a2 := if a.ents[x].scene.None? then a1 else Register(a1, a.ents[x].scene.value, c);
      x < |a2.ents| && c < |a2.owner| &&
      EntityOps.AddComponent(a, x, c) ==
        a2.(ents := a2.ents[x := a2.ents[x].(components := a2.ents[x].components[a.comps[c].kind := c])],
            owner := a2.owner[c := Some(x)])
  {
  }

  /** `remove_component_by_type_id` of a present type: unregistration, back-reference, then the map entry. */
  lemma RemoveComponentValue(a: Arena, x: EntityRef, t: Id)
    requires WellFormed(a) && x < |a.ents| && t in a.ents[x].components
    requires a.ents[x].scene.Some? ==>
      a.comps[a.ents[x].components[t]].managerKind in a.scenes[a.ents[x].scene.value].managerMap
    ensures var c := a.ents[x].components[t];
      var a1 := LeaveManager(a, x, t);
      c < |a.comps| && c < |a.owner| && a1.ents == a.ents && a1.owner == a.owner && |a1.comps| == |a.comps| &&
      EntityOps.RemoveComponent(a, x, t) ==
        a1.(comps := a1.comps[c := a1.comps[c].(entity := None)],
            ents := a1.ents[x := a1.ents[x].(components := a1.ents[x].components - {t})],
            owner := a1.owner[c := None])
  {
    assert Owned(a.ents, a.comps, a.owner);
  }
}
