/** The lifecycle and the plugin registry of `Scene` (`clear`, `init`,
    `update`, `add_plugin`, `remove_plugin` and the queries) as functions on
    arenas.  The entity list and the component managers of a scene are
    maintained by `Propagation` and `Protocol`. */
module SceneOps {
  import opened Handles
  import opened Collections
  import opened Tables
  import opened Protocol
  import opened Propagation
  import opened EntityOps

  // ---------------------------------------------------------------------------
  // Callback loops

  /** The callback a loop of the scene issues on every element of a list. */
  datatype Hook = InitPlugin | BeforePlugin | AfterPlugin | ClearPlugin | InitManager | UpdateManager

  /** The event of `h` on the plugin or manager `r`. */
  function Call(h: Hook, r: nat): (e: Event)
    ensures e.PluginInit? || e.PluginBefore? || e.PluginAfter? || e.PluginClear? ==> e.plugin == r
    ensures e.ManagerInit? || e.ManagerUpdate? ==> e.manager == r
    ensures !e.Tick? && !e.ManagerClear?
  {
    match h
    case InitPlugin => PluginInit(r)
    case BeforePlugin => PluginBefore(r)
    case AfterPlugin => PluginAfter(r)
    case ClearPlugin => PluginClear(r)
    case InitManager => ManagerInit(r)
    case UpdateManager => ManagerUpdate(r)
  }

  /** The events of one callback loop: `h` on every element, in list order. */
  function Each(rs: seq<nat>, h: Hook): (es: seq<Event>)
    ensures |es| == |rs|
    ensures forall i :: 0 <= i < |rs| ==> es[i] == Call(h, rs[i])
  {
    if |rs| == 0 then [] else Each(rs[..|rs| - 1], h) + [Call(h, rs[|rs| - 1])]
  }

  // ---------------------------------------------------------------------------
  // What the registry operations keep

  /** Only the flags, plugin tables and manager order of scenes, the plugins
      and the trace differ: the entity lists and the manager maps are kept. */
  ghost predicate RegistryOnly(a: Arena, b: Arena)
  {
    b == a.(scenes := b.scenes, plugins := b.plugins, trace := b.trace) && |b.scenes| == |a.scenes| &&
    forall t :: 0 <= t < |a.scenes| ==>
      b.scenes[t].entities == a.scenes[t].entities && b.scenes[t].managerMap == a.scenes[t].managerMap
  }

  /** The registry operations keep every entity consistent and listed. */
  lemma RegistryKept(a: Arena, b: Arena)
    requires RegistryOnly(a, b)
    ensures Kept(a, b)
  {
    forall y: EntityRef | y < |a.ents| && Good(a, y) ensures Good(b, y) {
      assert Listed(b.ents, b.scenes, y);
    }
    forall y: EntityRef | y < |a.ents| && OnList(a, y) ensures OnList(b, y) {
    }
  }

  /** The plugin list and the manager list of scene `s` are ascending by order. */
  ghost predicate Sorted(a: Arena, s: SceneRef)
  {
    s < |a.scenes| &&
    Keyed(a.scenes[s].pluginList, PluginOrders(a.plugins)) &&
    SortedBy(a.scenes[s].pluginList, PluginOrders(a.plugins)) &&
    Keyed(a.scenes[s].managerList, MgrOrders(a.mgrs)) &&
    SortedBy(a.scenes[s].managerList, MgrOrders(a.mgrs))
  }

  /** Under well-formedness every listed plugin and manager has an order. */
  lemma ListsKeyed(a: Arena, s: SceneRef)
    requires WellFormed(a) && s < |a.scenes|
    ensures Keyed(a.scenes[s].pluginList, PluginOrders(a.plugins))
    ensures Keyed(a.scenes[s].managerList, MgrOrders(a.mgrs))
  {
    var ml := a.scenes[s].managerList;
    assert ManagersAgree(a.scenes[s], a.mgrs, s);
    forall j | 0 <= j < |ml| ensures ml[j] in MgrOrders(a.mgrs) {
      assert ml[j] in ml;
    }
  }

  /** Permuting the plugin list of a scene keeps the plugin tables well-formed. */
  lemma PermutedPlugins(scenes: seq<SceneData>, plugins: seq<PluginData>, s: SceneRef, list: seq<PluginRef>)
    requires PluginsKnown(scenes, plugins) && s < |scenes|
    requires multiset(list) == multiset(scenes[s].pluginList)
    ensures PluginsKnown(scenes[s := scenes[s].(pluginList := list)], plugins)
  {
    forall i | 0 <= i < |list| ensures list[i] < |plugins| {
      assert list[i] in multiset(scenes[s].pluginList);
    }
  }

  // ---------------------------------------------------------------------------
  // init and update

  /** What the first `init` of scene `s` does: the lists are sorted by
      ascending order, stably and without losing or adding an element, the
      scene is marked initted, and every plugin and then every manager is
      initialised in the new list order. */
  ghost predicate Initialised(a: Arena, b: Arena, s: SceneRef)
  {
    s < |a.scenes| && |b.scenes| == |a.scenes| &&
    var sd, sd' := a.scenes[s], b.scenes[s];
    Sorted(b, s) &&
    multiset(sd'.pluginList) == multiset(sd.pluginList) &&
    multiset(sd'.managerList) == multiset(sd.managerList) &&
    (forall k :: WithOrder(sd'.pluginList, PluginOrders(a.plugins), k) == WithOrder(sd.pluginList, PluginOrders(a.plugins), k)) &&
    (forall k :: WithOrder(sd'.managerList, MgrOrders(a.mgrs), k) == WithOrder(sd.managerList, MgrOrders(a.mgrs), k)) &&
    sd' == sd.(initted := true, pluginList := sd'.pluginList, managerList := sd'.managerList) &&
    (forall t :: 0 <= t < |a.scenes| && t != s ==> b.scenes[t] == a.scenes[t]) &&
    b.trace == a.trace + Each(sd'.pluginList, InitPlugin) + Each(sd'.managerList, InitManager)
  }

  /** `Scene::init`: the first call marks the scene initted, sorts the plugin
      list and the manager list by ascending order (stably) and initialises
      every plugin, then every manager, in the new list order; a later call
      does nothing. */
  ghost function Init(a: Arena, s: SceneRef): (b: Arena)
    requires WellFormed(a) && s < |a.scenes|
    ensures WellFormed(b) && RegistryOnly(a, b) && b.plugins == a.plugins
    ensures b.scenes[s].initted
    ensures a.scenes[s].initted ==> b == a
    ensures !a.scenes[s].initted ==> Initialised(a, b, s)
  {
    if a.scenes[s].initted then a
    else
      var sd := a.scenes[s];
      ListsKeyed(a, s);
      var pl := SortBy(sd.pluginList, PluginOrders(a.plugins));
      var ml := SortBy(sd.managerList, MgrOrders(a.mgrs));
      var b := a.(scenes := a.scenes[s := sd.(initted := true, pluginList := pl, managerList := ml)],
                  trace := a.trace + Each(pl, InitPlugin) + Each(ml, InitManager));
      InitTables(a, s, b);
      InitSorted(a, s, b);
      b
  }

  lemma InitSorted(a: Arena, s: SceneRef, b: Arena)
    requires s < |a.scenes| && Keyed(a.scenes[s].pluginList, PluginOrders(a.plugins))
    requires Keyed(a.scenes[s].managerList, MgrOrders(a.mgrs))
    requires var sd := a.scenes[s];
      var pl, ml := SortBy(sd.pluginList, PluginOrders(a.plugins)), SortBy(sd.managerList, MgrOrders(a.mgrs));
      b == a.(scenes := a.scenes[s := sd.(initted := true, pluginList := pl, managerList := ml)],
              trace := a.trace + Each(pl, InitPlugin) + Each(ml, InitManager))
    ensures Initialised(a, b, s)
  {
    var sd := a.scenes[s];
    SortBySorted(sd.pluginList, PluginOrders(a.plugins));
    SortBySorted(sd.managerList, MgrOrders(a.mgrs));
    StableBoth(sd.pluginList, PluginOrders(a.plugins), sd.managerList, MgrOrders(a.mgrs));
  }

  /** `sort_by` keeps the relative order of equal keys in both lists. */
  lemma StableBoth(pl: seq<PluginRef>, pk: map<PluginRef, nat>, ml: seq<MgrRef>, mk: map<MgrRef, nat>)
    requires Keyed(pl, pk) && Keyed(ml, mk)
    ensures forall k :: WithOrder(SortBy(pl, pk), pk, k) == WithOrder(pl, pk, k)
    ensures forall k :: WithOrder(SortBy(ml, mk), mk, k) == WithOrder(ml, mk, k)
  {
    forall k ensures WithOrder(SortBy(pl, pk), pk, k) == WithOrder(pl, pk, k) {
      SortByStable(pl, pk, k);
    }
    forall k ensures WithOrder(SortBy(ml, mk), mk, k) == WithOrder(ml, mk, k) {
      SortByStable(ml, mk, k);
    }
  }

  lemma InitTables(a: Arena, s: SceneRef, b: Arena)
    requires WellFormed(a) && s < |a.scenes| && |b.scenes| == |a.scenes|
    requires multiset(b.scenes[s].pluginList) == multiset(a.scenes[s].pluginList)
    requires multiset(b.scenes[s].managerList) == multiset(a.scenes[s].managerList)
    requires b == a.(scenes := a.scenes[s := a.scenes[s].(initted := true, pluginList := b.scenes[s].pluginList,
                                                           managerList := b.scenes[s].managerList)],
                     trace := b.trace)
    ensures WellFormed(b) && RegistryOnly(a, b)
  {
    var sd := a.scenes[s];
    var s1 := a.scenes[s := sd.(managerList := b.scenes[s].managerList)];
    PermutedManagers(a.scenes, a.mgrs, s, b.scenes[s].managerList);
    PermutedPlugins(s1, a.plugins, s, b.scenes[s].pluginList);
    var s2 := s1[s := s1[s].(pluginList := b.scenes[s].pluginList)];
    assert AllManagersAgree(s2, a.mgrs) by {
      forall t | 0 <= t < |s2| ensures ManagersAgree(s2[t], a.mgrs, t) {
        assert ManagersAgree(s1[t], a.mgrs, t);
      }
    }
    assert b.scenes == s2[s := s2[s].(initted := true)];
    assert AllManagersAgree(b.scenes, b.mgrs) by {
      forall t | 0 <= t < |b.scenes| ensures ManagersAgree(b.scenes[t], b.mgrs, t) {
        assert ManagersAgree(s2[t], a.mgrs, t);
      }
    }
    assert ListsAgree(b.ents, b.scenes);
  }

  /** The events of one `Scene::update` of scene `s` with record `sd`: the
      clock tick, `before` on every plugin, `update` on every manager and
      `after` on every plugin, each in list order. */
  function UpdateEvents(sd: SceneData, s: SceneRef): (es: seq<Event>)
    ensures |es| == 1 + 2 * |sd.pluginList| + |sd.managerList|
    ensures es[0] == Tick(s)
  {
    [Tick(s)] + Each(sd.pluginList, BeforePlugin) + Each(sd.managerList, UpdateManager) + Each(sd.pluginList, AfterPlugin)
  }

  /** `Scene::update`: only callbacks; neither list is reordered and no
      table changes. */
  ghost function Update(a: Arena, s: SceneRef): (b: Arena)
    requires WellFormed(a) && s < |a.scenes|
    ensures WellFormed(b) && RegistryOnly(a, b) && b.scenes == a.scenes && b.plugins == a.plugins
    ensures b.trace == a.trace + UpdateEvents(a.scenes[s], s)
  {
    a.(trace := a.trace + UpdateEvents(a.scenes[s], s))
  }

  // ---------------------------------------------------------------------------
  // Plugins

  /** What `add_plugin` of `p` to scene `s` does: the map entry for the Id of
      `p` is inserted or overwritten, `p` joins the list (at its end, or at
      its place by order once the scene is initted), and `p` records `s`. */
  ghost predicate PluginAdded(a: Arena, b: Arena, s: SceneRef, p: PluginRef)
  {
    s < |a.scenes| && p < |a.plugins| && |b.scenes| == |a.scenes| &&
    var sd, sd', id := a.scenes[s], b.scenes[s], a.plugins[p].id;
    b.plugins == a.plugins[p := a.plugins[p].(scene := Some(s))] &&
    sd' == sd.(pluginMap := sd.pluginMap[id := p], pluginList := sd'.pluginList) &&
    multiset(sd'.pluginList) == multiset(sd.pluginList) + multiset{p} &&
    (!sd.initted ==> sd'.pluginList == sd.pluginList + [p]) &&
    (sd.initted ==>
      Keyed(sd'.pluginList, PluginOrders(b.plugins)) && SortedBy(sd'.pluginList, PluginOrders(b.plugins)) &&
      forall k :: WithOrder(sd'.pluginList, PluginOrders(b.plugins), k) == WithOrder(sd.pluginList + [p], PluginOrders(b.plugins), k)) &&
    (forall t :: 0 <= t < |a.scenes| && t != s ==> b.scenes[t] == a.scenes[t]) &&
    b.trace == a.trace
  }

  /** `Scene::add_plugin`: the plugin is filed under its Id (replacing a
      plugin of the same Id in the map, but not in the list), appended to the
      list and given the scene; an initted scene re-sorts its plugin list. */
  ghost function AddPlugin(a: Arena, s: SceneRef, p: PluginRef): (b: Arena)
    requires WellFormed(a) && s < |a.scenes| && p < |a.plugins|
    ensures WellFormed(b) && RegistryOnly(a, b) && PluginAdded(a, b, s, p)
  {
    var sd, id := a.scenes[s], a.plugins[p].id;
    var plugins' := a.plugins[p := a.plugins[p].(scene := Some(s))];
    ListsKeyed(a, s);
    assert PluginOrders(plugins') == PluginOrders(a.plugins);
    var pl := sd.pluginList + [p];
    var list := if sd.initted then SortBy(pl, PluginOrders(plugins')) else pl;
    var b := a.(scenes := a.scenes[s := sd.(pluginMap := sd.pluginMap[id := p], pluginList := list)], plugins := plugins');
    AddPluginTables(a, s, p, b);
    if sd.initted then
      SortBySorted(pl, PluginOrders(plugins'));
      assert forall k :: WithOrder(list, PluginOrders(plugins'), k) == WithOrder(pl, PluginOrders(plugins'), k) by {
        forall k ensures WithOrder(list, PluginOrders(plugins'), k) == WithOrder(pl, PluginOrders(plugins'), k) {
          SortByStable(pl, PluginOrders(plugins'), k);
        }
      }
      b
    else
      b
  }

  lemma AddPluginTables(a: Arena, s: SceneRef, p: PluginRef, b: Arena)
    requires WellFormed(a) && s < |a.scenes| && p < |a.plugins| && |b.scenes| == |a.scenes|
    requires multiset(b.scenes[s].pluginList) == multiset(a.scenes[s].pluginList) + multiset{p}
    requires b == a.(scenes := a.scenes[s := a.scenes[s].(pluginMap := a.scenes[s].pluginMap[a.plugins[p].id := p],
                                                           pluginList := b.scenes[s].pluginList)],
                     plugins := a.plugins[p := a.plugins[p].(scene := Some(s))])
    ensures WellFormed(b) && RegistryOnly(a, b)
  {
    var list := b.scenes[s].pluginList;
    forall i | 0 <= i < |list| ensures list[i] < |b.plugins| {
      assert list[i] in multiset(list);
    }
    assert PluginsKnown(b.scenes, b.plugins);
    assert AllManagersAgree(b.scenes, b.mgrs) by {
      forall t | 0 <= t < |b.scenes| ensures ManagersAgree(b.scenes[t], b.mgrs, t) {
        assert ManagersAgree(a.scenes[t], a.mgrs, t);
      }
    }
    assert ListsAgree(b.ents, b.scenes);
  }

  /** Every listed plugin of scene `s` has an Id. */
  lemma IdsKeyed(a: Arena, s: SceneRef)
    requires WellFormed(a) && s < |a.scenes|
    ensures forall j :: 0 <= j < |a.scenes[s].pluginList| ==> a.scenes[s].pluginList[j] in PluginIds(a.plugins)
  {
  }

  /** What `remove_plugin` of `p` from scene `s` does once `p` has a scene:
      the map entry for the Id of `p` goes, the first list entry with that Id
      goes (if any), `p` loses its scene and is cleared. */
  ghost predicate PluginRemoved(a: Arena, b: Arena, s: SceneRef, p: PluginRef)
  {
    s < |a.scenes| && p < |a.plugins| && |b.scenes| == |a.scenes| &&
    var sd, sd', id := a.scenes[s], b.scenes[s], a.plugins[p].id;
    var pl := sd.pluginList;
    b.plugins == a.plugins[p := a.plugins[p].(scene := None)] &&
    sd' == sd.(pluginMap := sd.pluginMap - {id}, pluginList := sd'.pluginList) &&
    ((forall j :: 0 <= j < |pl| ==> pl[j] < |a.plugins| && a.plugins[pl[j]].id != id) ==> sd'.pluginList == pl) &&
    (forall i :: (0 <= i < |pl| && pl[i] < |a.plugins| && a.plugins[pl[i]].id == id &&
                  forall j :: 0 <= j < i ==> pl[j] < |a.plugins| && a.plugins[pl[j]].id != id) ==>
       sd'.pluginList == pl[..i] + pl[i + 1..]) &&
    (forall t :: 0 <= t < |a.scenes| && t != s ==> b.scenes[t] == a.scenes[t]) &&
    b.trace == a.trace + [PluginClear(p)]
  }

  /** `Scene::remove_plugin`: nothing happens to a plugin without a scene;
      otherwise the plugin's Id leaves the map, the first plugin of that Id
      leaves the list, and the plugin loses its scene and is cleared.  (The
      scene the plugin records need not be this one.) */
  ghost function RemovePlugin(a: Arena, s: SceneRef, p: PluginRef): (b: Arena)
    requires WellFormed(a) && s < |a.scenes| && p < |a.plugins|
    ensures WellFormed(b) && RegistryOnly(a, b)
    ensures a.plugins[p].scene.None? ==> b == a
    ensures a.plugins[p].scene.Some? ==> PluginRemoved(a, b, s, p)
  {
    if a.plugins[p].scene.None? then a
    else
      var sd, id := a.scenes[s], a.plugins[p].id;
      IdsKeyed(a, s);
      var list := match IndexOfKey(sd.pluginList, PluginIds(a.plugins), id)
                  case None => sd.pluginList
                  case Some(i) => RemoveAt(sd.pluginList, i);
      var b := a.(scenes := a.scenes[s := sd.(pluginMap := sd.pluginMap - {id}, pluginList := list)],
                  plugins := a.plugins[p := a.plugins[p].(scene := None)], trace := a.trace + [PluginClear(p)]);
      RemovePluginTables(a, s, p, b);
      RemovedFirst(a, s, p, list);
      b
  }

  lemma RemovedFirst(a: Arena, s: SceneRef, p: PluginRef, list: seq<PluginRef>)
    requires WellFormed(a) && s < |a.scenes| && p < |a.plugins|
    requires forall j :: 0 <= j < |a.scenes[s].pluginList| ==> a.scenes[s].pluginList[j] in PluginIds(a.plugins)
    requires list == match IndexOfKey(a.scenes[s].pluginList, PluginIds(a.plugins), a.plugins[p].id)
                     case None => a.scenes[s].pluginList
                     case Some(i) => RemoveAt(a.scenes[s].pluginList, i)
    ensures var pl, id := a.scenes[s].pluginList, a.plugins[p].id;
      ((forall j :: 0 <= j < |pl| ==> pl[j] < |a.plugins| && a.plugins[pl[j]].id != id) ==> list == pl) &&
      (forall i :: (0 <= i < |pl| && pl[i] < |a.plugins| && a.plugins[pl[i]].id == id &&
                    forall j :: 0 <= j < i ==> pl[j] < |a.plugins| && a.plugins[pl[j]].id != id) ==>
         list == pl[..i] + pl[i + 1..])
  {
    var pl: seq<PluginRef>, id := a.scenes[s].pluginList, a.plugins[p].id;
    match IndexOfKey(pl, PluginIds(a.plugins), id)
    case None =>
    case Some(i) =>
      forall i' | 0 <= i' < |pl| && pl[i'] < |a.plugins| && a.plugins[pl[i']].id == id &&
                  (forall j :: 0 <= j < i' ==> pl[j] < |a.plugins| && a.plugins[pl[j]].id != id)
        ensures list == pl[..i'] + pl[i' + 1..]
      {
        assert i' == i by {
          assert a.plugins[pl[i]].id == id;
          assert forall j :: 0 <= j < i ==> a.plugins[pl[j]].id != id;
        }
        assert list == pl[..i] + pl[i + 1..];
      }
  }

  lemma RemovePluginTables(a: Arena, s: SceneRef, p: PluginRef, b: Arena)
    requires WellFormed(a) && s < |a.scenes| && p < |a.plugins| && |b.scenes| == |a.scenes|
    requires forall x :: x in b.scenes[s].pluginList ==> x in a.scenes[s].pluginList
    requires b == a.(scenes := a.scenes[s := a.scenes[s].(pluginMap := a.scenes[s].pluginMap - {a.plugins[p].id},
                                                           pluginList := b.scenes[s].pluginList)],
                     plugins := a.plugins[p := a.plugins[p].(scene := None)], trace := b.trace)
    ensures WellFormed(b) && RegistryOnly(a, b)
  {
    var list := b.scenes[s].pluginList;
    forall i | 0 <= i < |list| ensures list[i] < |b.plugins| {
      assert list[i] in list;
    }
    assert PluginsKnown(b.scenes, b.plugins);
    assert AllManagersAgree(b.scenes, b.mgrs) by {
      forall t | 0 <= t < |b.scenes| ensures ManagersAgree(b.scenes[t], b.mgrs, t) {
        assert ManagersAgree(a.scenes[t], a.mgrs, t);
      }
    }
    assert ListsAgree(b.ents, b.scenes);
  }

  /** Adding a plugin whose Id the scene does not know and removing it again
      restores the plugin tables of the scene (up to the order an initted
      scene sorts its list into), leaves the plugin without a scene, and
      clears it once. */
  lemma {:induction false} AddThenRemovePlugin(a: Arena, s: SceneRef, p: PluginRef)
    requires WellFormed(a) && s < |a.scenes| && p < |a.plugins|
    requires a.plugins[p].id !in a.scenes[s].pluginMap
    requires forall j :: 0 <= j < |a.scenes[s].pluginList| ==>
      a.scenes[s].pluginList[j] < |a.plugins| && a.plugins[a.scenes[s].pluginList[j]].id != a.plugins[p].id
    ensures var c := RemovePlugin(AddPlugin(a, s, p), s, p);
      c.scenes[s].pluginMap == a.scenes[s].pluginMap &&
      multiset(c.scenes[s].pluginList) == multiset(a.scenes[s].pluginList) &&
      (!a.scenes[s].initted ==> c.scenes == a.scenes) &&
      c.plugins == a.plugins[p := a.plugins[p].(scene := None)] &&
      c.trace == a.trace + [PluginClear(p)]
  {
    var b := AddPlugin(a, s, p);
    var c := RemovePlugin(b, s, p);
    RoundTripOf(a, b, c, s, p);
    ListRoundTripOf(a, b, c, s, p);
  }

  lemma RoundTripOf(a: Arena, b: Arena, c: Arena, s: SceneRef, p: PluginRef)
    requires PluginAdded(a, b, s, p) && PluginRemoved(b, c, s, p)
    requires a.plugins[p].id !in a.scenes[s].pluginMap
    ensures c.scenes[s].pluginMap == a.scenes[s].pluginMap
    ensures c.plugins == a.plugins[p := a.plugins[p].(scene := None)]
    ensures c.trace == a.trace + [PluginClear(p)]
  {
    MapRestored(a.scenes[s].pluginMap, a.plugins[p].id, p);
  }

  lemma ListRoundTripOf(a: Arena, b: Arena, c: Arena, s: SceneRef, p: PluginRef)
    requires PluginAdded(a, b, s, p) && PluginRemoved(b, c, s, p)
    requires a.plugins[p].id !in a.scenes[s].pluginMap
    requires forall j :: 0 <= j < |a.scenes[s].pluginList| ==>
      a.scenes[s].pluginList[j] < |a.plugins| && a.plugins[a.scenes[s].pluginList[j]].id != a.plugins[p].id
    ensures multiset(c.scenes[s].pluginList) == multiset(a.scenes[s].pluginList)
    ensures !a.scenes[s].initted ==> c.scenes == a.scenes
  {
    var al, bl, cl := a.scenes[s].pluginList, b.scenes[s].pluginList, c.scenes[s].pluginList;
    ListRoundTrip(al, bl, cl, b.plugins, p, a.scenes[s].initted);
    if !a.scenes[s].initted {
      MapRestored(a.scenes[s].pluginMap, a.plugins[p].id, p);
      SceneRestored(a, b, c, s);
    }
  }

  lemma MapRestored(m: map<Id, PluginRef>, id: Id, p: PluginRef)
    requires id !in m
    ensures m[id := p] - {id} == m
  {
  }

  lemma SceneRestored(a: Arena, b: Arena, c: Arena, s: SceneRef)
    requires s < |a.scenes| && |b.scenes| == |a.scenes| && |c.scenes| == |a.scenes|
    requires forall t :: 0 <= t < |a.scenes| && t != s ==> b.scenes[t] == a.scenes[t] && c.scenes[t] == b.scenes[t]
    requires c.scenes[s].pluginMap == a.scenes[s].pluginMap && c.scenes[s].pluginList == a.scenes[s].pluginList
    requires c.scenes[s] == b.scenes[s].(pluginMap := c.scenes[s].pluginMap, pluginList := c.scenes[s].pluginList)
    requires b.scenes[s] == a.scenes[s].(pluginMap := b.scenes[s].pluginMap, pluginList := b.scenes[s].pluginList)
    ensures c.scenes == a.scenes
  {
    assert c.scenes[s] == a.scenes[s];
  }

  /** The list half of `AddThenRemovePlugin`: `p` is the only plugin of its
      Id in the list after the addition, so the removal takes out `p`. */
  lemma ListRoundTrip(al: seq<PluginRef>, bl: seq<PluginRef>, cl: seq<PluginRef>, plugins: seq<PluginData>,
                      p: PluginRef, initted: bool)
    requires p < |plugins| && forall j :: 0 <= j < |al| ==> al[j] < |plugins| && plugins[al[j]].id != plugins[p].id
    requires multiset(bl) == multiset(al) + multiset{p}
    requires !initted ==> bl == al + [p]
    requires forall i :: (0 <= i < |bl| && bl[i] < |plugins| && plugins[bl[i]].id == plugins[p].id &&
                          forall j :: 0 <= j < i ==> bl[j] < |plugins| && plugins[bl[j]].id != plugins[p].id) ==>
      cl == bl[..i] + bl[i + 1..]
    ensures multiset(cl) == multiset(al)
    ensures !initted ==> cl == al
  {
    var i := FirstOfId(al, bl, plugins, p);
    assert cl == RemoveAt(bl, i);
    RemoveAtMultiset(bl, i);
    assert multiset(cl) + multiset{p} == multiset(al) + multiset{p};
    assert multiset(cl) == multiset(cl) + multiset{p} - multiset{p};
    assert multiset(al) == multiset(al) + multiset{p} - multiset{p};
    if !initted {
      assert forall k :: 0 <= k < |al| ==> bl[k] == al[k] && al[k] != p;
      assert i == |al|;
      assert bl[..i] == al;
    }
  }

  /** After the addition, the first plugin in the list with the Id of `p` is `p`. */
  lemma FirstOfId(al: seq<PluginRef>, bl: seq<PluginRef>, plugins: seq<PluginData>, p: PluginRef) returns (i: nat)
    requires p < |plugins| && forall j :: 0 <= j < |al| ==> al[j] < |plugins| && plugins[al[j]].id != plugins[p].id
    requires multiset(bl) == multiset(al) + multiset{p}
    ensures i < |bl| && bl[i] == p
    ensures forall j :: 0 <= j < i ==> bl[j] < |plugins| && plugins[bl[j]].id != plugins[p].id
  {
    assert p in bl by {
      assert p in multiset(bl);
    }
    i := IndexOf(bl, p).value;
    forall j | 0 <= j < i ensures bl[j] < |plugins| && plugins[bl[j]].id != plugins[p].id {
      assert bl[j] in bl[..i];
      assert bl[j] != p;
      assert bl[j] in multiset(bl);
      assert bl[j] in multiset(al);
      var k :| 0 <= k < |al| && al[k] == bl[j];
    }
  }

  // ---------------------------------------------------------------------------
  // Sorted lists once initted

  /** An initted scene keeps its plugin and manager lists ascending by order. */
  ghost predicate SortedOnceInitted(a: Arena, s: SceneRef)
  {
    s < |a.scenes| && (a.scenes[s].initted ==> Sorted(a, s))
  }

  /** `init` sorts both lists, `update` reorders neither, `add_plugin` re-sorts
      an initted scene's plugin list and `remove_plugin` takes one plugin out:
      each keeps the lists of an initted scene sorted. */
  lemma SortedKept(a: Arena, s: SceneRef, p: PluginRef)
    requires WellFormed(a) && SortedOnceInitted(a, s) && p < |a.plugins|
    ensures SortedOnceInitted(Init(a, s), s)
    ensures SortedOnceInitted(Update(a, s), s)
    ensures SortedOnceInitted(AddPlugin(a, s, p), s)
    ensures SortedOnceInitted(RemovePlugin(a, s, p), s)
  {
    var b := AddPlugin(a, s, p);
    assert PluginAdded(a, b, s, p);
    if a.scenes[s].initted {
      assert MgrOrders(b.mgrs) == MgrOrders(a.mgrs);
    }
    RemovePluginSorted(a, s, p);
  }

  lemma RemovePluginSorted(a: Arena, s: SceneRef, p: PluginRef)
    requires WellFormed(a) && SortedOnceInitted(a, s) && p < |a.plugins|
    ensures SortedOnceInitted(RemovePlugin(a, s, p), s)
  {
    var c := RemovePlugin(a, s, p);
    if a.plugins[p].scene.Some? && a.scenes[s].initted {
      var pl := a.scenes[s].pluginList;
      assert PluginOrders(c.plugins) == PluginOrders(a.plugins);
      IdsKeyed(a, s);
      match IndexOfKey(pl, PluginIds(a.plugins), a.plugins[p].id)
      case None =>
      case Some(i) =>
        RemoveAtSorted(pl, PluginOrders(a.plugins), i);
    }
  }

  /** Registering or unregistering a component keeps the lists of an initted
      scene sorted: a new manager is sorted in, a dropped one taken out. */
  lemma RegistrationSorted(a: Arena, s: SceneRef, c: CompRef)
    requires WellFormed(a) && SortedOnceInitted(a, s) && c < |a.comps|
    ensures SortedOnceInitted(Register(a, s, c), s)
    ensures a.comps[c].managerKind in a.scenes[s].managerMap ==> SortedOnceInitted(Unregister(a, s, c), s)
  {
    if a.comps[c].managerKind in a.scenes[s].managerMap {
      JoinSorted(a, s, c);
      UnregisterSorted(a, s, c);
    } else {
      NewManagerSorted(a, s, c);
    }
  }

  lemma JoinSorted(a: Arena, s: SceneRef, c: CompRef)
    requires WellFormed(a) && SortedOnceInitted(a, s) && c < |a.comps|
    requires a.comps[c].managerKind in a.scenes[s].managerMap
    ensures SortedOnceInitted(JoinManager(a, s, c), s)
  {
    var b := JoinManager(a, s, c);
    assert |b.mgrs| == |a.mgrs|;
    assert MgrOrders(b.mgrs) == MgrOrders(a.mgrs);
  }

  lemma UnregisterSorted(a: Arena, s: SceneRef, c: CompRef)
    requires WellFormed(a) && SortedOnceInitted(a, s) && c < |a.comps|
    requires a.comps[c].managerKind in a.scenes[s].managerMap
    ensures SortedOnceInitted(Unregister(a, s, c), s)
  {
    var u := Unregister(a, s, c);
    if a.scenes[s].initted {
      var r := a.scenes[s].managerMap[a.comps[c].managerKind];
      assert u.mgrs[r].order == a.mgrs[r].order;
      MgrOrdersKept(a.mgrs, u.mgrs);
      RemoveFirstSorted(a.scenes[s].managerList, MgrOrders(a.mgrs), r);
    }
  }

  lemma NewManagerSorted(a: Arena, s: SceneRef, c: CompRef)
    requires WellFormed(a) && SortedOnceInitted(a, s) && c < |a.comps|
    requires a.comps[c].managerKind !in a.scenes[s].managerMap
    ensures SortedOnceInitted(NewManager(a, s, c), s)
  {
    var b := NewManager(a, s, c);
    if a.scenes[s].initted {
      assert ManagersAgree(a.scenes[s], a.mgrs, s);
      ListKeyed(a.scenes[s], a.mgrs, s, b.mgrs[|a.mgrs|]);
      SortBySorted(a.scenes[s].managerList + [|a.mgrs|], MgrOrders(b.mgrs));
    }
  }

  /** The order of the plugin or manager an event calls back. */
  ghost function OrderOf(plugins: seq<PluginData>, mgrs: seq<ManagerData>, e: Event): (k: nat)
    ensures (e.PluginBefore? || e.PluginAfter?) && e.plugin < |plugins| ==> k == plugins[e.plugin].order
    ensures e.ManagerUpdate? && e.manager < |mgrs| ==> k == mgrs[e.manager].order
  {
    match e
    case PluginBefore(p) => if p < |plugins| then plugins[p].order else 0
    case PluginAfter(p) => if p < |plugins| then plugins[p].order else 0
    case ManagerUpdate(r) => if r < |mgrs| then mgrs[r].order else 0
    case _ => 0
  }

  /** The three callback loops of one update: `before` on plugins, `update`
      on managers and `after` on the same plugins, each loop in ascending order. */
  ghost predicate InOrder(before: seq<Event>, updates: seq<Event>, after: seq<Event>,
                          plugins: seq<PluginData>, mgrs: seq<ManagerData>)
  {
    |after| == |before| &&
    (forall i :: 0 <= i < |before| ==> before[i].PluginBefore? && after[i].PluginAfter? && after[i].plugin == before[i].plugin) &&
    (forall i :: 0 <= i < |updates| ==> updates[i].ManagerUpdate?) &&
    (forall i, j :: 0 <= i < j < |before| ==> OrderOf(plugins, mgrs, before[i]) <= OrderOf(plugins, mgrs, before[j])) &&
    (forall i, j :: 0 <= i < j < |after| ==> OrderOf(plugins, mgrs, after[i]) <= OrderOf(plugins, mgrs, after[j])) &&
    (forall i, j :: 0 <= i < j < |updates| ==> OrderOf(plugins, mgrs, updates[i]) <= OrderOf(plugins, mgrs, updates[j]))
  }

  /** In a scene whose lists are sorted (every initted one), the events
      `update` appends to the trace are the clock tick, then calls `before` on the plugins, `update` on the managers
      and `after` on the plugins, each loop in ascending order. */
  lemma UpdateInOrder(a: Arena, s: SceneRef)
    requires WellFormed(a) && s < |a.scenes| && Sorted(a, s)
    ensures var es, np, nm := UpdateEvents(a.scenes[s], s), |a.scenes[s].pluginList|, |a.scenes[s].managerList|;
      |es| == 1 + 2 * np + nm && es[0] == Tick(s) &&
      InOrder(es[1..1 + np], es[1 + np..1 + np + nm], es[1 + np + nm..], a.plugins, a.mgrs)
  {
    var sd := a.scenes[s];
    var pl, ml := sd.pluginList, sd.managerList;
    var e1, e2, e3 := Each(pl, BeforePlugin), Each(ml, UpdateManager), Each(pl, AfterPlugin);
    Slices([Tick(s)], e1, e2, e3);
    EventsInOrder(pl, ml, a.plugins, a.mgrs);
  }

  lemma EventsInOrder(pl: seq<PluginRef>, ml: seq<MgrRef>, plugins: seq<PluginData>, mgrs: seq<ManagerData>)
    requires Keyed(pl, PluginOrders(plugins)) && SortedBy(pl, PluginOrders(plugins))
    requires Keyed(ml, MgrOrders(mgrs)) && SortedBy(ml, MgrOrders(mgrs))
    ensures InOrder(Each(pl, BeforePlugin), Each(ml, UpdateManager), Each(pl, AfterPlugin), plugins, mgrs)
  {
    var e1, e2, e3 := Each(pl, BeforePlugin), Each(ml, UpdateManager), Each(pl, AfterPlugin);
    assert forall i :: 0 <= i < |pl| ==> e1[i] == PluginBefore(pl[i]) && e3[i] == PluginAfter(pl[i]);
    assert forall i :: 0 <= i < |ml| ==> e2[i] == ManagerUpdate(ml[i]);
    PluginsOrdered(pl, plugins, mgrs);
    ManagersOrdered(ml, plugins, mgrs);
  }

  lemma Slices<T>(h: seq<T>, e1: seq<T>, e2: seq<T>, e3: seq<T>)
    ensures var es := h + e1 + e2 + e3;
      es[|h|..|h| + |e1|] == e1 && es[|h| + |e1|..|h| + |e1| + |e2|] == e2 && es[|h| + |e1| + |e2|..] == e3
  {
  }

  lemma PluginsOrdered(pl: seq<PluginRef>, plugins: seq<PluginData>, mgrs: seq<ManagerData>)
    requires Keyed(pl, PluginOrders(plugins)) && SortedBy(pl, PluginOrders(plugins))
    ensures forall i, j :: 0 <= i < j < |pl| ==>
      OrderOf(plugins, mgrs, Each(pl, BeforePlugin)[i]) <= OrderOf(plugins, mgrs, Each(pl, BeforePlugin)[j]) &&
      OrderOf(plugins, mgrs, Each(pl, AfterPlugin)[i]) <= OrderOf(plugins, mgrs, Each(pl, AfterPlugin)[j])
  {
    PluginHookOrdered(pl, plugins, mgrs, BeforePlugin);
    PluginHookOrdered(pl, plugins, mgrs, AfterPlugin);
  }

  lemma PluginHookOrdered(pl: seq<PluginRef>, plugins: seq<PluginData>, mgrs: seq<ManagerData>, h: Hook)
    requires Keyed(pl, PluginOrders(plugins)) && SortedBy(pl, PluginOrders(plugins))
    requires h == BeforePlugin || h == AfterPlugin
    ensures forall i, j :: 0 <= i < j < |pl| ==>
      OrderOf(plugins, mgrs, Each(pl, h)[i]) <= OrderOf(plugins, mgrs, Each(pl, h)[j])
  {
    var es := Each(pl, h);
    forall i | 0 <= i < |pl| ensures OrderOf(plugins, mgrs, es[i]) == PluginOrders(plugins)[pl[i]] {
      assert pl[i] in PluginOrders(plugins);
    }
  }

  lemma ManagersOrdered(ml: seq<MgrRef>, plugins: seq<PluginData>, mgrs: seq<ManagerData>)
    requires Keyed(ml, MgrOrders(mgrs)) && SortedBy(ml, MgrOrders(mgrs))
    ensures forall i, j :: 0 <= i < j < |ml| ==>
      OrderOf(plugins, mgrs, Each(ml, UpdateManager)[i]) <= OrderOf(plugins, mgrs, Each(ml, UpdateManager)[j])
  {
    forall i | 0 <= i < |ml| ensures ml[i] < |mgrs| {
      assert ml[i] in MgrOrders(mgrs);
    }
  }

  // ---------------------------------------------------------------------------
  // clear

  /** After clearing every entity of `xs` in turn: each of them has depth 0
      and no scene, parent, children or components, and is the owner of no
      component; every other entity and ownership is as before. */
  ghost predicate Cleared(a: Arena, b: Arena, xs: seq<EntityRef>)
  {
    |a.depth| == |a.children| && |a.parent| == |a.children| && |a.ents| == |a.children| &&
    |b.children| == |a.children| && |b.depth| == |a.depth| && |b.parent| == |a.parent| &&
    |b.ents| == |a.ents| && |b.owner| == |a.owner| &&
    b == a.(depth := b.depth, parent := b.parent, children := b.children, ents := b.ents, owner := b.owner) &&
    (forall y :: 0 <= y < |a.children| && y in xs ==>
      b.depth[y] == 0 && b.parent[y] == None && b.children[y] == [] && b.ents[y] == EntityData(None, map[])) &&
    (forall y :: 0 <= y < |a.children| && y !in xs ==>
      b.depth[y] == a.depth[y] && b.parent[y] == a.parent[y] && b.children[y] == a.children[y] && b.ents[y] == a.ents[y]) &&
    (forall c :: 0 <= c < |a.owner| ==>
      b.owner[c] == if a.owner[c].Some? && a.owner[c].value in xs then None else a.owner[c])
  }

  /** `Entity::clear` on every entity of `xs`, in list order. */
  ghost function ClearAll(a: Arena, xs: seq<EntityRef>): (b: Arena)
    requires WellFormed(a) && forall i :: 0 <= i < |xs| ==> xs[i] < |a.children|
    ensures WellFormed(b) && Cleared(a, b, xs)
    decreases |xs|
  {
    if |xs| == 0 then a
    else
      var a1 := ClearAll(a, xs[..|xs| - 1]);
      var b := ClearEntity(a1, xs[|xs| - 1]);
      ClearedStep(a, a1, b, xs);
      b
  }

  /** One more round of `ClearAll`: the arena so far is well-formed and the
      next round clears `xs[i]` in it. */
  lemma ClearAllNext(a: Arena, xs: seq<EntityRef>, i: nat)
    requires WellFormed(a) && forall j :: 0 <= j < |xs| ==> xs[j] < |a.children|
    requires i < |xs|
    ensures var b := ClearAll(a, xs[..i]);
      WellFormed(b) && xs[i] < |b.children| && ClearAll(a, xs[..i + 1]) == ClearEntity(b, xs[i])
  {
    assert xs[..i + 1][..i] == xs[..i];
  }

  lemma ClearedStep(a: Arena, a1: Arena, b: Arena, xs: seq<EntityRef>)
    requires |xs| > 0 && xs[|xs| - 1] < |a.children| && Cleared(a, a1, xs[..|xs| - 1])
    requires |b.depth| == |a.depth| && |b.parent| == |a.parent| && |b.ents| == |a.ents|
    requires var x := xs[|xs| - 1];
      |b.children| == |a1.children| && |b.owner| == |a1.owner| &&
      b.depth[x] == 0 && b.parent[x] == None && b.children[x] == [] &&
      b.ents[x].scene == None && b.ents[x].components == map[] &&
      (forall c :: 0 <= c < |a1.owner| && a1.owner[c] == Some(x) ==> b.owner[c] == None) &&
      (forall c :: 0 <= c < |a1.owner| && a1.owner[c] != Some(x) ==> b.owner[c] == a1.owner[c]) &&
      b == a1.(depth := b.depth, parent := b.parent, children := b.children, ents := b.ents, owner := b.owner) &&
      forall y :: 0 <= y < |a1.children| && y != x ==>
        b.ents[y] == a1.ents[y] && b.children[y] == a1.children[y] && b.parent[y] == a1.parent[y] && b.depth[y] == a1.depth[y]
    ensures Cleared(a, b, xs)
  {
    var x, init := xs[|xs| - 1], xs[..|xs| - 1];
    assert forall y :: y in xs <==> y in init || y == x;
    assert b.ents[x] == EntityData(None, map[]);
    forall c | 0 <= c < |a.owner|
      ensures b.owner[c] == if a.owner[c].Some? && a.owner[c].value in xs then None else a.owner[c]
    {
      if a.owner[c].Some? && a.owner[c].value in init {
        assert a1.owner[c] == None;
      }
    }
  }

  /** What `Scene::clear` of `s` does: every entity of its list is cleared,
      every plugin of its list is cleared in list order, and the scene is
      left not initted, with no entity, manager or plugin; every other table
      (components, managers, plugins, other scenes) is as before. */
  ghost predicate SceneCleared(a: Arena, b: Arena, s: SceneRef)
  {
    s < |a.scenes| && |b.scenes| == |a.scenes| &&
    Cleared(a, b.(scenes := a.scenes, trace := a.trace), a.scenes[s].entities) &&
    b.scenes[s] == SceneData(false, [], map[], [], map[], []) &&
    (forall t :: 0 <= t < |a.scenes| && t != s ==> b.scenes[t] == a.scenes[t]) &&
    b.trace == a.trace + Each(a.scenes[s].pluginList, ClearPlugin)
  }

  /** `Scene::clear`.  Clearing keeps every entity that was consistent so, and
      keeps the tables well-formed; it does not keep the hierarchy a forest
      when a cleared entity had children or a parent outside the scene. */
  ghost function ClearScene(a: Arena, s: SceneRef): (b: Arena)
    requires WellFormed(a) && s < |a.scenes|
    ensures WellFormed(b) && SceneCleared(a, b, s) && Kept(a, b)
  {
    var xs := a.scenes[s].entities;
    assert forall i :: 0 <= i < |xs| ==> xs[i] < |a.children|;
    var a1 := ClearAll(a, xs);
    var b := a1.(scenes := a1.scenes[s := SceneData(false, [], map[], [], map[], [])],
                 trace := a1.trace + Each(a.scenes[s].pluginList, ClearPlugin));
    ClearSceneTables(a1, s, b);
    ClearSceneKept(a, a1, b, s);
    b
  }

  lemma ClearSceneTables(a1: Arena, s: SceneRef, b: Arena)
    requires WellFormed(a1) && s < |a1.scenes|
    requires b == a1.(scenes := a1.scenes[s := SceneData(false, [], map[], [], map[], [])], trace := b.trace)
    ensures WellFormed(b)
  {
    assert AllManagersAgree(b.scenes, b.mgrs) by {
      forall t | 0 <= t < |b.scenes| ensures ManagersAgree(b.scenes[t], b.mgrs, t) {
        assert ManagersAgree(a1.scenes[t], a1.mgrs, t);
      }
    }
    assert ListsAgree(b.ents, b.scenes);
  }

  lemma ClearSceneKept(a: Arena, a1: Arena, b: Arena, s: SceneRef)
    requires WellFormed(a) && s < |a.scenes| && Cleared(a, a1, a.scenes[s].entities)
    requires b == a1.(scenes := a1.scenes[s := SceneData(false, [], map[], [], map[], [])], trace := b.trace)
    ensures Kept(a, b)
  {
    var xs := a.scenes[s].entities;
    forall y: EntityRef | y < |a.ents| && OnList(a, y) ensures OnList(b, y) {
      if y in xs {
        assert a.ents[y].scene == Some(s);
      }
    }
    forall y: EntityRef | y < |a.ents| && Good(a, y) ensures Good(b, y) {
      assert OnList(a, y);
      if y !in xs && a.ents[y].scene.Some? {
        var t := a.ents[y].scene.value;
        forall k | k in b.ents[y].components
          ensures Registered(b.scenes, b.comps, b.mgrs, t, b.ents[y].components[k])
        {
          assert Registered(a.scenes, a.comps, a.mgrs, t, a.ents[y].components[k]);
        }
      }
    }
  }
}
