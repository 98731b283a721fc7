# scene_graph: the entity–scene consistency protocol

This project models the core of `scene_graph`, a Rust scene-graph and
entity-component runtime, and proves properties of the model. The core is the
bookkeeping that keeps three things in step:

- **entities** (`src/entity.rs`): each has a parent link, an ordered child list,
  a cached depth, an optional scene and a map from component type to component;
- **scenes** (`src/scene.rs`): each holds
  - a list of entities;
  - a table of component managers, kept both as a map keyed by manager Id and as an ordered list;
  - a map and a list of plugins;
  - a one-way `initted` flag;
- **components, component managers and plugins**: each records its entity or scene.

## How the model is built

- **Arena.** Objects live in one arena, the class `SceneGraph.World` (`world.dfy`).
  - A handle is an index into one of its tables.
  - Pointer equality of `Entity` and `Scene` becomes handle equality.
  - Creating an object appends to a table.
  - The `World` constructor, which builds the empty arena, is scaffolding of the model with no counterpart in the source.
- **Methods.** Every operation of the two source files is a method of `World`.
  - It updates the fields in place, step by step, following the source's statements; the places where it departs from them are listed under "Left out".
  - It is proved to leave exactly the arena that a specification function computes
    from the arena before: `ensures Snapshot() == Op(old(Snapshot()), args)`.
  - The specification functions live in the modules below, on the value `Protocol.Arena`.
  - Their own `ensures` clauses, and the lemmas about them, state what the source promises.
- **Modules.**
  - `Protocol`: arena, well-formedness, component registration (`__add_component`,
    `__remove_component`).
  - `Propagation`: moving entities and their subtrees in and out of scenes
    (`add_entity`, `remove_entity`, `__remove_entity`, `set_scene`, `remove_scene`).
  - `EntityOps`: the hierarchy and component-map edits of `Entity`.
  - `SceneOps`: the scene lifecycle (`init`, `update`, `clear`) and plugins.
  - `Hierarchy`: child lists, subtrees and depth recomputation.
  - `Tables`: the consistency predicates over all tables.
  - `Collections`: `Vec` position/remove, a stable `sort_by`, ascending key order.
- **Managers.** A component manager behaves as the list manager of the tests (`tests/test.rs:61-83`).
  - `add` appends.
  - `remove` deletes the first match.
  - `is_empty` means the list is empty.
- **Callbacks.** Every lifecycle callback is recorded in a ghost `trace`, in call order:
  - plugin `init`, `before`, `after`, `clear`;
  - manager `init`, `update`, `clear`;
  - the clock tick of `update`.

### Invariants

- **`Protocol.WellFormed`**, kept by every operation:
  - handles are in range;
  - component ownership agrees with the entities' component maps;
  - each scene's manager map and manager list hold the same managers, each filed under its Id and recording that scene;
  - plugin maps and lists only name plugins;
  - a scene lists an entity only if the entity records that scene or none, and at most once;
  - an entity with no scene is on no list;
  - a child always ranks below its parent (see the last line of "Left out").
- **Per-entity consistency (`Protocol.Good`):** an entity is listed by exactly its own scene and its components are registered there.
  - No operation makes a consistent entity inconsistent, with one exception: `Entity::clear` of an entity that its scene lists.
    The entity keeps its list entry but records no scene (`EntityOps.ClearThenRemove`).
  - `add_entity(s, x)` requires consistency of the subtree of `x` when it moves it (not when `x` is in `s` already).
  - `remove_entity(s, x)` requires, of every entity of the subtree it walks, consistency or having been cleared while `s` listed it.
  - These requirements rule out the `unwrap` panics of `__remove_component` and `get_mut`. Entities outside the walked subtree may be in any state.
- **Empty managers.** As written, `__remove_component` can leave a manager filed and empty (see "Findings").
  - The model follows the source here, so "no scene keeps an empty manager" (`Protocol.NoEmpty`) is not an invariant.
  - It is preserved by `__add_component` and by the corrected removal `Protocol.UnregisterFixed`.
- **Manager members on removal (`Protocol.MembersLeave`):** members may repeat, so what a removal does to a manager is stated on its multiset of members.
  - `remove_scene` and `remove_entity` take one copy of each departing component out of the manager its manager Id is filed under, and nothing else.
  - Because a registered component is in its manager, these removals never drop a manager as written (`Protocol.UnregisterMembers`).
  - They also leave every departing component with no entity (`Propagation.Unhooked`).
- **Manager members on registration and moves.**
  - `__add_component` puts one copy of the component into one manager (`Protocol.MembersJoin`).
  - `add_entity`, `set_scene` and the children loop of `set_scene` are moves into `s` (`Propagation.MembersMove`). Components of entities leaving another scene leave the managers it filed them with, and components of entities entering `s` join the managers of `s`.
  - Descendants of `x` may sit in other scenes than the old scene of `x`. `set_scene` then takes them out of those scenes' managers, so a move does not promise that managers outside `s` keep their members.
- **Forest (`EntityOps.Forest`):** child lists agree with parent links, and
  depth is 0 for a root and the parent's depth plus one otherwise.
  - This is not an invariant of the source: `add_child` does not detach a child from a previous parent.
  - So it is proved where the source keeps it (see the table).

## Model

| member | source | states |
|---|---|---|
| Collections.RemoveAt | src/scene.rs:247 | `Vec::remove(i)` keeps the elements before `i` and shifts those after it down by one |
| Collections.RemoveFirstSpec | tests/test.rs:73-83 | removing the first match of `x` takes exactly one copy of `x` out of the list's multiset, and leaves the list unchanged when `x` is absent |
| Collections.RemoveFirstNoDup | tests/test.rs:73-83 | on a duplicate-free list the removal leaves no copy of `x` and no duplicates |
| Collections.SortBy | src/scene.rs:172-176 | `sort_by` on the order key returns a permutation of its input |
| Collections.SortBySorted | src/scene.rs:234-238 | after `sort_by` the list is ascending by order |
| Collections.SortByStable | src/scene.rs:234-238 | `sort_by` is stable: for every order `k`, the elements of order `k` keep their relative order |
| Collections.RemoveFirstSorted | src/scene.rs:307-314 | removing an element keeps an ascending list ascending |
| Collections.SortedIds | src/entity.rs:245-247 | the components of a map, in the iteration order the model fixes: every key exactly once, ascending |
| Hierarchy.UpdatedDepthsConsistent | src/entity.rs:105-116 | after `update_children_depth(x)` on a tree-shaped hierarchy, every strict descendant of `x` has depth one more than its parent, and `x` keeps its depth |
| Hierarchy.UpdatedDepthsFrame | src/entity.rs:105-116 | `update_children_depth(x)` changes no depth outside the strict descendants of `x` |
| Hierarchy.SiblingsDisjoint | src/entity.rs:109-114 | in a tree-shaped hierarchy the subtrees of two distinct children of one entity do not overlap |
| Hierarchy.AttachShaped | src/entity.rs:123-128 | linking a parentless `c` under `p` and appending it to the children of `p` keeps the hierarchy tree-shaped |
| Hierarchy.DetachShaped | src/entity.rs:146-157 | dropping `x` from its parent's children and clearing its parent link keeps the hierarchy tree-shaped |
| Hierarchy.ReattachDepths | src/entity.rs:155-158 | once `x` gets a new depth (0 when detached, parent plus one when attached), updating its subtree restores depth consistency |
| Hierarchy.AppendLeaf | src/entity.rs:34-46 | a new entity with no parent, no children and depth 0 keeps the hierarchy acyclic, tree-shaped and depth-consistent |
| Protocol.Register | src/scene.rs:263-290 | `__add_component`: `c` ends registered with the manager of its manager Id in `s`, and that Id is then in the manager map. Every other registration and every consistent entity are kept, and only the manager tables, the managers and the trace change. An initted scene records one manager `init` per add |
| Protocol.JoinManager | src/scene.rs:281-289 | the branch where the scene has a manager for the Id: `c` joins it and nothing is created |
| Protocol.NewManager | src/scene.rs:268-280 | the branch with no manager: exactly one manager is created and filed in both the map and the list, keeping them in agreement. It records the scene and holds `c`, and the list is re-sorted when the scene is initted |
| Protocol.Unregister | src/scene.rs:291-321 | `__remove_component` as written: `c` loses its entity back-reference and its first entry leaves the members of its manager; no other manager changes. If the manager was empty before the removal, it loses its scene, leaves the map and the list of `s` and gets `clear`; otherwise the scenes, the manager's scene and the trace are unchanged. Every other registration and every consistent entity but the owner of `c` are kept |
| Protocol.UnregisterMembers | src/scene.rs:291-321 | removing a registered component takes exactly one copy of it out of the manager its manager Id is filed under and drops no manager: that manager held it, so it was not empty when asked |
| Protocol.UnregisterLeaves | src/scene.rs:291-321 | `__remove_component` takes one copy of `c` out of its manager and leaves every other manager as it was, whether the manager is then dropped or not |
| Protocol.MembersTrans | src/entity.rs:252-254 | two steps that take disjoint sets of components out of the managers of `s` take out their union |
| Protocol.RegisterMembers | src/scene.rs:263-290 | `__add_component` puts exactly one copy of `c` into the manager `s` files it with, existing or created; no other manager's members change and no other scene's manager map or list changes |
| Protocol.JoinTrans | src/entity.rs:245-247 | two steps that put disjoint sets of components into the managers of `s` put in their union |
| Protocol.UnregisterFixed | src/scene.rs:291-321 | the corrected `__remove_component`: the same effects, except that the manager is dropped exactly when the removal leaves it empty; "no scene keeps an empty manager" is preserved |
| Protocol.EmptyManagerKept | src/scene.rs:299-304 | removing the only component of a manager as written leaves that manager filed and empty (breaking "no empty manager"); the corrected removal drops it |
| Propagation.AddEntity | src/scene.rs:122-135 | `add_entity(s, x)`: a no-op when `x` is already in `s`. Otherwise `x` is appended to the list of `s` (after leaving its old scene) and ends consistent in `s`. No consistent entity becomes inconsistent. Only the subtree of `x` changes scene, nothing leaves `s`, and whatever enters `s` has all its children in `s`. Every change of scene ends in `s` or in no scene, and the managers see a move (`Propagation.MembersMove`): each component whose owner leaves another scene loses one copy from the manager that scene filed it with, each component whose owner enters `s` gains one copy in the manager `s` files it with (an existing one or one created for it), and no other member joins or leaves. Managers are only created, the manager map of `s` only grows and no other scene's manager map or list changes |
| Propagation.SetScene | src/entity.rs:238-249 | `set_scene(x, s)`: `x` records `s` and ends consistent there (listed, components registered); only the subtree of `x` changes scene, and the list of `s` only grows. Every change of scene ends in `s` or in no scene, and the managers see a move (`Propagation.MembersMove`): each component whose owner leaves another scene loses one copy from the manager that scene filed it with, each component whose owner enters `s` gains one copy in the manager `s` files it with (an existing one or one created for it), and no other member joins or leaves. Managers are only created, the manager map of `s` only grows and no other scene's manager map or list changes |
| Propagation.SetSceneKids | src/entity.rs:242-244 | after the first `n` rounds of the children loop those children record `s`, and `x` still does; every change of scene so far ends in `s` or in none, and the managers have seen a move into `s` |
| Propagation.RegisterAll | src/entity.rs:245-247 | the component loop of `set_scene`: every component of `cs` ends registered with `s`; nothing else registered or consistent is lost. When `cs` has no duplicates, each of its components gains exactly one copy in the manager `s` files it with, no other member joins or leaves, and only the tables of `s` change |
| Propagation.RoundsMembers | src/entity.rs:245-247 | the first `n` rounds of the component loop, over distinct components, put each of those components once into the manager `s` files it with, and nothing else |
| Propagation.RemoveEntity | src/scene.rs:240-261 | `remove_entity` / `__remove_entity`: a no-op when `s` does not list `x`. Otherwise `x` ends consistent with no scene, also when it had been cleared while listed. No consistent entity becomes inconsistent, and only the subtree of `x` changes scene, only by leaving `s`. Whatever leaves `s` has none of its children in `s`, the list of `s` only shrinks and other scenes' lists stay as they are. Each component whose entity leaves `s` loses one copy from the manager `s` files it with; no other member leaves, no manager is dropped and no manager map or list changes. Every component whose entity leaves `s` records no entity afterwards, and no component gains an entity or switches to another |
| Propagation.RemoveScene | src/entity.rs:250-261 | `remove_scene(x)`, for `x` in `s` or cleared: every child is removed from `s`, and `x` ends with no scene and on no list; parent and child links are untouched. The managers of `s` lose exactly one copy of each component of `x` and of each component of an entity that leaves `s` on the way, each from the manager its manager Id is filed under; no manager is dropped and no manager map or list changes. Every component whose entity leaves `s` records no entity afterwards, and no component gains an entity or switches to another |
| Propagation.RemoveSceneKids | src/entity.rs:255-257 | after the first `n` rounds of the children loop none of those children records `s`; what left the managers is one copy of each component of each entity that left `s`, and each such component records no entity |
| Propagation.UnregisterAll | src/entity.rs:252-254 | the component loop of `remove_scene`: exactly the components of `cs` lose their entity back-reference, every other registration is kept, and every consistent entity but `x` stays so. Each manager of `s` loses exactly one copy of each component of `cs` filed with it and keeps every other member; since every component of `cs` is registered, no manager is dropped and no manager map or list changes |
| Propagation.UnregisterMembersStep | src/entity.rs:252-254 | one more round of the component loop takes one more copy out of the managers: what the first `n` rounds take out is the components `cs[..n]` |
| Propagation.DepartCompose | src/entity.rs:255-257 | two removal steps in a row take out of the managers of `s` the components of the entities that leave `s` over both steps |
| Propagation.LeaveMembers | src/entity.rs:250-261 | what `remove_scene(x)` takes out of the managers is the components of `x` together with those of the entities its children loop takes out of `s` |
| Propagation.UnhookTrans | src/entity.rs:255-257 | two removal steps out of `s` that each leave their departing components with no entity leave all departing components with none |
| Propagation.LeaveToMove | src/scene.rs:123-126 | leaving the old scene in `add_entity(s, x)` is a move into `s`: what it takes out of the old scene's managers is exactly what is gone from scenes other than `s` |
| Propagation.MoveTrans | src/entity.rs:242-244 | two moves into `s` in a row are one move into `s`: what leaves other scenes and what arrives in `s` over both steps add up, each counted once |
| Propagation.SetMembers | src/entity.rs:238-249 | `set_scene(x, s)` of an `x` with no scene is a move into `s`: the children loop's move plus the registration of the components of `x` |
| Propagation.AddMembers | src/scene.rs:122-135 | `add_entity(s, x)` is a move into `s`: leaving the old scene of `x`, then the push and `set_scene` |
| Propagation.AddEntityClosed | src/entity.rs:238-249 | when membership of `s` is inherited down the tree, it still is after `add_entity(s, x)`, and every entity of the subtree of `x` is in `s` |
| Propagation.RemoveEntityOpen | src/entity.rs:250-261 | when the whole subtree of `x` is in `s`, `remove_entity(s, x)` leaves every entity of it with no scene |
| Propagation.AddThenRemove | src/scene.rs:122-147 | `remove_entity(s, x)` right after `add_entity(s, x)` of a consistent subtree takes the whole subtree of `x` out of every scene |
| Propagation.AddEntityListed | src/scene.rs:131-132 | after `add_entity(s, x)`, `s` is the one scene whose list holds `x` (if and only if), unless `x` was in `s` already without being consistent |
| Propagation.RemoveEntityUnlisted | src/scene.rs:240-261 | after `remove_entity(s, x)` of a listed `x`, no list holds `x`, and every other entry of the list of `s` outside the subtree of `x` stays |
| EntityOps.Attach | src/entity.rs:118-128 | the hierarchy half of `add_child(p, c)`: `c` records `p` and depth `depth(p) + 1`, `c` is appended to the children of `p`, and every strict descendant of `c` gets its parent's depth plus one. No other child list or parent link changes, no depth outside the subtree of `c` changes, and a forest stays a forest when `c` had no parent |
| EntityOps.AddChild | src/entity.rs:118-135 | `add_child(p, c)`: the hierarchy result of `Attach`; then, when `p` has a scene, exactly the `add_entity` of `c` to it, otherwise nothing outside the hierarchy changes |
| EntityOps.AttachReady | src/entity.rs:118-135 | the hierarchy part of `add_child(p, c)` keeps `c` ready for the `add_entity` that follows it, if it was ready before |
| EntityOps.AddChildClosed | src/entity.rs:130-132 | when `p` is in `s` and membership of `s` is inherited down the tree, after `add_child(p, c)` it still is and the whole subtree of `c` is in `s` |
| EntityOps.Detach | src/entity.rs:146-160 | `detach(x)`: `x` records no parent and depth 0, one copy of `x` leaves its parent's children, no other child list or parent link changes, and no depth outside the subtree of `x` changes; a forest stays a forest with `x` in no child list |
| EntityOps.RemoveChild | src/entity.rs:136-145 | `remove_child(p, x)`: the hierarchy result of `detach(x)`, then exactly the `remove_entity` of `x` from the scene of `p`, if any |
| EntityOps.DetachReady | src/entity.rs:136-145 | the hierarchy part of `remove_child(p, x)` keeps `x` ready for the `remove_entity` that follows it, if it was ready before |
| EntityOps.RemoveChildOpen | src/entity.rs:136-145 | when `p` and `x` are in `s` and membership of `s` is inherited down the tree, after `remove_child(p, x)` every entity of the subtree of `x` has no scene |
| EntityOps.ClearEntity | src/entity.rs:48-57 | `Entity::clear`: depth 0, no scene, parent, children or components; `x` owns no component any more; every other entity is unchanged |
| EntityOps.ClearForest | src/entity.rs:48-57 | clearing a parentless leaf keeps a forest; clearing an entity with children leaves them pointing at a parent that no longer lists them |
| EntityOps.ClearThenRemove | src/entity.rs:48-57 | clearing a consistent entity of scene `s` leaves it on the list of `s` with no scene, so inconsistent; `remove_entity(s, x)` then takes it off every list and leaves it consistent |
| EntityOps.AddComponent | src/entity.rs:162-180 | `add_component(x, c)`: when a component of the type of `c` is already filed nothing changes (the first one wins). Otherwise `c` is filed under its type, owned by `x`, records `x`, and is registered with the scene of `x` if it has one. Nothing else in the entity tables changes and no consistent entity is lost. The plugins and every other component are unchanged. When `x` has no scene the scenes and managers are unchanged; when it has one and `c` is added, `c` gains exactly one copy in the manager that scene files it with (an existing one or one created for it), no other member joins or leaves, and only the tables of that scene change |
| EntityOps.InsertManagers | src/entity.rs:168-174 | the manager side of `add_component`: without a scene nothing in the scenes or managers changes, with one `c` joins exactly one manager of that scene, and other components and plugins are untouched |
| EntityOps.RemoveComponent | src/entity.rs:191-209 | `remove_component_by_type_id(x, t)`: with no component of type `t` nothing changes. Otherwise that component loses owner and entity and `t` leaves the map. When `x` has a scene, the manager that scene files the component with loses its first copy of it and every other manager stays as it was; when `x` has none, no manager and no scene changes. When every component of `x` was registered, nothing else in the managers or their tables changes. Afterwards `has_component` is false either way |
| EntityOps.LeaveManager | src/entity.rs:199-201 | the manager step of `remove_component_by_type_id`: with a scene, the component's first copy leaves the manager its manager Id is filed under and no other manager changes; without one, nothing changes |
| EntityOps.AddThenRemoveComponent | src/entity.rs:162-209 | adding a new component and then removing its type restores every entity's scene and component map and every ownership |
| SceneOps.Each | src/scene.rs:96-101 | a callback loop issues exactly one call per element, in list order |
| SceneOps.Init | src/scene.rs:89-104 | `init`: afterwards the scene is initted, and a second call changes nothing. The first call sorts the plugin and manager lists by ascending order (stably, as permutations), then issues `init` to every plugin and then every manager in the new order; nothing else changes |
| SceneOps.UpdateEvents | src/scene.rs:106-120 | `update` issues the tick first, then one `before` per plugin, one `update` per manager and one `after` per plugin |
| SceneOps.Update | src/scene.rs:106-120 | `update` only appends those events to the trace: it never reorders a list or changes a table |
| SceneOps.UpdateInOrder | src/scene.rs:106-120 | on sorted lists, the `before`, `update` and `after` calls each come in ascending order |
| SceneOps.AddPlugin | src/scene.rs:178-191 | `add_plugin`: the map entry for the plugin's Id is inserted or overwritten and the plugin records `s`. The plugin is appended to the list, or, in an initted scene, the list is re-sorted ascending and stably; no event is issued |
| SceneOps.RemovePlugin | src/scene.rs:195-215 | `remove_plugin`: nothing happens to a plugin without a scene. Otherwise its Id leaves the map, exactly the first list entry with that Id leaves the list (none if there is none), the plugin records no scene and gets `clear` |
| SceneOps.AddThenRemovePlugin | src/scene.rs:178-215 | adding a plugin with a new Id and then removing it restores the plugin map and (as a multiset; exactly when not initted) the list; the plugin records no scene and one `clear` is issued |
| SceneOps.SortedKept | src/scene.rs:186-188 | "sorted once initted" is kept by `init`, `update`, `add_plugin` and `remove_plugin` |
| SceneOps.RegistrationSorted | src/scene.rs:278-280 | "sorted once initted" is kept by `__add_component` and `__remove_component` |
| SceneOps.ClearAll | src/scene.rs:64-66 | clearing each listed entity in turn: every one of them is reset, every other entity and ownership is as before |
| SceneOps.ClearScene | src/scene.rs:63-83 | `clear`: the listed entities are cleared and every plugin gets `clear` in list order. The scene is left not initted with no entity, manager or plugin, the other tables are as before, and no consistent entity is lost |
| SceneGraph.World.NewEntity | src/entity.rs:34-46 | `Entity::new`: a new entity with depth 0 and no scene, parent, children or components; the arena stays well-formed, a forest stays a forest |
| SceneGraph.World.NewScene | src/scene.rs:42-58 | `Scene::new`: a new scene, not initted and empty |
| SceneGraph.World.NewComponent | tests/test.rs:93-100 | a new component of the given type and manager Id, attached to no entity |
| SceneGraph.World.NewPlugin | tests/test.rs:139-146 | a new plugin of the given Id and order, in no scene |
| SceneGraph.World.Depth | src/entity.rs:59-65 | `depth`: in a forest, 0 for a root and the parent's depth plus one otherwise |
| SceneGraph.World.Component | src/entity.rs:210-222 | `component`: the component of type `t` owned by `x`, or none when `x` owns none of that type |
| SceneGraph.World.HasComponent | src/entity.rs:181-187 | `has_component` holds exactly when `x` owns a component of type `t` |
| SceneGraph.World.HasEntity | src/scene.rs:136-141 | `has_entity` holds exactly when `s` lists `x`, which for a consistent `x` is when `x` records `s` |
| SceneGraph.World.GetComponentManager | src/scene.rs:155-166 | `get_component_manager` finds a manager exactly when the Id is in the map; it has that Id, records `s`, is on the list, and holds a component while no scene keeps an empty one (which the as-written removal does not maintain) |
| SceneGraph.World.GetPlugin | src/scene.rs:217-228 | `get_plugin` finds a plugin exactly when the Id is in the map, and it has that Id |
| SceneGraph.World.HasPlugin | src/scene.rs:192-194 | `has_plugin` holds exactly when `get_plugin` finds a plugin |
| SceneGraph.World.UpdateChildrenDepth | src/entity.rs:105-116 | the recursive loop computes `Hierarchy.UpdatedDepths` |
| SceneGraph.World.RegisterComponent | src/scene.rs:263-290 | in place, the arena `Protocol.Register` computes |
| SceneGraph.World.UnregisterComponent | src/scene.rs:291-321 | in place, the arena `Protocol.Unregister` computes: emptiness is read before the removal, as written |
| SceneGraph.World.AddEntity | src/scene.rs:122-135 | in place, the arena `Propagation.AddEntity` computes |
| SceneGraph.World.PushEntity | src/scene.rs:131-132 | the push onto the list of `s` followed by `set_scene` |
| SceneGraph.World.SetScene | src/entity.rs:238-249 | in place, the arena `Propagation.SetScene` computes |
| SceneGraph.World.SetSceneChildren | src/entity.rs:242-244 | the children loop, as `Propagation.SetSceneKids` |
| SceneGraph.World.RegisterAllComponents | src/entity.rs:245-247 | the components loop, as `Propagation.RegisterAll` |
| SceneGraph.World.RemoveEntity | src/scene.rs:142-147 | in place, the arena `Propagation.RemoveEntity` computes |
| SceneGraph.World.RemoveScene | src/entity.rs:250-261 | in place, the arena `Propagation.RemoveScene` computes |
| SceneGraph.World.UnregisterAllComponents | src/entity.rs:252-254 | the components loop, as `Propagation.UnregisterAll` |
| SceneGraph.World.RemoveSceneChildren | src/entity.rs:255-257 | the children loop, as `Propagation.RemoveSceneKids` |
| SceneGraph.World.AddChild | src/entity.rs:118-135 | in place, the arena `EntityOps.AddChild` computes |
| SceneGraph.World.Attach | src/entity.rs:121-128 | in place, the arena `EntityOps.Attach` computes |
| SceneGraph.World.Detach | src/entity.rs:146-160 | in place, the arena `EntityOps.Detach` computes |
| SceneGraph.World.RemoveChild | src/entity.rs:136-145 | in place, the arena `EntityOps.RemoveChild` computes |
| SceneGraph.World.ClearEntity | src/entity.rs:48-57 | in place, the arena `EntityOps.ClearEntity` computes |
| SceneGraph.World.AddComponent | src/entity.rs:162-180 | in place, the arena `EntityOps.AddComponent` computes |
| SceneGraph.World.RemoveComponent | src/entity.rs:191-209 | in place, the arena `EntityOps.RemoveComponent` computes |
| SceneGraph.World.Notify | src/scene.rs:110-118 | a callback loop appends `SceneOps.Each` of the list to the trace |
| SceneGraph.World.Init | src/scene.rs:89-104 | in place, the arena `SceneOps.Init` computes |
| SceneGraph.World.Update | src/scene.rs:106-120 | in place, the arena `SceneOps.Update` computes |
| SceneGraph.World.AddPlugin | src/scene.rs:178-191 | in place, the arena `SceneOps.AddPlugin` computes |
| SceneGraph.World.RemovePlugin | src/scene.rs:195-215 | in place, the arena `SceneOps.RemovePlugin` computes |
| SceneGraph.World.Clear | src/scene.rs:63-83 | in place, the arena `SceneOps.ClearScene` computes |
| SceneGraph.World.ClearEntities | src/scene.rs:64-66 | the entity loop of `clear`, as `SceneOps.ClearAll` |

## Left out

- The clock (`src/_time.rs`) reads the system time and works in floating point.
  - `time.update()` is one `Tick` event in the trace.
  - `get_time` / `get_time_mut` are not modelled.
- `Id` and `TypeId` come from compiler intrinsics (`src/id.rs`). They are an opaque key (`nat`) compared only for equality.
- Downcasting and trait objects are not modelled. Components, managers and plugins are records (type, manager Id, order, scene or entity).
  - `get_component_manager` / `get_plugin` / `component` return handles.
  - The source's type-mismatch `None`, and the panicking `unwrap` of a failed downcast, are not modelled.
- `component_mut`, `parent`, `parent_mut`, `scene`, `scene_mut`, `initted` and `get_scene` are direct field reads of the tables; they have no member of their own.
- `for_each_entity`, `for_each_component_manager` and `for_each_plugin` apply a caller's closure: code this model cannot see.
- Plugin and manager callbacks have no effect beyond their trace event, as in the test plugin and manager. A callback that mutates the scene is not modelled.
- `add_component` takes its component by value in the source, so `c` must be a component with no owner. The generic `T` of `add_component` / `has_component` / `component` becomes the component's type Id.
- `remove_component` (generic) is `remove_component_by_type_id` with the type's Id.
- Preconditions stand for the source's panics:
  - `add_child` and `remove_child` of an entity to itself (`assert!`);
  - `__remove_component` for an Id the scene has no manager for (`unwrap`);
  - the consistency `add_entity` requires of the subtree it moves and `remove_entity` of the subtree it walks (where an entity cleared while listed is accepted), without which the same `unwrap` can fail.
- `scene.rs` calls `__set_scene`, `__remove_scene` and `__remove_scene_children`, which the shown `entity.rs` names `set_scene` and `remove_scene`.
  - The model uses `entity.rs`'s `remove_scene`: components first, then children, then the scene link.
  - The children pass of `__remove_scene_children` and the later `__remove_scene` is folded into that one call. Its second children pass finds every child already out of the scene.
- Propagation.RemoveEntity: does not model the order `scene.rs`'s revision uses (children before components), so the order of manager `clear` events in the trace may differ from it.
- `HashMap` iteration order is unspecified in the source. The model iterates a component map in ascending type Id (`Collections.SortedIds`); every property proved holds for that order only.
- Cycles: the source only forbids self-parenting, and a cycle would make `update_children_depth` recurse forever.
  - Each entity gets a ghost rank, chosen by the caller, when it is created, and `add_child` requires the child to rank below the parent.
  - This is a model assumption that keeps the child lists acyclic.
  - It also excludes re-parenting that is acyclic in the source. After `add_child(p, c)` and `remove_child(p, c)`, the model cannot run `add_child(c, p)`, because `c` still ranks below `p`.
- EntityOps.AddChild: does not remove `c` from a previous parent's child list, as in the source. The forest property is therefore proved only when `c` had no parent.
- Propagation.AddEntity: does not model adding a subtree that holds an entity `Entity::clear` reset while a scene still listed it. The source pushes that entity a second time, or onto a second list, which breaks the one-entry-per-list agreement `Protocol.WellFormed` keeps.
- Propagation.RemoveEntity: does not model removing a cleared entity that was given components again before the removal. `remove_scene` would hand those components to `__remove_component`, whose `unwrap` may fail.
- SceneOps.ClearScene: states what happens to the entities' fields but not that the hierarchy stays a forest. It does not, when a cleared entity had children or a parent outside the scene (`EntityOps.ClearForest`).

## Findings

| source | as written | input that shows it | evidently intended | confidence | as-written member | corrected member |
|---|---|---|---|---|---|---|
| src/scene.rs:300-301 | `is_empty` is sampled before `remove_component`, so a manager is dropped only when it was already empty before the removal | a scene whose manager holds exactly one component `c`; remove `c` (e.g. the third `remove_component` of tests/test.rs:205-207, where the three components share one manager): the manager stays in the map and list, empty, and never gets `clear` | drop the manager (clear it, clear its scene, remove it from map and list) once the removal leaves it empty | not executed | Protocol.EmptyManagerKept | Protocol.UnregisterFixed |

The rest of the model follows the program as written: every removal path (`remove_scene`, `remove_component_by_type_id`) uses `Protocol.Unregister`, and `Protocol.UnregisterFixed` stands beside it with the intended property proved.
