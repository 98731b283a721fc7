/** Handles of the arena that replaces the shared, reference-counted cells of the
    scene graph: two handles denote the same object exactly when they are equal,
    which is what the pointer comparisons of `Entity` and `Scene` decide. */
module Handles {

  /** An entity (a node of the hierarchy). */
  type EntityRef = nat
  /** A scene (the registry of entities, managers and plugins). */
  type SceneRef = nat
  /** A component instance attached to at most one entity. */
  type CompRef = nat
  /** A component-manager instance, shared by a scene's map and list. */
  type MgrRef = nat
  /** A plugin instance. */
  type PluginRef = nat

  /** A type identity, used as the key of every per-type table.  Only equality
      is used by the core, so it is an opaque key. */
  type Id = nat

  /** The lifecycle callbacks the scene issues, recorded in call order. */
  datatype Event =
    | Tick(scene: SceneRef)
    | PluginInit(plugin: PluginRef)
    | PluginBefore(plugin: PluginRef)
    | PluginAfter(plugin: PluginRef)
    | PluginClear(plugin: PluginRef)
    | ManagerInit(manager: MgrRef)
    | ManagerUpdate(manager: MgrRef)
    | ManagerClear(manager: MgrRef)
}
