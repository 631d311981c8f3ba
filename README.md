# bevy_urdf: load/spawn pipeline, geometry extraction and frame sync in Dafny

This project models the core of bevy_urdf, a Bevy plugin that loads a URDF
robot description into the Rapier physics engine and mirrors link poses into
renderer transforms. It covers four pieces:

- **The event pipeline** (`src/events.rs`). `handle_load_robot` turns each
  `LoadRobot` into one asset load and one `RobotLoaded`. `handle_spawn_robot`
  either defers an unresolved handle with `WaitRobotLoaded` or instantiates the
  robot. `handle_wait_robot_loaded` turns each `WaitRobotLoaded` back into a
  `SpawnRobot`.
- **Instantiation**. The multibody template goes into the first physics
  context. Body handles are collected in link order. Then one parent entity is
  spawned, with one child per link that has a visual. Each child holds its own
  link's body handle.
- **Geometry extraction** (`extract_robot_geometry`, `src/plugin.rs`).
- **Frame sync** (`sync_robot_geometry`, `src/plugin.rs`). It overwrites the
  transform of every entity whose body handle resolves.

How the modules split:

- `Robot`, `Ecs`: the data.
  - The description store maps handles to loaded assets.
  - A rigid-body set is a sequence of poses indexed by body handle.
  - Insertion appends one body per template link and returns the new handles in link order.
  - The pose conversion `Ecs.Convert` stays symbolic. The same function is used at spawn and in sync.
- `MeshDir`: Rust's `String::replace("assets/", "")`.
- `Extract`: the extraction, as a specification function and a looping method.
- `Events`, `Spawn`: each handler's effect, written as functions over queues and a scene.
- `Pipeline`: the spawn→wait retry cycle, as rounds against a store that can change between rounds.
- `Sync`: the sync as a function, with its properties.
- `Systems`: class `World`. It holds the queues, the load log, the store, the
  body sets, the simulation contexts and the entities. Each system is a method
  whose `ensures` ties the new state to the functions above.

A panic is an outcome (`Spawn.Panic`). The state it carries is what the code
had done before it panicked.

## Behaviour as written

The model follows the code. These are points where the code's behaviour is easy to misread:

- `"assets/"` is deleted wherever it occurs in `mesh_dir`, not only as a leading prefix (`src/events.rs:183`).
  - The rewrite is not idempotent (`MeshDir.StripAssetsNotIdempotent`).
  - The loader setting keeps the unstripped string.
- The body-count assertion (`src/events.rs:92`) runs after the template was inserted into the physics context (`src/events.rs:71`).
  - A count mismatch therefore leaves the new bodies behind (`Spawn.MismatchPanicsAfterInsertion`).
  - The same holds for the index panic inside extraction.
- No shown system reads `RobotLoaded` and emits `SpawnRobot` (`src/plugin.rs:22-30`). `RobotLoaded` is an output only.
- The first simulation context is unwrapped for every event before the handle is resolved (`src/events.rs:61`). An unresolved spawn panics too when no simulation context exists.

## Model

| member | source | states |
|---|---|---|
| `MeshDir.StripAssets` | src/events.rs:183 | the rewritten mesh directory is never longer than the input |
| `MeshDir.StripAssetsIdentityIff` | src/events.rs:183 | the rewrite leaves a string unchanged exactly when it contains no "assets/"; otherwise the result is strictly shorter |
| `MeshDir.StripAssetsExample` | src/events.rs:183 | "assets/robots/meshes" becomes "robots/meshes" |
| `MeshDir.StripAssetsInterior` | src/events.rs:183 | an occurrence in the middle is deleted too: "robots/assets/meshes" becomes "robots/meshes" |
| `MeshDir.StripAssetsNotIdempotent` | src/events.rs:183 | deleting one occurrence can form a new one: "assassets/ets/" becomes "assets/", which becomes "" |
| `Events.Loaded` | src/events.rs:172-185 | one RobotLoaded per LoadRobot read, in read order; each has a handle not given before and the mesh directory with every "assets/" deleted |
| `Events.Requests` | src/events.rs:173-179 | one load per LoadRobot read, in read order, whose loader setting is the unstripped mesh directory |
| `Events.Forward` | src/events.rs:191-196 | one SpawnRobot per WaitRobotLoaded read, in order, with the same handle and mesh directory |
| `Events.Defer` | src/events.rs:159-162 | one WaitRobotLoaded per deferred spawn |
| `Events.ForwardDefer` | src/events.rs:191-196 | a deferred spawn returns from the wait handler as the identical SpawnRobot (round trip) |
| `Ecs.InsertMultibody` | src/events.rs:66-89 | insertion adds exactly one fresh body per template link, at that link's pose, and nothing else; the handles are distinct and in link order; existing bodies are untouched |
| `Ecs.Convert` | src/events.rs:130-147 | the one pose conversion that spawn and sync (src/plugin.rs:67-83) both call; `Sync.SpawnThenSyncUnchanged` states that the two uses agree |
| `Extract.EntryAt` | src/plugin.rs:40-54 | the entry for link i: index i; the first visual's geometry exactly when the link has a visual; the link's inertial origin; the template link's collider exactly when it has exactly one |
| `Extract.Extracted` | src/plugin.rs:38-57 | one entry per description link; entry k carries index k; it holds the first visual's geometry exactly when the link has a visual; it copies the inertial origin; it holds the collider exactly when the template link has exactly one |
| `Extract.ExtractRobotGeometry` | src/plugin.rs:35-58 | the push loop returns exactly the specified extraction (its precondition: the template has at least as many links as the description) |
| `Spawn.MeshFor` | src/events.rs:106-124 | cylinders and capsules fault with "unimplemented" and nothing else does; spheres keep their radius; a mesh file is named by the pair of the spawn's mesh directory and the file name, and the path join is not modelled; boxes become cuboids |
| `Spawn.BoxSizeRecovered` | src/events.rs:107-111 | a box's size is recovered from its cuboid as half of x, z and y: the axes are permuted and doubled |
| `Spawn.BoxExample` | src/events.rs:107-111 | the box [1, 2, 3] gives the cuboid (2, 6, 4) |
| `Spawn.WithGeometry` | src/events.rs:102-105 | the entries that get a child are exactly those with geometry; increasing link indices stay increasing |
| `Spawn.LinkedAreLinksWithVisuals` | src/events.rs:102-105 | the extracted entries that get a child are exactly those of links with a visual, in strictly increasing link order |
| `Spawn.ChildEntity` | src/events.rs:126-155 | a child is a link entity under the new parent, with its mesh and simulation context, holds the body handle of its own link, and shows its body's converted pose in any body set where that handle holds the link's pose |
| `Spawn.Children` | src/events.rs:101-157 | the children loop spawns at most one child per entry, and its only panic is the unimplemented-geometry one; `ChildrenFault`, `ChildrenMatchLinks` and `ChildrenAreLinks` state the rest |
| `Spawn.ChildrenFault` | src/events.rs:106-113 | the children loop panics exactly when some entry's geometry is a cylinder or capsule |
| `Spawn.ChildrenAreLinks` | src/events.rs:149-155 | every spawned child is a link entity under the new parent |
| `Spawn.ChildrenMatchLinks` | src/events.rs:101-157 | without a panic: one child per entry with geometry, in order; each holds `body_handles[index]` for its own link index, the converted pose of its template link, and its mesh |
| `Spawn.ChildrenFaultSticky` | src/events.rs:112-113 | once the children loop has panicked, later entries change nothing |
| `Spawn.ChildrenAtBodyPose` | src/events.rs:126-155 | every child shows the converted pose of the body its handle names |
| `Spawn.Instantiate` | src/events.rs:63-157 | a resolved spawn panics with "couldn't initialize handles" exactly when there is no physics context; it never touches the wait queue, never removes or rewrites an existing entity, and changes no body set but the first; `InstantiateSpawnsLinks`, `MismatchPanicsAfterInsertion` and `InstantiateFaultsOnUnimplemented` state its outcomes |
| `Spawn.SpawnOne` | src/events.rs:60-163 | one event keeps every existing entity in place, keeps the number of body sets, and adds at most the one WaitRobotLoaded for its own handle and mesh directory; `SpawnDefersIffUnresolved`, `SpawnWithoutSimulationPanics` and `NoPhysicsContextPanics` state its branches |
| `Spawn.SpawnWithoutSimulationPanics` | src/events.rs:61 | with no simulation context, every spawn panics and changes nothing, resolved or not |
| `Spawn.NoPhysicsContextPanics` | src/events.rs:80-82 | with a simulation context but no physics context, a resolved spawn panics with "couldn't initialize handles" and changes nothing |
| `Spawn.SpawnDefersIffUnresolved` | src/events.rs:158-163 | an unresolved spawn emits exactly one WaitRobotLoaded with the same handle and mesh directory, inserts no body and spawns no entity; a resolved spawn emits no WaitRobotLoaded |
| `Spawn.MismatchPanicsAfterInsertion` | src/events.rs:66-92 | a link-count mismatch panics after one body per template link was inserted, and before any entity is spawned |
| `Spawn.InstantiateSpawnsLinks` | src/events.rs:63-157 | a good resolved spawn inserts only into the first physics context and spawns one parent plus exactly one child per link with a visual; each child holds the new handle of its own link and the converted pose of that link, the pose that handle resolves to by `Ecs.InsertMultibody` |
| `Spawn.InstantiatedAtBodyPose` | src/events.rs:126-155 | every entity spawned at instantiation shows the converted pose of its body in the first physics context |
| `Spawn.InstantiateFaultsOnUnimplemented` | src/events.rs:112-113 | a cylinder or capsule as a link's first visual makes a resolved spawn panic rather than skip the link |
| `Spawn.InstantiateRootCount` | src/events.rs:94-100 | an instantiation adds at most one robot parent entity, and exactly one when it does not panic |
| `Spawn.SpawnAll` | src/events.rs:60-164 | the handler reads every event unless it panics; after a panic it stops reading; existing entities are never removed or rewritten |
| `Spawn.AllUnresolvedDefer` | src/events.rs:60-164 | when no read handle resolves, every spawn is deferred in order and bodies and entities are untouched |
| `Spawn.SpawnAllFaultSticky` | src/events.rs:60-81 | after a panic, later events are neither read nor applied |
| `Pipeline.Round` | src/events.rs:187-197 | after a panic a round changes nothing; a round that does not panic leaves no WaitRobotLoaded behind; existing entities stay in place; `RoundUnresolved` and `RetryInstantiatesOnce` state its outcomes |
| `Pipeline.Rounds` | src/events.rs:187-197 | any number of rounds keeps every existing entity in place and the number of body sets; `RoundsSplit` states how rounds compose |
| `Pipeline.RoundUnresolved` | src/events.rs:158-163 | one spawn→wait round over unresolved spawns gives back the same pending spawns and the same scene |
| `Pipeline.UnresolvedIsFixpoint` | src/events.rs:187-197 | spawns whose handles never resolve cycle forever without side effects |
| `Pipeline.IdleIsFixpoint` | src/events.rs:187-197 | with nothing pending, rounds change nothing |
| `Pipeline.FaultIsFixpoint` | src/events.rs:60-81 | after a panic, later rounds change nothing |
| `Pipeline.RoundsSplit` | src/events.rs:187-197 | the rounds compose: n rounds, one more round, then the rest |
| `Pipeline.RetryInstantiatesOnce` | src/events.rs:63-163 | a spawn unresolved for N rounds that then resolves is instantiated exactly once: the final scene is one instantiation of the initial scene, nothing is pending, and exactly one robot parent is added unless it panicked |
| `Sync.ApplySet` | src/plugin.rs:65-83 | one body set's pass: an entity whose handle resolves comes to show that body's converted pose, any other entity is unchanged, and handle and role are kept |
| `Sync.SyncEntity` | src/plugin.rs:64-85 | an entity after all passes keeps its handle and role, and shows its body's pose in the last set when that set resolves it; `SyncEntityIsLastPose` gives the full characterisation |
| `Sync.SyncAll` | src/plugin.rs:60-87 | sync keeps the entity table's length, each entity in place, and every handle and role; `SyncIdempotent` and `LastSetWins` state the rest |
| `Sync.LastPose` | src/plugin.rs:64-66 | a pose found comes from one of the body sets; `LastPoseNoneIff` and `LastPoseIsLast` say which |
| `Sync.SyncEntityIsLastPose` | src/plugin.rs:64-85 | sync sets the transform from the last body set that resolves the handle and otherwise leaves the entity as it is; it never changes a body handle |
| `Sync.LastPoseNoneIff` | src/plugin.rs:64-66 | there is no pose to use exactly when no body set resolves the handle |
| `Sync.LastPoseIsLast` | src/plugin.rs:64-66 | the pose used comes from the last body set that resolves the handle |
| `Sync.LastSetWins` | src/plugin.rs:64-83 | with several body sets, the last set that resolves the handle decides the transform |
| `Sync.UnresolvedUnchanged` | src/plugin.rs:64-66 | an entity whose handle resolves in no body set keeps its transform |
| `Sync.SyncIdempotent` | src/plugin.rs:60-87 | sync overwrites rather than accumulates: a second run on unchanged bodies gives the same table; handles and roles never change |
| `Sync.AtPoseUnchanged` | src/plugin.rs:66-83 | an entity already at its body's converted pose is left as it is |
| `Sync.SpawnThenSyncUnchanged` | src/events.rs:130-147 | spawn and sync share one conversion: right after a spawn of any asset into the only physics context, sync leaves every entity that spawn created unchanged |
| `Systems.World.LoadWithSettings` | src/events.rs:174-179 | each load is logged with its settings and gets the next handle |
| `Systems.World.HandleLoadRobot` | src/events.rs:167-186 | the reader is drained; loads and RobotLoaded events are appended as `Requests` and `Loaded` say; no SpawnRobot is written |
| `Systems.World.HandleWaitRobotLoaded` | src/events.rs:187-197 | the reader is drained and `Forward` of it is appended to the SpawnRobot queue |
| `Systems.World.SpawnChildren` | src/events.rs:101-157 | the children loop appends exactly `Children(...)` and reports its panic |
| `Systems.World.SpawnEvent` | src/events.rs:61-163 | one event changes bodies, entities and waits as `SpawnOne` says |
| `Systems.World.HandleSpawnRobot` | src/events.rs:43-165 | the scene, the panic and the unread events are those of `SpawnAll` |
| `Systems.World.SyncRobotGeometry` | src/plugin.rs:60-87 | the nested loops leave the entity table equal to `SyncAll` of the old table; no other state changes |

## Left out

- The f32 quaternion and vector arithmetic is not modelled. This covers `Quat::from_rotation_z(PI)`, `mul_vec3`, the quaternion product and the parent's half-turn about X. The conversion is the symbolic `Ecs.Convert`, and the parent transform is the constant `RobotBase`. No bit-exactness and no rigidity of the conversion is claimed.
- Ecs.Convert: the symbolic transform keeps every converted pose distinct from the parent's fixed transform and from every other converted pose. The f32 conversion does not guarantee either: a body rotated a half-turn about Y at the origin converts to the parent's half-turn about X.
- `f64 as f32` casts in box and sphere sizes: sizes are reals.
- Rapier's `insert_using_multibody_joints`, the solver and collision pipeline are foreign code. Insertion is abstracted as appending one body per template link at the link's pose.
  - Colliders, joints and the self-contact option are not modelled.
  - Body removal and generational handles are not modelled: a handle is an index.
- A physics context without a collider or joint set is not modelled: one list of body sets serves both spawn and sync.
- Asset loading is input/output:
  - a load's handle is the number of earlier loads, and Bevy's per-path handle reuse is not modelled;
  - the store is an input that may change between rounds.
- `meshes.add`, `asset_server.load` of mesh files, `Path::join`/`to_str` (and its `unwrap`), materials, `Name` and `InheritedVisibility` are library or renderer calls.
  - A mesh file is kept as the pair of mesh directory and file name.
  - The `RapierContextEntityLink` is kept as the simulation context's entity number.
- `Commands` are deferred in Bevy. Here an entity is recorded when its spawn is issued, and entity numbers are positions in the table.
- `Plugin::build`, system scheduling and Bevy's two-frame event buffering are framework wiring.
  - A pipeline round is one spawn pass followed by one wait pass.
  - Other interleavings are not modelled.
- The URDF parser and `urdf_asset_loader` are not part of this model. The asset is a given structure, and joints are not read.
- A panic ends the system run. What the app does after a panic is not modelled.
