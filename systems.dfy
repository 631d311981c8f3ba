/**
 * The plugin's systems as methods over one mutable world: the event queues
 * (unread events only), the asset server's load log and description store, the
 * physics contexts' rigid-body sets, the simulation contexts, and the entities.
 * Each method is proved against the functions that specify it.
 */
module Systems {
  import opened Wrappers
  import opened Robot
  import opened Ecs
  import opened Extract
  import opened MeshDir
  import opened Events
  import opened Spawn
  import opened Sync

  class World {
    var loadRobot: seq<LoadRobot>
    var robotLoaded: seq<RobotLoaded>
    var spawnRobot: seq<SpawnRobot>
    var waitRobotLoaded: seq<WaitRobotLoaded>
    /** Every load issued to the asset server, in order; the k-th one got Handle(k). */
    var loadRequests: seq<LoadRequest>
    /** The loaded assets: a handle absent here does not resolve yet. */
    var store: map<Handle, UrdfAsset>
    /** The rigid-body set of each physics context, in query order. */
    var bodySets: seq<BodySet>
    /** The entities holding a simulation context, in query order. */
    var simulations: seq<nat>
    var entities: seq<Entity>

    constructor (store: map<Handle, UrdfAsset>, bodySets: seq<BodySet>, simulations: seq<nat>, entities: seq<Entity>)
      ensures this.store == store && this.bodySets == bodySets
      ensures this.simulations == simulations && this.entities == entities
      ensures loadRobot == [] && robotLoaded == [] && spawnRobot == [] && waitRobotLoaded == []
      ensures loadRequests == []
    {
      this.store := store;
      this.bodySets := bodySets;
      this.simulations := simulations;
      this.entities := entities;
      loadRobot, robotLoaded, spawnRobot, waitRobotLoaded := [], [], [], [];
      loadRequests := [];
    }

    /** The part of the world handle_spawn_robot changes. */
    function SceneView(): Scene
      reads this
    {
      Scene(bodySets, entities, waitRobotLoaded)
    }

    /** The asset server's load_with_settings: log the load and hand out a new handle. */
    method LoadWithSettings(path: string, meshDir: Option<string>) returns (h: Handle)
      modifies this`loadRequests
      ensures loadRequests == old(loadRequests) + [LoadRequest(path, meshDir)]
      ensures h == Handle(|old(loadRequests)|)
    {
      h := Handle(|loadRequests|);
      loadRequests := loadRequests + [LoadRequest(path, meshDir)];
    }

    /** handle_load_robot: one load and one RobotLoaded per LoadRobot read, no SpawnRobot. */
    method HandleLoadRobot()
      modifies this`loadRobot, this`robotLoaded, this`loadRequests
      ensures loadRobot == []
      ensures loadRequests == old(loadRequests) + Requests(old(loadRobot))
      ensures robotLoaded == old(robotLoaded) + Loaded(old(loadRobot), |old(loadRequests)|)
    {
      var events := loadRobot;
      ghost var issued := |loadRequests|;
      var i := 0;
      while i < |events|
        invariant 0 <= i <= |events|
        invariant loadRobot == events[i..]
        invariant loadRequests == old(loadRequests) + Requests(events[..i])
        invariant robotLoaded == old(robotLoaded) + Loaded(events[..i], issued)
      {
        var event := events[i];
        RequestsStep(events, i);
        LoadedStep(events, i, issued);
        var handle := LoadWithSettings(event.urdfPath, Some(event.meshDir));
        robotLoaded := robotLoaded + [RobotLoaded(handle, StripAssets(event.meshDir))];
        loadRobot := events[i + 1..];
        i := i + 1;
      }
      assert events[..i] == events;
    }

    /** handle_wait_robot_loaded: one SpawnRobot per WaitRobotLoaded read. */
    method HandleWaitRobotLoaded()
      modifies this`waitRobotLoaded, this`spawnRobot
      ensures waitRobotLoaded == []
      ensures spawnRobot == old(spawnRobot) + Forward(old(waitRobotLoaded))
    {
      var events := waitRobotLoaded;
      var i := 0;
      while i < |events|
        invariant 0 <= i <= |events|
        invariant waitRobotLoaded == events[i..]
        invariant spawnRobot == old(spawnRobot) + Forward(events[..i])
      {
        var event := events[i];
        ForwardStep(events, i);
        spawnRobot := spawnRobot + [SpawnRobot(event.handle, event.meshDir)];
        waitRobotLoaded := events[i + 1..];
        i := i + 1;
      }
      assert events[..i] == events;
    }

    /** The children loop of one instantiation. */
    method SpawnChildren(geoms: seq<GeomEntry>, cx: Context) returns (fault: Option<Panic>)
      requires Fits(geoms, cx)
      modifies this`entities
      ensures entities == old(entities) + Children(geoms, cx).children
      ensures fault == Children(geoms, cx).fault
    {
      fault := None;
      var j := 0;
      while j < |geoms| && fault.None?
        invariant 0 <= j <= |geoms|
        invariant Fits(geoms[..j], cx)
        invariant entities == old(entities) + Children(geoms[..j], cx).children
        invariant fault == Children(geoms[..j], cx).fault
      {
        var entry := geoms[j];
        assert geoms[..j + 1][..j] == geoms[..j];
        if entry.geometry.Some? {
          match MeshFor(entry.geometry.value, cx.meshDir)
          case Err(p) =>
            fault := Some(p);
          case Ok(mesh) =>
            entities := entities + [ChildEntity(entry, mesh, cx)];
        }
        j := j + 1;
      }
      if fault.Some? {
        ChildrenFaultSticky(geoms, cx, j);
      } else {
        assert geoms[..j] == geoms;
      }
    }

    /** handle_spawn_robot on one event. */
    method SpawnEvent(event: SpawnRobot) returns (fault: Option<Panic>)
      modifies this`bodySets, this`entities, this`waitRobotLoaded
      ensures Step(SceneView(), fault) == SpawnOne(old(SceneView()), event, store, simulations)
    {
      if simulations == [] {
        return Some(NoSimulationContext);
      }
      var simulation := simulations[0];
      if event.handle !in store {
        waitRobotLoaded := waitRobotLoaded + [WaitRobotLoaded(event.handle, event.meshDir)];
        return None;
      }
      var urdf := store[event.handle];
      // The context loop stops after inserting into the first physics context.
      if bodySets == [] {
        return Some(NoPhysicsContext);
      }
      var inserted := InsertMultibody(bodySets[0], urdf.urdfRobot);
      bodySets := bodySets[0 := inserted.bodies];
      var bodyHandles := inserted.handles;
      if !Indexable(urdf) {
        return Some(LinkIndexOutOfBounds);
      }
      var geoms := ExtractRobotGeometry(urdf);
      if |bodyHandles| != |geoms| {
        return Some(BodyCountMismatch);
      }
      var rootId := |entities|;
      entities := entities + [ROOT];
      var cx := Context(urdf.urdfRobot, bodyHandles, rootId, simulation, event.meshDir);
      fault := SpawnChildren(geoms, cx);
    }

    /** handle_spawn_robot: every SpawnRobot read in order, until a panic. */
    method HandleSpawnRobot() returns (fault: Option<Panic>)
      modifies this`spawnRobot, this`bodySets, this`entities, this`waitRobotLoaded
      ensures var r := SpawnAll(old(SceneView()), old(spawnRobot), store, simulations);
        && SceneView() == r.scene
        && fault == r.fault
        && spawnRobot == old(spawnRobot)[r.read..]
    {
      var events := spawnRobot;
      ghost var start := SceneView();
      fault := None;
      var i := 0;
      while i < |events| && fault.None?
        invariant 0 <= i <= |events|
        invariant spawnRobot == events[i..]
        invariant var r := SpawnAll(start, events[..i], store, simulations);
          SceneView() == r.scene && fault == r.fault && r.read == i
      {
        var event := events[i];
        spawnRobot := events[i + 1..];
        assert events[..i + 1][..i] == events[..i];
        fault := SpawnEvent(event);
        i := i + 1;
      }
      if fault.None? {
        assert events[..i] == events;
      } else {
        SpawnAllFaultSticky(start, events, store, simulations, i);
      }
    }

    /** sync_robot_geometry: every body set in turn, every entity with a body handle. */
    method SyncRobotGeometry()
      modifies this`entities
      ensures entities == SyncAll(old(entities), bodySets)
    {
      var s := 0;
      while s < |bodySets|
        invariant 0 <= s <= |bodySets|
        invariant |entities| == |old(entities)|
        invariant forall k :: 0 <= k < |entities| ==> entities[k] == SyncEntity(old(entities)[k], bodySets[..s])
      {
        var bodies := bodySets[s];
        assert bodySets[..s + 1][..s] == bodySets[..s];
        var i := 0;
        while i < |entities|
          invariant 0 <= i <= |entities| == |old(entities)|
          invariant forall k :: 0 <= k < i ==> entities[k] == SyncEntity(old(entities)[k], bodySets[..s + 1])
          invariant forall k :: i <= k < |entities| ==> entities[k] == SyncEntity(old(entities)[k], bodySets[..s])
        {
          var entity := entities[i];
          if entity.body.Some? {
            var pose := Get(bodies, entity.body.value);
            if pose.Some? {
              entities := entities[i := entity.(transform := Convert(pose.value))];
            }
          }
          i := i + 1;
        }
        s := s + 1;
      }
      assert bodySets[..s] == bodySets;
    }
  }
}
