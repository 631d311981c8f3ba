/**
 * The four event records of the load/spawn pipeline and the per-event outputs
 * of handle_load_robot and handle_wait_robot_loaded.
 */
module Events {
  import opened Wrappers
  import opened Robot
  import opened MeshDir

  /** A request to load a URDF file, with the directory its meshes are resolved against. */
  datatype LoadRobot = LoadRobot(urdfPath: string, meshDir: string)

  /** Emitted once per load request; nothing in the modelled systems reads it. */
  datatype RobotLoaded = RobotLoaded(handle: Handle, meshDir: string)

  /** A request to instantiate the robot behind a handle. */
  datatype SpawnRobot = SpawnRobot(handle: Handle, meshDir: string)

  /** A spawn deferred because its handle did not resolve yet. */
  datatype WaitRobotLoaded = WaitRobotLoaded(handle: Handle, meshDir: string)

  /** A load issued to the asset server, with the loader setting `mesh_dir`. */
  datatype LoadRequest = LoadRequest(path: string, meshDir: Option<string>)

  /**
   * The RobotLoaded events handle_load_robot writes for the reads `evs` when
   * `issued` loads were issued before: one per read, in read order, each with a
   * handle not given before and the mesh directory with "assets/" deleted.
   */
  function Loaded(evs: seq<LoadRobot>, issued: nat): (r: seq<RobotLoaded>)
    ensures |r| == |evs|
    ensures forall i :: 0 <= i < |evs| ==>
      r[i].handle == Handle(issued + i) && r[i].meshDir == StripAssets(evs[i].meshDir)
  {
    if evs == [] then []
    else
      var n := |evs| - 1;
      Loaded(evs[..n], issued) + [RobotLoaded(Handle(issued + n), StripAssets(evs[n].meshDir))]
  }

  /**
   * The loads handle_load_robot issues for the reads `evs`: one per read, in read
   * order, with the unstripped mesh directory as the loader setting.
   */
  function Requests(evs: seq<LoadRobot>): (r: seq<LoadRequest>)
    ensures |r| == |evs|
    ensures forall i :: 0 <= i < |evs| ==> r[i] == LoadRequest(evs[i].urdfPath, Some(evs[i].meshDir))
  {
    if evs == [] then []
    else
      var n := |evs| - 1;
      Requests(evs[..n]) + [LoadRequest(evs[n].urdfPath, Some(evs[n].meshDir))]
  }

  /**
   * The SpawnRobot events handle_wait_robot_loaded writes for the reads `ws`:
   * one per read, in read order, with the same handle and mesh directory.
   */
  function Forward(ws: seq<WaitRobotLoaded>): (r: seq<SpawnRobot>)
    ensures |r| == |ws|
    ensures forall i :: 0 <= i < |ws| ==> r[i].handle == ws[i].handle && r[i].meshDir == ws[i].meshDir
  {
    if ws == [] then []
    else
      var n := |ws| - 1;
      Forward(ws[..n]) + [SpawnRobot(ws[n].handle, ws[n].meshDir)]
  }

  /** Reading one more LoadRobot adds one RobotLoaded, with the next handle. */
  lemma LoadedStep(evs: seq<LoadRobot>, i: nat, issued: nat)
    requires i < |evs|
    ensures Loaded(evs[..i + 1], issued) == Loaded(evs[..i], issued) + [RobotLoaded(Handle(issued + i), StripAssets(evs[i].meshDir))]
  {
    assert evs[..i + 1][..i] == evs[..i];
  }

  /** Reading one more LoadRobot issues one more load. */
  lemma RequestsStep(evs: seq<LoadRobot>, i: nat)
    requires i < |evs|
    ensures Requests(evs[..i + 1]) == Requests(evs[..i]) + [LoadRequest(evs[i].urdfPath, Some(evs[i].meshDir))]
  {
    assert evs[..i + 1][..i] == evs[..i];
  }

  /** Reading one more WaitRobotLoaded forwards one more SpawnRobot. */
  lemma ForwardStep(ws: seq<WaitRobotLoaded>, i: nat)
    requires i < |ws|
    ensures Forward(ws[..i + 1]) == Forward(ws[..i]) + [SpawnRobot(ws[i].handle, ws[i].meshDir)]
  {
    assert ws[..i + 1][..i] == ws[..i];
  }

  /** The WaitRobotLoaded events for spawns that are deferred, in order. */
  function Defer(ss: seq<SpawnRobot>): (r: seq<WaitRobotLoaded>)
    ensures |r| == |ss|
  {
    if ss == [] then []
    else
      var n := |ss| - 1;
      Defer(ss[..n]) + [WaitRobotLoaded(ss[n].handle, ss[n].meshDir)]
  }

  /** A deferred spawn comes back from the wait handler as the very same spawn. */
  lemma {:induction false} ForwardDefer(ss: seq<SpawnRobot>)
    ensures Forward(Defer(ss)) == ss
  {
    var ws := Defer(ss);
    if ss != [] {
      var n := |ss| - 1;
      assert ws[..n] == Defer(ss[..n]);
      ForwardDefer(ss[..n]);
      assert ss == ss[..n] + [ss[n]];
    }
  }
}
