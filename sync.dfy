/**
 * sync_robot_geometry: for every body set in turn and every entity holding a
 * body handle, overwrite the entity's transform with the converted pose of its
 * body when that set resolves the handle.
 */
module Sync {
  import opened Wrappers
  import opened Robot
  import opened Ecs
  import opened Spawn

  /**
   * One body set's pass over one entity: an entity whose handle the set resolves
   * comes to show that body's converted pose; any other entity is left as it is.
   * The handle and the role never change.
   */
  function ApplySet(e: Entity, bodies: BodySet): (r: Entity)
    ensures r.body == e.body && r.role == e.role
    ensures e.body.Some? && Get(bodies, e.body.value).Some? ==> AtBodyPose(r, bodies)
    ensures e.body.None? || Get(bodies, e.body.value).None? ==> r == e
  {
    if e.body.Some? && Get(bodies, e.body.value).Some? then e.(transform := Convert(Get(bodies, e.body.value).value))
    else e
  }

  /**
   * An entity after the passes of the body sets, in order: its handle and role
   * are kept, and it shows its body's pose in the last set when that set resolves it.
   */
  function SyncEntity(e: Entity, sets: seq<BodySet>): (r: Entity)
    ensures r.body == e.body && r.role == e.role
    ensures sets != [] && e.body.Some? && Get(sets[|sets| - 1], e.body.value).Some? ==> AtBodyPose(r, sets[|sets| - 1])
  {
    if sets == [] then e else ApplySet(SyncEntity(e, sets[..|sets| - 1]), sets[|sets| - 1])
  }

  /** The entity table after one run of the system: the same entities, in place, with their handles and roles. */
  function SyncAll(es: seq<Entity>, sets: seq<BodySet>): (r: seq<Entity>)
    ensures |r| == |es|
    ensures forall k :: 0 <= k < |es| ==> r[k].body == es[k].body && r[k].role == es[k].role
  {
    seq(|es|, k requires 0 <= k < |es| => SyncEntity(es[k], sets))
  }

  /** The pose of a handle in the last body set that resolves it. */
  function LastPose(sets: seq<BodySet>, h: BodyHandle): (r: Option<Pose>)
    ensures r.Some? ==> exists j :: 0 <= j < |sets| && Get(sets[j], h) == r
  {
    if sets == [] then None
    else if Get(sets[|sets| - 1], h).Some? then Get(sets[|sets| - 1], h)
    else LastPose(sets[..|sets| - 1], h)
  }

  /**
   * Sync sets the transform from the last resolving body set, and otherwise
   * leaves the entity as it is; it never changes a body handle or a role.
   */
  lemma {:induction false} SyncEntityIsLastPose(e: Entity, sets: seq<BodySet>)
    ensures SyncEntity(e, sets) ==
      if e.body.Some? && LastPose(sets, e.body.value).Some?
      then e.(transform := Convert(LastPose(sets, e.body.value).value))
      else e
  {
    if sets != [] {
      SyncEntityIsLastPose(e, sets[..|sets| - 1]);
    }
  }

  /** LastPose finds no pose exactly when no body set resolves the handle. */
  lemma {:induction false} LastPoseNoneIff(sets: seq<BodySet>, h: BodyHandle)
    ensures LastPose(sets, h).None? <==> forall j :: 0 <= j < |sets| ==> Get(sets[j], h).None?
  {
    if sets != [] {
      var n := |sets| - 1;
      var pre := sets[..n];
      LastPoseNoneIff(pre, h);
      assert forall j :: 0 <= j < n ==> pre[j] == sets[j];
      if Get(sets[n], h).None? {
        assert LastPose(sets, h) == LastPose(pre, h);
      }
    }
  }

  /** LastPose is the pose in the last body set that resolves the handle. */
  lemma {:induction false} LastPoseIsLast(sets: seq<BodySet>, h: BodyHandle, k: nat)
    requires k < |sets| && Get(sets[k], h).Some?
    requires forall j :: k < j < |sets| ==> Get(sets[j], h).None?
    ensures LastPose(sets, h) == Get(sets[k], h)
  {
    var n := |sets| - 1;
    if k < n {
      var pre := sets[..n];
      assert Get(sets[n], h).None?;
      assert LastPose(sets, h) == LastPose(pre, h);
      assert pre[k] == sets[k];
      assert forall j :: k < j < |pre| ==> pre[j] == sets[j];
      LastPoseIsLast(pre, h, k);
    }
  }

  /** With several body sets, the last set that resolves the handle decides the transform. */
  lemma LastSetWins(e: Entity, sets: seq<BodySet>, k: nat)
    requires e.body.Some? && k < |sets| && Get(sets[k], e.body.value).Some?
    requires forall j :: k < j < |sets| ==> Get(sets[j], e.body.value).None?
    ensures SyncEntity(e, sets) == e.(transform := Convert(Get(sets[k], e.body.value).value))
  {
    LastPoseIsLast(sets, e.body.value, k);
    SyncEntityIsLastPose(e, sets);
  }

  /** An entity whose handle resolves in no body set, or that has none, is left unchanged. */
  lemma UnresolvedUnchanged(e: Entity, sets: seq<BodySet>)
    requires e.body.Some? ==> forall j :: 0 <= j < |sets| ==> Get(sets[j], e.body.value).None?
    ensures SyncEntity(e, sets) == e
  {
    if e.body.Some? {
      LastPoseNoneIff(sets, e.body.value);
    }
    SyncEntityIsLastPose(e, sets);
  }

  /** Sync overwrites and never accumulates: a second run on the same bodies changes nothing. */
  lemma SyncIdempotent(es: seq<Entity>, sets: seq<BodySet>)
    ensures SyncAll(SyncAll(es, sets), sets) == SyncAll(es, sets)
    ensures forall k :: 0 <= k < |es| ==> SyncAll(es, sets)[k].body == es[k].body && SyncAll(es, sets)[k].role == es[k].role
  {
    forall k | 0 <= k < |es|
      ensures SyncEntity(SyncEntity(es[k], sets), sets) == SyncEntity(es[k], sets)
      ensures SyncEntity(es[k], sets).body == es[k].body && SyncEntity(es[k], sets).role == es[k].role
    {
      SyncEntityIsLastPose(es[k], sets);
      SyncEntityIsLastPose(SyncEntity(es[k], sets), sets);
    }
  }

  /** An entity already at the converted pose of its body in the only body set is left as it is. */
  lemma AtPoseUnchanged(e: Entity, bodies: BodySet)
    requires AtBodyPose(e, bodies)
    ensures SyncEntity(e, [bodies]) == e
  {
    assert [bodies][..0] == [];
  }

  /**
   * Spawn and sync share one conversion: right after a spawn into the only
   * physics context, syncing leaves every entity that spawn created as it was.
   */
  lemma SpawnThenSyncUnchanged(sc: Scene, a: UrdfAsset, meshDir: string, sim: nat)
    requires |sc.bodySets| == 1
    ensures var s := Instantiate(sc, a, meshDir, sim);
      forall j :: |sc.entities| <= j < |s.scene.entities| ==>
        SyncEntity(s.scene.entities[j], s.scene.bodySets) == s.scene.entities[j]
  {
    var s := Instantiate(sc, a, meshDir, sim);
    if |a.urdfRobot.links| != |a.robot.links| {
      MismatchPanicsAfterInsertion(sc, a, meshDir, sim);
    } else {
      InstantiatedAtBodyPose(sc, a, meshDir, sim);
      var bodies := s.scene.bodySets[0];
      assert s.scene.bodySets == [bodies];
      forall j | |sc.entities| <= j < |s.scene.entities|
        ensures SyncEntity(s.scene.entities[j], [bodies]) == s.scene.entities[j]
      {
        AtPoseUnchanged(s.scene.entities[j], bodies);
      }
    }
  }
}
