/**
 * The physics and renderer state the systems touch: rigid-body sets addressed by
 * body handles, multibody insertion (a foreign call, abstracted), renderer
 * transforms and the entities spawned for robots.
 */
module Ecs {
  import opened Wrappers
  import opened Robot

  /** A rigid-body handle: an index into one rigid-body set. */
  datatype BodyHandle = BodyHandle(index: nat)

  /** A rigid-body set: the current pose of body number k at position k. */
  type BodySet = seq<Pose>

  /** Looking a handle up in a body set, as `bodies.get(handle)`. */
  function Get(bodies: BodySet, h: BodyHandle): Option<Pose>
  {
    if h.index < |bodies| then Some(bodies[h.index]) else None
  }

  datatype Inserted = Inserted(bodies: BodySet, handles: seq<BodyHandle>)

  /**
   * Inserting a multibody template into a body set: one new body per template
   * link, placed at that link's pose, and the new handles in link order.
   * Bodies already in the set keep their handles and poses.
   */
  function InsertMultibody(bodies: BodySet, robot: RapierRobot): (r: Inserted)
    ensures |r.handles| == |robot.links|
    ensures |r.bodies| == |bodies| + |robot.links|
    ensures forall k :: 0 <= k < |robot.links| ==>
      Get(bodies, r.handles[k]).None? && Get(r.bodies, r.handles[k]) == Some(robot.links[k].bodyPose)
    ensures forall k, l :: 0 <= k < l < |r.handles| ==> r.handles[k] != r.handles[l]
    ensures forall h :: Get(bodies, h).Some? ==> Get(r.bodies, h) == Get(bodies, h)
  {
    var n := |robot.links|;
    Inserted(bodies + seq(n, k requires 0 <= k < n => robot.links[k].bodyPose),
             seq(n, k requires 0 <= k < n => BodyHandle(|bodies| + k)))
  }

  /** The renderer's mesh handle for a link, by how it was made. */
  datatype Mesh3d =
    | Cuboid(x: real, y: real, z: real)
    | SphereMesh(radius: real)
    | MeshFile(meshDir: string, filename: string)

  /**
   * A renderer transform. The conversion of a physics pose is kept symbolic:
   * FromPhysics(p) stands for the transform obtained from p by the fixed
   * half-turn about the renderer's Z axis.
   */
  datatype Transform =
    | RobotBase
    | FromPhysics(pose: Pose)

  /**
   * The one pose conversion used both at spawn time and by frame sync; a body
   * pose never yields the parent entity's fixed transform.
   */
  function Convert(p: Pose): (t: Transform)
    ensures t != RobotBase
  {
    FromPhysics(p)
  }

  /** What an entity is: a robot's parent entity, one of its link entities, or anything else. */
  datatype Role =
    | Other
    | RobotRoot
    | RobotLink(parent: nat, mesh: Mesh3d, context: nat)

  /**
   * An entity as far as the systems see it: its Transform, its
   * UrdfRobotRigidBodyHandle component if any, and its role.
   */
  datatype Entity = Entity(transform: Transform, body: Option<BodyHandle>, role: Role)

  /** An entity with a body handle shows the converted pose of that body in `bodies`. */
  predicate AtBodyPose(e: Entity, bodies: BodySet)
  {
    e.body.Some? ==> Get(bodies, e.body.value).Some? && e.transform == Convert(Get(bodies, e.body.value).value)
  }

  /** `es2` keeps every entity of `es` at its place and may add more after them. */
  predicate Extends(es2: seq<Entity>, es: seq<Entity>)
  {
    |es| <= |es2| && es2[..|es|] == es
  }

  lemma ExtendsTrans(es3: seq<Entity>, es2: seq<Entity>, es: seq<Entity>)
    requires Extends(es3, es2) && Extends(es2, es)
    ensures Extends(es3, es)
  {
    assert es3[..|es|] == es3[..|es2|][..|es|];
  }

  /** The number of robot parent entities in an entity table. */
  function RootCount(es: seq<Entity>): nat
  {
    if es == [] then 0
    else RootCount(es[..|es| - 1]) + (if es[|es| - 1].role.RobotRoot? then 1 else 0)
  }

  lemma {:induction false} RootCountAppend(a: seq<Entity>, b: seq<Entity>)
    ensures RootCount(a + b) == RootCount(a) + RootCount(b)
    decreases |b|
  {
    if b != [] {
      assert (a + b)[..|a + b| - 1] == a + b[..|b| - 1];
      RootCountAppend(a, b[..|b| - 1]);
    } else {
      assert a + b == a;
    }
  }

  /** The root count of entities none of which is a robot root. */
  lemma {:induction false} RootCountNoRoots(es: seq<Entity>)
    requires forall k :: 0 <= k < |es| ==> !es[k].role.RobotRoot?
    ensures RootCount(es) == 0
    decreases |es|
  {
    if es != [] {
      RootCountNoRoots(es[..|es| - 1]);
    }
  }
}
