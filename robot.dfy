/**
 * The loaded robot asset (src/urdf_asset_loader.rs is not part of this model):
 * the parsed URDF description and the physics-ready multibody template built from
 * it, both taken as given structures. Link index i of the description, of the
 * template and of the physics bodies inserted from it denote the same link.
 */
module Robot {
  import opened Wrappers

  /** Three coordinates (f64 in the URDF, f32 in the physics engine; both as reals here). */
  datatype Vec3 = Vec3(x: real, y: real, z: real)

  /** A rotation quaternion with its components in rapier's (i, j, k, w) order. */
  datatype Quat = Quat(i: real, j: real, k: real, w: real)

  /** A rigid pose in the physics engine's convention: translation and rotation. */
  datatype Pose = Pose(translation: Vec3, rotation: Quat)

  /** A URDF origin element: position and roll-pitch-yaw. */
  datatype Origin = Origin(xyz: Vec3, rpy: Vec3)

  /** The URDF geometry kinds. */
  datatype Geometry =
    | Box(size: Vec3)
    | Cylinder(radius: real, length: real)
    | Capsule(radius: real, length: real)
    | Sphere(radius: real)
    | Mesh(filename: string, scale: Option<Vec3>)

  datatype Visual = Visual(geometry: Geometry)

  /** A URDF link: its visual elements (possibly none) and its inertial origin. */
  datatype Link = Link(visual: seq<Visual>, inertialOrigin: Origin)

  /** The parsed robot description; joints are not read by the modelled code. */
  datatype Description = Description(links: seq<Link>)

  /** An opaque collision shape of the physics template. */
  datatype Collider = Collider(id: nat)

  /** One link of the physics template: its rigid body's pose and its colliders. */
  datatype RapierLink = RapierLink(bodyPose: Pose, colliders: seq<Collider>)

  /** The physics-ready multibody template built from the description. */
  datatype RapierRobot = RapierRobot(links: seq<RapierLink>)

  /** The asset behind a load handle once the loader has finished. */
  datatype UrdfAsset = UrdfAsset(robot: Description, urdfRobot: RapierRobot)

  /** An opaque asset handle. */
  datatype Handle = Handle(id: nat)
}
