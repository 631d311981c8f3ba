/** extract_robot_geometry: the per-link view of a loaded robot used at spawn time. */
module Extract {
  import opened Wrappers
  import opened Robot

  /** One result entry: link index, first visual geometry, inertial origin, sole collider. */
  datatype GeomEntry = GeomEntry(index: nat, geometry: Option<Geometry>, inertialOrigin: Origin, collider: Option<Collider>)

  /** The source indexes the template by every description index, so it needs at least as many links. */
  predicate Indexable(a: UrdfAsset)
  {
    |a.robot.links| <= |a.urdfRobot.links|
  }

  /**
   * The entry pushed for link i: it carries index i, the geometry of the link's
   * first visual exactly when the link has a visual, the link's inertial origin,
   * and the template link's collider exactly when that link has exactly one.
   */
  function EntryAt(a: UrdfAsset, i: nat): (r: GeomEntry)
    requires i < |a.robot.links| && Indexable(a)
    ensures r.index == i
    ensures r.geometry.Some? <==> a.robot.links[i].visual != []
    ensures r.geometry.Some? ==> r.geometry.value == a.robot.links[i].visual[0].geometry
    ensures r.inertialOrigin == a.robot.links[i].inertialOrigin
    ensures r.collider.Some? <==> |a.urdfRobot.links[i].colliders| == 1
    ensures r.collider.Some? ==> r.collider.value == a.urdfRobot.links[i].colliders[0]
  {
    var link := a.robot.links[i];
    var colliders := a.urdfRobot.links[i].colliders;
    GeomEntry(i,
              if link.visual != [] then Some(link.visual[0].geometry) else None,
              link.inertialOrigin,
              if |colliders| == 1 then Some(colliders[0]) else None)
  }

  /**
   * The entries for the first n links, in index order. Entry k carries index k,
   * the geometry of the first visual exactly when the link has one, the inertial
   * origin unchanged, and a collider exactly when the template link has exactly one.
   */
  function Extracted(a: UrdfAsset, n: nat): (r: seq<GeomEntry>)
    requires n <= |a.robot.links| && Indexable(a)
    ensures |r| == n
    ensures forall k :: 0 <= k < n ==>
      && r[k].index == k
      && (r[k].geometry.Some? <==> a.robot.links[k].visual != [])
      && (r[k].geometry.Some? ==> r[k].geometry.value == a.robot.links[k].visual[0].geometry)
      && r[k].inertialOrigin == a.robot.links[k].inertialOrigin
      && (r[k].collider.Some? <==> |a.urdfRobot.links[k].colliders| == 1)
      && (r[k].collider.Some? ==> r[k].collider.value == a.urdfRobot.links[k].colliders[0])
  {
    if n == 0 then [] else Extracted(a, n - 1) + [EntryAt(a, n - 1)]
  }

  /** The whole result of extract_robot_geometry. */
  function Extraction(a: UrdfAsset): seq<GeomEntry>
    requires Indexable(a)
  {
    Extracted(a, |a.robot.links|)
  }

  /** The extraction loop: one entry pushed per description link. */
  method ExtractRobotGeometry(a: UrdfAsset) returns (result: seq<GeomEntry>)
    requires Indexable(a)
    ensures result == Extraction(a)
  {
    result := [];
    var i := 0;
    while i < |a.robot.links|
      invariant i <= |a.robot.links|
      invariant result == Extracted(a, i)
    {
      var colliders := a.urdfRobot.links[i].colliders;
      var collider := if |colliders| == 1 then Some(colliders[0]) else None;
      var link := a.robot.links[i];
      var geometry := if link.visual != [] then Some(link.visual[0].geometry) else None;
      result := result + [GeomEntry(i, geometry, link.inertialOrigin, collider)];
      i := i + 1;
    }
  }
}
