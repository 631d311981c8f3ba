/**
 * handle_spawn_robot for one event: defer an unresolved handle, or insert the
 * multibody template into the first physics context and spawn one parent entity
 * with one child per link that has visual geometry. Panics are outcomes, with the
 * state as the code left it when it panicked.
 */
module Spawn {
  import opened Wrappers
  import opened Robot
  import opened Ecs
  import opened Extract
  import opened Events

  /** The ways handle_spawn_robot panics. */
  datatype Panic =
    | NoSimulationContext               // unwrap of the first simulation context
    | NoPhysicsContext                  // "couldn't initialize handles"
    | LinkIndexOutOfBounds              // template indexed past its end during extraction
    | BodyCountMismatch                 // body handle count differs from the geometry count
    | Unimplemented(geometry: Geometry) // todo!() for cylinders and capsules

  /** What the systems of one tick see and change besides the event queues they read. */
  datatype Scene = Scene(bodySets: seq<BodySet>, entities: seq<Entity>, waits: seq<WaitRobotLoaded>)

  /** A scene after one event, and the panic that stopped it, if any. */
  datatype Step = Step(scene: Scene, fault: Option<Panic>)

  predicate Implemented(g: Geometry)
  {
    !g.Cylinder? && !g.Capsule?
  }

  /**
   * The renderer mesh for a link geometry: boxes become cuboids with their axes
   * permuted and sizes doubled, spheres keep their radius, mesh files are taken
   * from the spawn's mesh directory (their scale is ignored), and cylinders and
   * capsules panic.
   */
  function MeshFor(g: Geometry, meshDir: string): (r: Result<Mesh3d, Panic>)
    ensures r.Err? <==> !Implemented(g)
    ensures r.Err? ==> r.error == Unimplemented(g)
    ensures g.Sphere? ==> r == Ok(SphereMesh(g.radius))
    ensures g.Mesh? ==> r == Ok(MeshFile(meshDir, g.filename))
    ensures g.Box? ==> r.Ok? && r.value.Cuboid?
  {
    match g
    case Box(size) => Ok(Cuboid(size.x * 2.0, size.z * 2.0, size.y * 2.0))
    case Cylinder(_, _) => Err(Unimplemented(g))
    case Capsule(_, _) => Err(Unimplemented(g))
    case Sphere(radius) => Ok(SphereMesh(radius))
    case Mesh(filename, _) => Ok(MeshFile(meshDir, filename))
  }

  /** A box's URDF size is recovered from its cuboid: half of x, z and y, in that order. */
  lemma BoxSizeRecovered(size: Vec3, meshDir: string)
    ensures var c := MeshFor(Box(size), meshDir).value;
      size == Vec3(c.x / 2.0, c.z / 2.0, c.y / 2.0)
  {
  }

  /** The box [1, 2, 3] becomes the cuboid (2, 6, 4). */
  lemma BoxExample(meshDir: string)
    ensures MeshFor(Box(Vec3(1.0, 2.0, 3.0)), meshDir) == Ok(Cuboid(2.0, 6.0, 4.0))
  {
  }

  /** Everything a child entity is built from besides its own entry and mesh. */
  datatype Context = Context(urdfRobot: RapierRobot, handles: seq<BodyHandle>, rootId: nat, sim: nat, meshDir: string)

  /** Every entry indexes both the template and the body handles. */
  predicate Fits(gs: seq<GeomEntry>, cx: Context)
  {
    forall k :: 0 <= k < |gs| ==> gs[k].index < |cx.urdfRobot.links| && gs[k].index < |cx.handles|
  }

  /** The robot's parent entity: the fixed half-turn about X, no body. */
  const ROOT: Entity := Entity(RobotBase, None, RobotRoot)

  /**
   * The child for a geometry entry: its mesh, the handle of its own link's body,
   * a link to the simulation context, and the converted pose of its template link.
   */
  function ChildEntity(e: GeomEntry, m: Mesh3d, cx: Context): (r: Entity)
    requires e.index < |cx.urdfRobot.links| && e.index < |cx.handles|
    ensures r.role.RobotLink? && r.role.parent == cx.rootId && r.role.mesh == m && r.role.context == cx.sim
    ensures r.body == Some(cx.handles[e.index])
    ensures forall bodies :: Get(bodies, cx.handles[e.index]) == Some(cx.urdfRobot.links[e.index].bodyPose) ==>
      AtBodyPose(r, bodies)
  {
    Entity(Convert(cx.urdfRobot.links[e.index].bodyPose), Some(cx.handles[e.index]),
           RobotLink(cx.rootId, m, cx.sim))
  }

  /** The entries that have a geometry, in their original order. */
  function WithGeometry(gs: seq<GeomEntry>): (r: seq<GeomEntry>)
    ensures |r| <= |gs|
    ensures forall e :: e in r <==> e in gs && e.geometry.Some?
    ensures (forall k, l :: 0 <= k < l < |gs| ==> gs[k].index < gs[l].index) ==>
      forall k, l :: 0 <= k < l < |r| ==> r[k].index < r[l].index
  {
    if gs == [] then []
    else
      var n := |gs| - 1;
      WithGeometry(gs[..n]) + if gs[n].geometry.Some? then [gs[n]] else []
  }

  /** The children spawned for the entries `gs`, and the panic that cut them short, if any. */
  datatype Spawned = Spawned(children: seq<Entity>, fault: Option<Panic>)

  /** The children loop: skip entries without geometry, stop at the first unimplemented one. */
  function Children(gs: seq<GeomEntry>, cx: Context): (r: Spawned)
    requires Fits(gs, cx)
    ensures |r.children| <= |gs|
    ensures r.fault.Some? ==> r.fault.value.Unimplemented?
  {
    if gs == [] then Spawned([], None)
    else
      var n := |gs| - 1;
      var pre := Children(gs[..n], cx);
      var e := gs[n];
      if pre.fault.Some? || e.geometry.None? then pre
      else match MeshFor(e.geometry.value, cx.meshDir)
        case Err(p) => Spawned(pre.children, Some(p))
        case Ok(m) => Spawned(pre.children + [ChildEntity(e, m, cx)], None)
  }

  /** No geometry entry in `gs` is a cylinder or capsule. */
  predicate AllImplemented(gs: seq<GeomEntry>)
  {
    forall k :: 0 <= k < |gs| && gs[k].geometry.Some? ==> Implemented(gs[k].geometry.value)
  }

  /** The children loop panics exactly when some entry's geometry is a cylinder or capsule. */
  lemma {:induction false} ChildrenFault(gs: seq<GeomEntry>, cx: Context)
    requires Fits(gs, cx)
    ensures var r := Children(gs, cx);
      && (r.fault.None? <==> AllImplemented(gs))
      && (r.fault.Some? ==> r.fault.value.Unimplemented?)
  {
    if gs != [] {
      var n := |gs| - 1;
      var pre := gs[..n];
      ChildrenFault(pre, cx);
      assert forall k :: 0 <= k < n ==> pre[k] == gs[k];
      assert AllImplemented(gs) <==> AllImplemented(pre) && (gs[n].geometry.Some? ==> Implemented(gs[n].geometry.value));
    }
  }

  /** Every entity of `es` is a link entity under the parent entity `root`. */
  predicate LinksUnder(es: seq<Entity>, root: nat)
  {
    forall j :: 0 <= j < |es| ==> es[j].role.RobotLink? && es[j].role.parent == root
  }

  /** Every spawned child is a link entity under the new parent entity. */
  lemma {:induction false} ChildrenAreLinks(gs: seq<GeomEntry>, cx: Context)
    requires Fits(gs, cx)
    ensures LinksUnder(Children(gs, cx).children, cx.rootId)
  {
    if gs != [] {
      var n := |gs| - 1;
      ChildrenAreLinks(gs[..n], cx);
      var pre := Children(gs[..n], cx);
      var e := gs[n];
      if pre.fault.None? && e.geometry.Some? && MeshFor(e.geometry.value, cx.meshDir).Ok? {
        var m := MeshFor(e.geometry.value, cx.meshDir).value;
        var kids := pre.children + [ChildEntity(e, m, cx)];
        assert Children(gs, cx).children == kids;
        assert forall j :: 0 <= j < |kids| ==> kids[j] == if j < |pre.children| then pre.children[j] else ChildEntity(e, m, cx);
      }
    }
  }

  /** `child` is the entity the children loop spawns for the entry `e`. */
  predicate SpawnedFrom(child: Entity, e: GeomEntry, cx: Context)
  {
    && e.index < |cx.handles| && e.index < |cx.urdfRobot.links|
    && e.geometry.Some? && MeshFor(e.geometry.value, cx.meshDir).Ok?
    && child == ChildEntity(e, MeshFor(e.geometry.value, cx.meshDir).value, cx)
  }

  /**
   * Without a panic, the children loop spawns one child per entry with geometry,
   * in order, each holding the body handle and converted pose of its own link
   * index and the mesh of its geometry.
   */
  lemma {:induction false} ChildrenMatchLinks(gs: seq<GeomEntry>, cx: Context)
    requires Fits(gs, cx)
    ensures var r := Children(gs, cx);
      r.fault.None? ==>
        var w := WithGeometry(gs);
        && |r.children| == |w|
        && forall j :: 0 <= j < |w| ==> SpawnedFrom(r.children[j], w[j], cx)
  {
    if gs != [] {
      var n := |gs| - 1;
      var pre := gs[..n];
      assert Fits(pre, cx);
      ChildrenMatchLinks(pre, cx);
      var r0 := Children(pre, cx);
      var r := Children(gs, cx);
      var e := gs[n];
      if r.fault.None? {
        assert r0.fault.None?;
        var w0 := WithGeometry(pre);
        var w := WithGeometry(gs);
        if e.geometry.Some? {
          var m := MeshFor(e.geometry.value, cx.meshDir);
          assert m.Ok?;
          assert r.children == r0.children + [ChildEntity(e, m.value, cx)];
          assert w == w0 + [e];
          assert SpawnedFrom(ChildEntity(e, m.value, cx), e, cx);
          forall j | 0 <= j < |w|
            ensures SpawnedFrom(r.children[j], w[j], cx)
          {
            if j < |w0| {
              assert r.children[j] == r0.children[j] && w[j] == w0[j];
            }
          }
        } else {
          assert r == r0 && w == w0;
        }
      }
    }
  }

  /** Once the children loop has panicked, later entries change nothing. */
  lemma {:induction false} ChildrenFaultSticky(gs: seq<GeomEntry>, cx: Context, j: nat)
    requires Fits(gs, cx) && j <= |gs|
    requires Children(gs[..j], cx).fault.Some?
    ensures Children(gs, cx) == Children(gs[..j], cx)
    decreases |gs| - j
  {
    if j < |gs| {
      assert gs[..j + 1][..j] == gs[..j];
      ChildrenFaultSticky(gs, cx, j + 1);
    } else {
      assert gs[..j] == gs;
    }
  }

  /**
   * `after` keeps every entity of `before` in place and may add more after them,
   * and it has the same body sets except possibly the first.
   */
  predicate OnlyFirstSetGrows(before: Scene, after: Scene)
  {
    && Extends(after.entities, before.entities)
    && |after.bodySets| == |before.bodySets|
    && forall i :: 1 <= i < |before.bodySets| ==> after.bodySets[i] == before.bodySets[i]
  }

  /**
   * Instantiating a resolved asset: insert its template into the first physics
   * context, extract its geometry, check the counts, then spawn the parent and
   * the children. Each panic keeps what was done before it.
   */
  function Instantiate(sc: Scene, a: UrdfAsset, meshDir: string, sim: nat): (s: Step)
    ensures s.fault == Some(NoPhysicsContext) <==> sc.bodySets == []
    ensures s.scene.waits == sc.waits
    ensures OnlyFirstSetGrows(sc, s.scene)
  {
    if sc.bodySets == [] then Step(sc, Some(NoPhysicsContext))
    else
      var ins := InsertMultibody(sc.bodySets[0], a.urdfRobot);
      var inserted := sc.(bodySets := sc.bodySets[0 := ins.bodies]);
      assert OnlyFirstSetGrows(sc, inserted) by {
        assert inserted.entities[..|sc.entities|] == sc.entities;
      }
      if !Indexable(a) then Step(inserted, Some(LinkIndexOutOfBounds))
      else
        var geoms := Extraction(a);
        if |ins.handles| != |geoms| then Step(inserted, Some(BodyCountMismatch))
        else
          var kids := Children(geoms, Context(a.urdfRobot, ins.handles, |sc.entities|, sim, meshDir));
          var spawned := inserted.(entities := sc.entities + [ROOT] + kids.children);
          assert OnlyFirstSetGrows(sc, spawned) by {
            assert spawned.entities[..|sc.entities|] == sc.entities;
          }
          Step(spawned, kids.fault)
  }

  /** handle_spawn_robot on one event, against the description store and the simulation contexts. */
  function SpawnOne(sc: Scene, ev: SpawnRobot, store: map<Handle, UrdfAsset>, sims: seq<nat>): (s: Step)
    ensures Extends(s.scene.entities, sc.entities)
    ensures |s.scene.bodySets| == |sc.bodySets|
    ensures s.scene.waits == sc.waits || s.scene.waits == sc.waits + [WaitRobotLoaded(ev.handle, ev.meshDir)]
  {
    if sims == [] then Step(sc, Some(NoSimulationContext))
    else if ev.handle !in store then Step(sc.(waits := sc.waits + [WaitRobotLoaded(ev.handle, ev.meshDir)]), None)
    else Instantiate(sc, store[ev.handle], ev.meshDir, sims[0])
  }

  /** The scene after the events read, the panic that stopped the loop, and how many events were read. */
  datatype Run = Run(scene: Scene, fault: Option<Panic>, read: nat)

  /** handle_spawn_robot over all its reads, stopping at the first panic. */
  function SpawnAll(sc: Scene, evs: seq<SpawnRobot>, store: map<Handle, UrdfAsset>, sims: seq<nat>): (r: Run)
    ensures r.read <= |evs|
    ensures r.fault.None? ==> r.read == |evs|
    ensures Extends(r.scene.entities, sc.entities)
    ensures |r.scene.bodySets| == |sc.bodySets|
  {
    if evs == [] then
      assert sc.entities[..|sc.entities|] == sc.entities;
      Run(sc, None, 0)
    else
      var n := |evs| - 1;
      var pre := SpawnAll(sc, evs[..n], store, sims);
      if pre.fault.Some? then pre
      else
        var s := SpawnOne(pre.scene, evs[n], store, sims);
        ExtendsTrans(s.scene.entities, pre.scene.entities, sc.entities);
        Run(s.scene, s.fault, |evs|)
  }

  /** An extraction entry has a geometry exactly when its link has a visual. */
  lemma GeometryEntriesHaveVisuals(a: UrdfAsset)
    requires Indexable(a)
    ensures var geoms := Extraction(a);
      forall k :: 0 <= k < |geoms| ==> (geoms[k] in WithGeometry(geoms) <==> a.robot.links[k].visual != [])
  {
    var geoms := Extraction(a);
    forall k | 0 <= k < |geoms|
      ensures geoms[k] in WithGeometry(geoms) <==> a.robot.links[k].visual != []
    {
      assert geoms[k] in geoms;
    }
  }

  /** Every extraction entry with a geometry indexes a description link. */
  lemma GeometryEntriesIndexLinks(a: UrdfAsset)
    requires Indexable(a)
    ensures forall e :: e in WithGeometry(Extraction(a)) ==> e.index < |a.robot.links|
  {
    var geoms := Extraction(a);
    forall e | e in WithGeometry(geoms)
      ensures e.index < |a.robot.links|
    {
      assert e in geoms;
      var k :| 0 <= k < |geoms| && geoms[k] == e;
    }
  }

  /** The extraction entries with a geometry keep link order. */
  lemma GeometryEntriesOrdered(a: UrdfAsset)
    requires Indexable(a)
    ensures var w := WithGeometry(Extraction(a));
      forall j, l :: 0 <= j < l < |w| ==> w[j].index < w[l].index
  {
    var geoms := Extraction(a);
    assert forall k, l :: 0 <= k < l < |geoms| ==> geoms[k].index < geoms[l].index;
  }

  /** The entries that get a child are those of the links with a visual, in link order. */
  lemma LinkedAreLinksWithVisuals(a: UrdfAsset)
    requires Indexable(a)
    ensures var geoms := Extraction(a);
      var w := WithGeometry(geoms);
      && (forall k :: 0 <= k < |geoms| ==> (geoms[k] in w <==> a.robot.links[k].visual != []))
      && (forall e :: e in w ==> e.index < |a.robot.links|)
      && (forall j, l :: 0 <= j < l < |w| ==> w[j].index < w[l].index)
  {
    GeometryEntriesHaveVisuals(a);
    GeometryEntriesIndexLinks(a);
    GeometryEntriesOrdered(a);
  }

  /** With no simulation context every spawn panics, resolved or not, and changes nothing. */
  lemma SpawnWithoutSimulationPanics(sc: Scene, ev: SpawnRobot, store: map<Handle, UrdfAsset>)
    ensures SpawnOne(sc, ev, store, []) == Step(sc, Some(NoSimulationContext))
  {
  }

  /**
   * With a simulation context but no physics context, a resolved spawn panics
   * before it inserts or spawns anything.
   */
  lemma NoPhysicsContextPanics(sc: Scene, ev: SpawnRobot, store: map<Handle, UrdfAsset>, sims: seq<nat>)
    requires sims != [] && ev.handle in store && sc.bodySets == []
    ensures SpawnOne(sc, ev, store, sims) == Step(sc, Some(NoPhysicsContext))
  {
  }

  /**
   * An unresolved spawn emits exactly one WaitRobotLoaded with the same handle and
   * mesh directory, inserts no body and spawns no entity; a resolved one emits none.
   */
  lemma SpawnDefersIffUnresolved(sc: Scene, ev: SpawnRobot, store: map<Handle, UrdfAsset>, sims: seq<nat>)
    requires sims != []
    ensures var s := SpawnOne(sc, ev, store, sims);
      && (ev.handle !in store ==>
            s == Step(Scene(sc.bodySets, sc.entities, sc.waits + [WaitRobotLoaded(ev.handle, ev.meshDir)]), None))
      && (ev.handle in store ==> s.scene.waits == sc.waits)
  {
  }

  /**
   * A link-count mismatch panics only after the template went into the first
   * physics context: one new body per template link stays behind, no entity is spawned.
   */
  lemma MismatchPanicsAfterInsertion(sc: Scene, a: UrdfAsset, meshDir: string, sim: nat)
    requires sc.bodySets != [] && |a.urdfRobot.links| != |a.robot.links|
    ensures var s := Instantiate(sc, a, meshDir, sim);
      && s.fault.Some?
      && (s.fault.value == LinkIndexOutOfBounds || s.fault.value == BodyCountMismatch)
      && |s.scene.bodySets[0]| == |sc.bodySets[0]| + |a.urdfRobot.links|
      && s.scene.entities == sc.entities
  {
    if Indexable(a) {
      assert |Extraction(a)| == |a.robot.links|;
    }
  }

  /**
   * A resolved spawn of a consistent asset without cylinders or capsules: the
   * template goes into the first physics context only, and one parent entity is
   * spawned with exactly one child per link that has a visual, in link order,
   * each holding the new body handle of its own link, whose body sits at the
   * pose the child's transform was converted from.
   */
  lemma InstantiateSpawnsLinks(sc: Scene, a: UrdfAsset, meshDir: string, sim: nat)
    requires sc.bodySets != [] && |a.urdfRobot.links| == |a.robot.links|
    requires AllImplemented(Extraction(a))
    ensures var s := Instantiate(sc, a, meshDir, sim);
      var ins := InsertMultibody(sc.bodySets[0], a.urdfRobot);
      var w := WithGeometry(Extraction(a));
      var base := |sc.entities|;
      && s.fault.None?
      && s.scene.waits == sc.waits
      && s.scene.bodySets == sc.bodySets[0 := ins.bodies]
      && |s.scene.entities| == base + 1 + |w|
      && s.scene.entities[..base] == sc.entities
      && s.scene.entities[base] == ROOT
      && forall j :: 0 <= j < |w| ==>
           var k := w[j].index;
           var child := s.scene.entities[base + 1 + j];
           && k < |a.urdfRobot.links|
           && child.body == Some(ins.handles[k])
           && child.role.RobotLink? && child.role.parent == base
           && child.transform == Convert(a.urdfRobot.links[k].bodyPose)
  {
    var ins := InsertMultibody(sc.bodySets[0], a.urdfRobot);
    var geoms := Extraction(a);
    var cx := Context(a.urdfRobot, ins.handles, |sc.entities|, sim, meshDir);
    InstantiateUnfolds(sc, a, meshDir, sim);
    ChildrenFault(geoms, cx);
    ChildFields(geoms, cx);
    var kids := Children(geoms, cx).children;
    var es := sc.entities + [ROOT] + kids;
    assert es[..|sc.entities|] == sc.entities;
    assert forall j :: 0 <= j < |kids| ==> es[|sc.entities| + 1 + j] == kids[j];
  }

  /** The fields of each child the children loop spawns without a panic. */
  lemma ChildFields(gs: seq<GeomEntry>, cx: Context)
    requires Fits(gs, cx)
    ensures var r := Children(gs, cx);
      r.fault.None? ==>
        var w := WithGeometry(gs);
        && |r.children| == |w|
        && forall j :: 0 <= j < |w| ==>
             var k := w[j].index;
             && k < |cx.urdfRobot.links| && k < |cx.handles|
             && r.children[j].body == Some(cx.handles[k])
             && r.children[j].role.RobotLink? && r.children[j].role.parent == cx.rootId
             && r.children[j].transform == Convert(cx.urdfRobot.links[k].bodyPose)
  {
    ChildrenMatchLinks(gs, cx);
    var r := Children(gs, cx);
    var w := WithGeometry(gs);
    if r.fault.None? {
      forall j | 0 <= j < |w|
        ensures r.children[j].body == Some(cx.handles[w[j].index])
      {
        assert SpawnedFrom(r.children[j], w[j], cx);
      }
    }
  }


  /** Under matching link counts, instantiation spawns the parent and then the children loop's entities. */
  lemma InstantiateUnfolds(sc: Scene, a: UrdfAsset, meshDir: string, sim: nat)
    requires sc.bodySets != [] && |a.urdfRobot.links| == |a.robot.links|
    ensures var ins := InsertMultibody(sc.bodySets[0], a.urdfRobot);
      var cx := Context(a.urdfRobot, ins.handles, |sc.entities|, sim, meshDir);
      && Indexable(a)
      && Fits(Extraction(a), cx)
      && var kids := Children(Extraction(a), cx);
      Instantiate(sc, a, meshDir, sim) ==
        Step(sc.(bodySets := sc.bodySets[0 := ins.bodies], entities := sc.entities + [ROOT] + kids.children), kids.fault)
  {
    var ins := InsertMultibody(sc.bodySets[0], a.urdfRobot);
    var geoms := Extraction(a);
    assert |ins.handles| == |geoms|;
    var cx := Context(a.urdfRobot, ins.handles, |sc.entities|, sim, meshDir);
    assert Fits(geoms, cx);
  }


  /** Every child of the children loop shows the converted pose of its body, when each handle holds its link's pose. */
  lemma {:induction false} ChildrenAtBodyPose(gs: seq<GeomEntry>, cx: Context, bodies: BodySet)
    requires Fits(gs, cx)
    requires forall k :: 0 <= k < |cx.handles| && k < |cx.urdfRobot.links| ==>
      Get(bodies, cx.handles[k]) == Some(cx.urdfRobot.links[k].bodyPose)
    ensures forall j :: 0 <= j < |Children(gs, cx).children| ==> AtBodyPose(Children(gs, cx).children[j], bodies)
  {
    if gs != [] {
      var n := |gs| - 1;
      ChildrenAtBodyPose(gs[..n], cx, bodies);
      var pre := Children(gs[..n], cx);
      var e := gs[n];
      if pre.fault.None? && e.geometry.Some? && MeshFor(e.geometry.value, cx.meshDir).Ok? {
        var m := MeshFor(e.geometry.value, cx.meshDir).value;
        var kids := pre.children + [ChildEntity(e, m, cx)];
        assert Children(gs, cx).children == kids;
        assert forall j :: 0 <= j < |kids| ==> kids[j] == if j < |pre.children| then pre.children[j] else ChildEntity(e, m, cx);
      }
    }
  }

  /**
   * Every entity a successful instantiation spawns shows the converted pose of
   * its body in the first physics context.
   */
  lemma InstantiatedAtBodyPose(sc: Scene, a: UrdfAsset, meshDir: string, sim: nat)
    requires sc.bodySets != [] && |a.urdfRobot.links| == |a.robot.links|
    ensures var s := Instantiate(sc, a, meshDir, sim);
      && s.scene.bodySets != []
      && forall j :: |sc.entities| <= j < |s.scene.entities| ==> AtBodyPose(s.scene.entities[j], s.scene.bodySets[0])
  {
    var ins := InsertMultibody(sc.bodySets[0], a.urdfRobot);
    var geoms := Extraction(a);
    var cx := Context(a.urdfRobot, ins.handles, |sc.entities|, sim, meshDir);
    InstantiateUnfolds(sc, a, meshDir, sim);
    ChildrenAtBodyPose(geoms, cx, ins.bodies);
    ParentAndChildrenAtBodyPose(sc.entities, Children(geoms, cx).children, ins.bodies);
  }

  /** The parent has no body, so a table that appends it and children at their body poses has all of its new entities there. */
  lemma ParentAndChildrenAtBodyPose(es: seq<Entity>, kids: seq<Entity>, bodies: BodySet)
    requires forall j :: 0 <= j < |kids| ==> AtBodyPose(kids[j], bodies)
    ensures var all := es + [ROOT] + kids;
      forall j :: |es| <= j < |all| ==> AtBodyPose(all[j], bodies)
  {
    var all := es + [ROOT] + kids;
    forall j | |es| <= j < |all|
      ensures AtBodyPose(all[j], bodies)
    {
      if j > |es| {
        assert all[j] == kids[j - |es| - 1];
      } else {
        assert all[j] == ROOT;
      }
    }
  }

  /** A cylinder or capsule among the links' first visuals makes a resolved spawn panic. */
  lemma InstantiateFaultsOnUnimplemented(sc: Scene, a: UrdfAsset, meshDir: string, sim: nat)
    requires sc.bodySets != [] && |a.urdfRobot.links| == |a.robot.links|
    requires !AllImplemented(Extraction(a))
    ensures var s := Instantiate(sc, a, meshDir, sim);
      s.fault.Some? && s.fault.value.Unimplemented?
  {
    var ins := InsertMultibody(sc.bodySets[0], a.urdfRobot);
    var geoms := Extraction(a);
    var cx := Context(a.urdfRobot, ins.handles, |sc.entities|, sim, meshDir);
    assert Fits(geoms, cx);
    ChildrenFault(geoms, cx);
  }

  /** An instantiation spawns at most one robot parent entity, and exactly one when it does not panic. */
  lemma InstantiateRootCount(sc: Scene, a: UrdfAsset, meshDir: string, sim: nat)
    ensures var s := Instantiate(sc, a, meshDir, sim);
      && RootCount(s.scene.entities) <= RootCount(sc.entities) + 1
      && (s.fault.None? ==> RootCount(s.scene.entities) == RootCount(sc.entities) + 1)
  {
    if sc.bodySets != [] && Indexable(a) {
      var ins := InsertMultibody(sc.bodySets[0], a.urdfRobot);
      var geoms := Extraction(a);
      if |ins.handles| == |geoms| {
        var cx := Context(a.urdfRobot, ins.handles, |sc.entities|, sim, meshDir);
        var kids := Children(geoms, cx).children;
        ChildrenAreLinks(geoms, cx);
        RootCountNoRoots(kids);
        RootCountAppend(sc.entities + [ROOT], kids);
        RootCountAppend(sc.entities, [ROOT]);
        assert RootCount([ROOT]) == 1 by {
          assert [ROOT][..0] == [];
        }
      }
    }
  }

  /** When no read handle resolves, every spawn is deferred unchanged and nothing else happens. */
  lemma {:induction false} AllUnresolvedDefer(sc: Scene, evs: seq<SpawnRobot>, store: map<Handle, UrdfAsset>, sims: seq<nat>)
    requires sims != []
    requires forall i :: 0 <= i < |evs| ==> evs[i].handle !in store
    ensures SpawnAll(sc, evs, store, sims) == Run(Scene(sc.bodySets, sc.entities, sc.waits + Defer(evs)), None, |evs|)
  {
    if evs == [] {
      assert sc.waits + [] == sc.waits;
    } else {
      var n := |evs| - 1;
      AllUnresolvedDefer(sc, evs[..n], store, sims);
      assert Defer(evs) == Defer(evs[..n]) + [WaitRobotLoaded(evs[n].handle, evs[n].meshDir)];
      assert sc.waits + Defer(evs) == (sc.waits + Defer(evs[..n])) + [WaitRobotLoaded(evs[n].handle, evs[n].meshDir)];
    }
  }

  /** Once a spawn has panicked, the later events are not read. */
  lemma {:induction false} SpawnAllFaultSticky(sc: Scene, evs: seq<SpawnRobot>, store: map<Handle, UrdfAsset>, sims: seq<nat>, j: nat)
    requires j <= |evs|
    requires SpawnAll(sc, evs[..j], store, sims).fault.Some?
    ensures SpawnAll(sc, evs, store, sims) == SpawnAll(sc, evs[..j], store, sims)
    decreases |evs| - j
  {
    if j < |evs| {
      assert evs[..j + 1][..j] == evs[..j];
      SpawnAllFaultSticky(sc, evs, store, sims, j + 1);
    } else {
      assert evs[..j] == evs;
    }
  }
}
