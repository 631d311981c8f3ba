/**
 * The retry cycle between handle_spawn_robot and handle_wait_robot_loaded. One
 * round is one pass of the spawn handler over the pending spawns followed by one
 * pass of the wait handler over the deferred ones; the description store may be
 * different in every round, as the asset loader fills it in the background.
 */
module Pipeline {
  import opened Wrappers
  import opened Robot
  import opened Ecs
  import opened Events
  import opened Spawn

  /** The scene, the pending SpawnRobot events, and the panic that stopped the app, if any. */
  datatype PipelineState = PipelineState(scene: Scene, spawns: seq<SpawnRobot>, fault: Option<Panic>)

  /** One round against the store of that round. */
  function Round(p: PipelineState, store: map<Handle, UrdfAsset>, sims: seq<nat>): (q: PipelineState)
    ensures p.fault.Some? ==> q == p
    ensures q.fault.None? ==> q.scene.waits == []
    ensures Extends(q.scene.entities, p.scene.entities)
    ensures |q.scene.bodySets| == |p.scene.bodySets|
  {
    if p.fault.Some? then p
    else
      var r := SpawnAll(p.scene, p.spawns, store, sims);
      if r.fault.Some? then PipelineState(r.scene, p.spawns[r.read..], r.fault)
      else PipelineState(r.scene.(waits := []), Forward(r.scene.waits), None)
  }

  /** One round per store, in order. */
  function Rounds(p: PipelineState, stores: seq<map<Handle, UrdfAsset>>, sims: seq<nat>): (q: PipelineState)
    ensures Extends(q.scene.entities, p.scene.entities)
    ensures |q.scene.bodySets| == |p.scene.bodySets|
    decreases |stores|
  {
    if stores == [] then
      assert p.scene.entities[..|p.scene.entities|] == p.scene.entities;
      p
    else
      var next := Round(p, stores[0], sims);
      ExtendsTrans(Rounds(next, stores[1..], sims).scene.entities, next.scene.entities, p.scene.entities);
      Rounds(next, stores[1..], sims)
  }

  /** Spawns whose handles stay unresolved cycle forever and change nothing. */
  lemma {:induction false} UnresolvedIsFixpoint(p: PipelineState, stores: seq<map<Handle, UrdfAsset>>, sims: seq<nat>)
    requires p.fault.None? && p.scene.waits == [] && sims != []
    requires forall i, j :: 0 <= i < |stores| && 0 <= j < |p.spawns| ==> p.spawns[j].handle !in stores[i]
    ensures Rounds(p, stores, sims) == p
    decreases |stores|
  {
    if stores != [] {
      RoundUnresolved(p, stores[0], sims);
      var rest := stores[1..];
      assert forall i, j :: 0 <= i < |rest| && 0 <= j < |p.spawns| ==> p.spawns[j].handle !in rest[i] by {
        forall i, j | 0 <= i < |rest| && 0 <= j < |p.spawns| ensures p.spawns[j].handle !in rest[i] {
          assert rest[i] == stores[i + 1];
        }
      }
      UnresolvedIsFixpoint(p, rest, sims);
    }
  }

  /** One round over unresolved spawns defers them and forwards them back unchanged. */
  lemma RoundUnresolved(p: PipelineState, store: map<Handle, UrdfAsset>, sims: seq<nat>)
    requires p.fault.None? && p.scene.waits == [] && sims != []
    requires forall j :: 0 <= j < |p.spawns| ==> p.spawns[j].handle !in store
    ensures Round(p, store, sims) == p
  {
    AllUnresolvedDefer(p.scene, p.spawns, store, sims);
    ForwardDefer(p.spawns);
    assert [] + Defer(p.spawns) == Defer(p.spawns);
  }

  /** With nothing pending, rounds do nothing. */
  lemma {:induction false} IdleIsFixpoint(p: PipelineState, stores: seq<map<Handle, UrdfAsset>>, sims: seq<nat>)
    requires p.spawns == [] && p.scene.waits == []
    ensures Rounds(p, stores, sims) == p
    decreases |stores|
  {
    if stores != [] {
      assert Round(p, stores[0], sims) == p;
      IdleIsFixpoint(p, stores[1..], sims);
    }
  }

  /** A round over a single resolved spawn is one instantiation, and leaves nothing to retry. */
  lemma RoundResolved(sc: Scene, ev: SpawnRobot, store: map<Handle, UrdfAsset>, sims: seq<nat>)
    requires sc.waits == [] && sims != [] && ev.handle in store
    ensures var s := Instantiate(sc, store[ev.handle], ev.meshDir, sims[0]);
      Round(PipelineState(sc, [ev], None), store, sims) == PipelineState(s.scene, [], s.fault)
  {
    var s := Instantiate(sc, store[ev.handle], ev.meshDir, sims[0]);
    assert s.scene.waits == sc.waits;
    assert [ev][..0] == [];
    assert SpawnAll(sc, [ev], store, sims) == Run(s.scene, s.fault, 1);
  }

  /**
   * A spawn whose handle is unresolved for n rounds and resolves in round n is
   * instantiated exactly once: the final scene is that of one instantiation of
   * the initial scene, nothing is left pending, and at most one robot parent
   * entity was added (exactly one unless the instantiation panicked).
   */
  lemma RetryInstantiatesOnce(sc: Scene, ev: SpawnRobot, stores: seq<map<Handle, UrdfAsset>>, sims: seq<nat>, n: nat)
    requires sc.waits == [] && sims != []
    requires n < |stores|
    requires forall i :: 0 <= i < n ==> ev.handle !in stores[i]
    requires ev.handle in stores[n]
    ensures var q := Rounds(PipelineState(sc, [ev], None), stores, sims);
      var s := Instantiate(sc, stores[n][ev.handle], ev.meshDir, sims[0]);
      && q.scene == s.scene
      && q.fault == s.fault
      && q.spawns == []
      && RootCount(q.scene.entities) <= RootCount(sc.entities) + 1
      && (q.fault.None? ==> RootCount(q.scene.entities) == RootCount(sc.entities) + 1)
  {
    var p := PipelineState(sc, [ev], None);
    UnresolvedIsFixpoint(p, stores[..n], sims);
    RoundsSplit(p, stores, n, sims);
    var s := Instantiate(sc, stores[n][ev.handle], ev.meshDir, sims[0]);
    RoundResolved(sc, ev, stores[n], sims);
    var after := Round(p, stores[n], sims);
    if s.fault.None? {
      IdleIsFixpoint(after, stores[n + 1..], sims);
    } else {
      FaultIsFixpoint(after, stores[n + 1..], sims);
    }
    InstantiateRootCount(sc, stores[n][ev.handle], ev.meshDir, sims[0]);
  }

  /** Running all rounds is running the first n of them and then the rest. */
  lemma {:induction false} RoundsSplit(p: PipelineState, stores: seq<map<Handle, UrdfAsset>>, n: nat, sims: seq<nat>)
    requires n < |stores|
    ensures Rounds(p, stores, sims) == Rounds(Round(Rounds(p, stores[..n], sims), stores[n], sims), stores[n + 1..], sims)
    decreases n
  {
    if n > 0 {
      assert stores[..n][0] == stores[0];
      assert stores[..n][1..] == stores[1..][..n - 1];
      assert stores[1..][n - 1] == stores[n];
      assert stores[1..][n..] == stores[n + 1..];
      RoundsSplit(Round(p, stores[0], sims), stores[1..], n - 1, sims);
    } else {
      assert stores[1..] == stores[n + 1..];
    }
  }

  /** After a panic, rounds do nothing. */
  lemma {:induction false} FaultIsFixpoint(p: PipelineState, stores: seq<map<Handle, UrdfAsset>>, sims: seq<nat>)
    requires p.fault.Some?
    ensures Rounds(p, stores, sims) == p
    decreases |stores|
  {
    if stores != [] {
      FaultIsFixpoint(p, stores[1..], sims);
    }
  }
}
