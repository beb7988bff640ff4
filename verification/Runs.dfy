/** Whole runs: any number of policies reconciled in any order, each time with any calls failing,
    between users creating, editing and deleting policies, nodes coming and going, users editing
    their own labels and the MIG manager reporting its state. */
module Runs {
  import opened Options
  import opened Api
  import opened GpuControls
  import opened ConfigEntries
  import opened Cluster
  import opened GpuProtocol
  import opened StepFacts
  import opened ConfigStage
  import opened StepSafety
  import Retry

  datatype Action =
    | Reconcile(policy: string, faults: set<Op>)
    | Create(policy: string, spec: GpuSpec)
    | EditSpec(policy: string, spec: GpuSpec)
    | Delete(policy: string)
    | UserLabel(node: string, key: LabelKey, value: Option<string>)
    | MigReport(node: string, state: string)
    | Join(node: string, labels: Labels)
    | Leave(node: string)

  /** The names policies may have, and what is asked of them and of the hash. */
  datatype World = World(names: set<string>, hashes: Hashes) {
    ghost predicate Fits() {
      && PrefixFree(names)
      && (forall x :: HyphenFree(hashes.dp(x)))
      && (forall x :: HyphenFree(hashes.mig(x)))
    }
  }

  /** Selectors avoid the controller's labels, the mode of a policy is immutable, users leave the
      controller's labels alone, and nodes join without them. */
  predicate Allowed(world: World, c: State, a: Action) {
    match a
    case Reconcile(_, _) => true
    case Create(p, spec) => p in world.names && p !in c.policies && SafeSelector(spec)
    case EditSpec(p, spec) => p in c.policies && SafeSelector(spec) && spec.mode == c.policies[p].spec.mode
    case Delete(p) => p in c.policies
    case UserLabel(n, k, _) => n in c.nodes && k !in GPU_KEYS
    case MigReport(n, _) => n in c.nodes
    case Join(n, labels) => n !in c.nodes && labels.Keys !! GPU_KEYS
    case Leave(n) => n in c.nodes
  }

  function Relabel(nodes: Nodes, n: string, labels: Labels): Nodes
    requires n in nodes
  {
    nodes[n := Obj(nodes[n].version + 1, labels)]
  }

  /** The state after an action; what is not allowed does not happen. */
  ghost function Next(world: World, c: State, a: Action): State {
    if !Allowed(world, c, a) then c
    else match a
    case Reconcile(p, f) => ReconcileStep(world.hashes, c, p, f).state
    case Create(p, spec) => c.(policies := c.policies[p := Policy(spec, false, [], None)])
    case EditSpec(p, spec) => c.(policies := c.policies[p := c.policies[p].(spec := spec)])
    case Delete(p) => c.(policies := StorePolicy(c.policies, p, c.policies[p].(deleting := true)))
    case UserLabel(n, k, v) =>
      var labels := c.nodes[n].labels;
      c.(nodes := Relabel(c.nodes, n, if v.Some? then labels[k := v.value] else labels - {k}))
    case MigReport(n, v) => c.(nodes := Relabel(c.nodes, n, c.nodes[n].labels[MigConfigState := v]))
    case Join(n, labels) => c.(nodes := c.nodes[n := Obj(0, labels)])
    case Leave(n) => c.(nodes := c.nodes - {n})
  }

  ghost function Run(world: World, c: State, acts: seq<Action>): State {
    if acts == [] then c else Next(world, Run(world, c, acts[..|acts| - 1]), acts[|acts| - 1])
  }

  // ---------------------------------------------------------------- safety of every run

  /** What holds at every point: nothing is owned or kept by a policy that is gone or has lost its
      finalizer, and every policy has at most one entry in each configuration, named after its
      content. */
  ghost predicate Good(world: World, c: State) {
    && c.policies.Keys <= world.names
    && (forall p :: p in c.policies ==> SafeSelector(c.policies[p].spec))
    && (forall p :: p in world.names ==> PolicyGood(world, c, p))
  }

  ghost predicate PolicyGood(world: World, c: State, p: string) {
    ConfigsOk(world.hashes, c.dp, c.mig, p) && NoOrphan(c, p)
  }

  lemma OtherEntryKept<T>(before: Option<map<string, T>>, after: Option<map<string, T>>, p: string, q: string,
                          hash: T -> string, names: set<string>)
    requires forall x :: HyphenFree(hash(x))
    requires PrefixFree(names) && p in names && q in names && p != q
    requires ConfigOk(before, p, hash) && ConfigOk(before, q, hash) && ConfigOk(after, p, hash)
    requires OthersSame(before, after, p)
    ensures ConfigOk(after, q, hash)
    ensures before.Some? ==> OwnKeys(after.value, q) == OwnKeys(before.value, q)
    ensures before.Some? ==> forall k :: Owns(q, k) ==> Find(after.value, k) == Find(before.value, k)
  {
    hide EntryOk, OwnKeys, Owns, PrefixFree;
    if before.Some? {
      OthersKept(before.value, after.value, p, q, hash, names);
    }
  }

  /** A reconcile of p does nothing to another policy: not to its nodes, not to its entries, not to
      its object. */
  lemma ReconcileIsolated(world: World, c: State, p: string, q: string, f: set<Op>)
    requires world.Fits() && p in world.names && q in world.names && p != q
    requires ConfigsOk(world.hashes, c.dp, c.mig, p) && ConfigsOk(world.hashes, c.dp, c.mig, q)
    ensures var o := ReconcileStep(world.hashes, c, p, f).state;
      && (forall n :: n in c.nodes && Owner(c.nodes[n].labels) == Some(q) ==> n in o.nodes && o.nodes[n] == c.nodes[n])
      && (forall n :: n in o.nodes && Owner(o.nodes[n].labels) == Some(q) ==>
            n in c.nodes && Owner(c.nodes[n].labels) == Some(q))
      && ConfigsOk(world.hashes, o.dp, o.mig, q)
      && (c.dp.Some? <==> o.dp.Some?) && (c.mig.Some? <==> o.mig.Some?)
      && (c.dp.Some? ==> OwnKeys(o.dp.value, q) == OwnKeys(c.dp.value, q)
                         && forall k :: Owns(q, k) ==> Find(o.dp.value, k) == Find(c.dp.value, k))
      && (c.mig.Some? ==> OwnKeys(o.mig.value, q) == OwnKeys(c.mig.value, q)
                          && forall k :: Owns(q, k) ==> Find(o.mig.value, k) == Find(c.mig.value, k))
      && Find(o.policies, q) == Find(c.policies, q)
  {
    hide ReconcileStep, ConfigOk, OwnKeys, Owns;
    ReconcileNodesFrame(world.hashes, c, p, f);
    ReconcileConfigFrame(world.hashes, c, p, f);
    ReconcilePolicies(world.hashes, c, p, f);
    var o := ReconcileStep(world.hashes, c, p, f).state;
    OtherEntryKept(c.dp, o.dp, p, q, world.hashes.dp, world.names);
    OtherEntryKept(c.mig, o.mig, p, q, world.hashes.mig, world.names);
  }

  lemma ReconcileGood(world: World, c: State, p: string, f: set<Op>)
    requires world.Fits() && Good(world, c)
    ensures Good(world, ReconcileStep(world.hashes, c, p, f).state)
  {
    hide ReconcileLiveAt, ReconcileDeletedAt, ConfigsOk, SafeSelector, OwnKeys;
    if p in c.policies {
      var o := ReconcileStep(world.hashes, c, p, f).state;
      ReconcilePolicies(world.hashes, c, p, f);
      forall q | q in world.names ensures PolicyGood(world, o, q) {
        assert PolicyGood(world, c, q) && PolicyGood(world, c, p);
        if q == p {
          ReconcileConfigFrame(world.hashes, c, p, f);
          ReconcileNoOrphan(world.hashes, c, p, f);
        } else {
          ReconcileIsolated(world, c, p, q, f);
        }
      }
    }
  }

  lemma NextGood(world: World, c: State, a: Action)
    requires world.Fits() && Good(world, c)
    ensures Good(world, Next(world, c, a))
  {
    hide ReconcileStep, ConfigsOk, SafeSelector, OwnKeys, GPU_KEYS;
    if a.Reconcile? {
      ReconcileGood(world, c, a.policy, a.faults);
    } else {
      EnvironmentGood(world, c, a);
    }
  }

  lemma EnvironmentGood(world: World, c: State, a: Action)
    requires Good(world, c) && !a.Reconcile?
    ensures Good(world, Next(world, c, a))
  {
    hide ConfigsOk, SafeSelector, OwnKeys;
    var o := Next(world, c, a);
    forall q | q in world.names ensures PolicyGood(world, o, q) {
      assert PolicyGood(world, c, q);
      if HoldsNode(o, q) {
        var n :| n in o.nodes && Owner(o.nodes[n].labels) == Some(q);
        assert n in c.nodes && Owner(c.nodes[n].labels) == Some(q);
      }
    }
  }

  /** Over any run, from any good state: no orphaned node or entry, and one well-named entry at most
      for each policy in each configuration. */
  lemma {:induction false} RunGood(world: World, c: State, acts: seq<Action>)
    requires world.Fits() && Good(world, c)
    ensures Good(world, Run(world, c, acts))
  {
    hide Good, Next;
    if acts == [] {
    } else {
      RunGood(world, c, acts[..|acts| - 1]);
      NextGood(world, Run(world, c, acts[..|acts| - 1]), acts[|acts| - 1]);
    }
  }
}
