/** Several nodes, and master.pointer messages that may be lost, repeated and reordered. */
module Network {
  import opened Layout
  import opened Master

  /** The master pointer of every node; every message ever sent, any of which may be delivered at any time,
      any number of times or never; and who has migrated to which epoch. */
  datatype Net = Net(at: map<string, Pointer>, sent: set<Pointer>, migrations: set<Pointer>)

  datatype Step =
    | MigrateStep(node: string, fanout: bool)
    | DeliverStep(node: string, msg: Pointer)

  function Initial(nodes: set<string>): Net {
    Net(map n | n in nodes :: Pointer(n, 0), {}, {})
  }

  ghost predicate Possible(net: Net, s: Step) {
    match s
    case MigrateStep(n, _) => n in net.at && net.at[n].epoch < MAX_I64
    case DeliverStep(n, msg) => n in net.at && msg in net.sent
  }

  function Next(net: Net, s: Step): Net
    requires s.node in net.at
  {
    match s
    case MigrateStep(n, fanout) =>
      var p := Migrated(net.at[n], n);
      Net(net.at[n := p], if fanout then net.sent + {p} else net.sent, net.migrations + {p})
    case DeliverStep(n, msg) => net.(at := net.at[n := Apply(net.at[n], msg)])
  }

  ghost predicate Run(first: Net, steps: seq<Step>, last: Net)
    decreases |steps|
  {
    if steps == [] then last == first
    else Possible(first, steps[0]) && Run(Next(first, steps[0]), steps[1..], last)
  }

  /** Pointers of epoch 1 and up name a node that migrated to just that epoch; so do messages. */
  ghost predicate Inv(net: Net) {
    && (forall n <- net.at :: IsValidDeviceId(n))
    && (forall n <- net.at ::
          var p := net.at[n];
          0 <= p.epoch <= MAX_I64 && (if p.epoch == 0 then p.master == n else p in net.migrations))
    && (forall m <- net.sent :: m in net.migrations)
    && (forall m <- net.migrations :: 1 <= m.epoch <= MAX_I64 && IsValidDeviceId(m.master) && m.master in net.at)
  }

  lemma InitialHolds(nodes: set<string>)
    requires forall n <- nodes :: IsValidDeviceId(n)
    ensures Inv(Initial(nodes))
  {
  }

  /** One step: the invariant stays, no epoch falls, a node whose epoch stays keeps its master, and
      no migration is forgotten. */
  lemma StepKeeps(net: Net, s: Step)
    requires Inv(net) && Possible(net, s)
    ensures var g := Next(net, s);
            && Inv(g) && g.at.Keys == net.at.Keys && net.migrations <= g.migrations
            && forall n <- net.at ::
                 g.at[n].epoch >= net.at[n].epoch && (g.at[n].epoch == net.at[n].epoch ==> g.at[n] == net.at[n])
  {
    if s.MigrateStep? {
      MigrationRaisesIff(net.at[s.node], s.node);
    }
  }

  /** Over every run, on every node, epochs never fall, and a node adopts at most one master per
      epoch: at the same epoch it names the same master. */
  lemma {:induction false} EpochsNeverFall(first: Net, steps: seq<Step>, last: Net)
    requires Inv(first) && Run(first, steps, last)
    ensures Inv(last) && last.at.Keys == first.at.Keys && first.migrations <= last.migrations
    ensures forall n <- first.at ::
              last.at[n].epoch >= first.at[n].epoch
                && (last.at[n].epoch == first.at[n].epoch ==> last.at[n] == first.at[n])
    decreases |steps|
  {
    if steps != [] {
      StepKeeps(first, steps[0]);
      EpochsNeverFall(Next(first, steps[0]), steps[1..], last);
    }
  }

  /** Every adopted pointer of epoch 1 and up names a node that migrated to exactly that epoch. */
  lemma AdoptedWasMigrated(nodes: set<string>, steps: seq<Step>, net: Net, n: string)
    requires (forall m <- nodes :: IsValidDeviceId(m)) && Run(Initial(nodes), steps, net) && n in net.at
             && net.at[n].epoch >= 1
    ensures net.at[n] in net.migrations
  {
    InitialHolds(nodes);
    EpochsNeverFall(Initial(nodes), steps, net);
  }

  /** The node takes writes (require_master). */
  predicate PassesFence(net: Net, n: string) {
    n in net.at && net.at[n].master == n
  }

  /** No two nodes have migrated to one epoch. */
  ghost predicate UniqueMigrations(net: Net) {
    forall a, b | a in net.migrations && b in net.migrations :: a.epoch == b.epoch ==> a.master == b.master
  }

  /** If no two nodes ever migrated to one epoch, at most one node takes writes in each epoch from
      1 up, in every reachable state. */
  lemma OneWriterPerEpoch(nodes: set<string>, steps: seq<Step>, net: Net, a: string, b: string)
    requires (forall m <- nodes :: IsValidDeviceId(m)) && Run(Initial(nodes), steps, net) && UniqueMigrations(net)
    requires PassesFence(net, a) && PassesFence(net, b) && net.at[a].epoch == net.at[b].epoch >= 1
    ensures a == b
  {
    AdoptedWasMigrated(nodes, steps, net, a);
    AdoptedWasMigrated(nodes, steps, net, b);
  }

  /** The condition is needed: two nodes at one epoch that both migrate, neither hearing of the
      other, both take writes in the next. */
  lemma TwoWriters(net: Net, a: string, b: string)
    requires Inv(net) && a in net.at && b in net.at && a != b && net.at[a].epoch == net.at[b].epoch < MAX_I64
    ensures var g := Next(Next(net, MigrateStep(a, true)), MigrateStep(b, true));
            Run(net, [MigrateStep(a, true), MigrateStep(b, true)], g)
            && PassesFence(g, a) && PassesFence(g, b) && g.at[a].epoch == g.at[b].epoch >= 1
  {
    var steps := [MigrateStep(a, true), MigrateStep(b, true)];
    MigrationRaisesIff(net.at[a], a);
    MigrationRaisesIff(net.at[b], b);
    var one := Next(net, steps[0]);
    assert steps[1..][0] == steps[1] && steps[1..][1..] == [];
    assert Run(Next(one, steps[1]), [], Next(one, steps[1]));
    assert Run(one, steps[1..], Next(one, steps[1]));
  }
}
