/**
 * The one-off construction of the background's link graph
 * (src/components/Home.jsx): thirty glyphs are created, then every unordered
 * pair closer than 220 pixels is offered to the kind-compatibility rules, and
 * each link that is made may get one travelling pulse. The `Math.random()`
 * results consumed after the glyphs exist are the parameter `rng`: `rng(n)`
 * is the n-th of them.
 */
module Network {
  import opened BioEntities
  import opened DataFlows

  /** `const entityCount = 30` */
  const EntityCount := 30
  /** The link range 220, squared. */
  const LinkRangeSquared: real := 48400.0

  /** What the construction reads of a glyph. */
  datatype Placement = Placement(x: real, y: real, kind: Kind)

  function Placements(es: seq<BioEntity>): (ps: seq<Placement>)
    reads set e | e in es
    ensures |ps| == |es|
    ensures forall k :: 0 <= k < |es| ==> ps[k] == Placement(es[k].x, es[k].y, es[k].kind)
  {
    if es == [] then [] else [Placement(es[0].x, es[0].y, es[0].kind)] + Placements(es[1..])
  }

  /** `distance < 220`, compared squared. */
  predicate Near(a: Placement, b: Placement) {
    SquaredDistance(b.x, b.y, a.x, a.y) < LinkRangeSquared
  }

  // ---------------------------------------------------------------- the rules as written

  predicate Substrate(k: Kind) {
    k == Dna || k == Molecule
  }

  /** The seven `if` conditions of the construction loop, in source order, for `e1` and `e2`. */
  predicate HeartbeatRule(k1: Kind, k2: Kind) {
    (k1 == Heartbeat && Substrate(k2)) || (k2 == Heartbeat && Substrate(k1))
  }
  predicate SubstrateNeuronRule(k1: Kind, k2: Kind) {
    (k1 == Dna && k2 == Neuron) || (k2 == Dna && k1 == Neuron) ||
    (k1 == Molecule && k2 == Neuron) || (k2 == Molecule && k1 == Neuron)
  }
  predicate NeuronCloudRule(k1: Kind, k2: Kind) {
    (k1 == Neuron && k2 == Cloud) || (k2 == Neuron && k1 == Cloud)
  }
  predicate DnaMoleculeRule(k1: Kind, k2: Kind) {
    (k1 == Dna && k2 == Molecule) || (k2 == Dna && k1 == Molecule)
  }
  predicate HeartbeatPairRule(k1: Kind, k2: Kind) {
    k1 == Heartbeat && k2 == Heartbeat
  }
  predicate NeuronPairRule(k1: Kind, k2: Kind) {
    k1 == Neuron && k2 == Neuron
  }
  predicate CloudPairRule(k1: Kind, k2: Kind) {
    k1 == Cloud && k2 == Cloud
  }

  /** `shouldConnect` and how many draws were consumed to decide it. */
  datatype Decision = Decision(connect: bool, cursor: nat)

  /**
   * The `shouldConnect` if-chain in source order: each rule that holds
   * overwrites the flag, the probabilistic ones with `Math.random() > t`,
   * consuming a draw only when their condition holds.
   */
  function ShouldConnect(k1: Kind, k2: Kind, rng: nat -> real, cursor: nat): Decision {
    var s1 := if HeartbeatRule(k1, k2) then true else false;
    var s2 := if SubstrateNeuronRule(k1, k2) then true else s1;
    var s3 := if NeuronCloudRule(k1, k2) then true else s2;
    var d4 := if DnaMoleculeRule(k1, k2) then Decision(rng(cursor) > 0.3, cursor + 1) else Decision(s3, cursor);
    var d5 := if HeartbeatPairRule(k1, k2) then Decision(rng(d4.cursor) > 0.5, d4.cursor + 1) else d4;
    var d6 := if NeuronPairRule(k1, k2) then Decision(rng(d5.cursor) > 0.4, d5.cursor + 1) else d5;
    if CloudPairRule(k1, k2) then Decision(rng(d6.cursor) > 0.3, d6.cursor + 1) else d6
  }

  function Count(b: bool): nat {
    if b then 1 else 0
  }

  /** At most one of the seven conditions holds for any pair of kinds, so no rule overrides another. */
  lemma RuleConditionsDisjoint(k1: Kind, k2: Kind)
    ensures Count(HeartbeatRule(k1, k2)) + Count(SubstrateNeuronRule(k1, k2)) + Count(NeuronCloudRule(k1, k2))
          + Count(DnaMoleculeRule(k1, k2)) + Count(HeartbeatPairRule(k1, k2)) + Count(NeuronPairRule(k1, k2))
          + Count(CloudPairRule(k1, k2)) <= 1
  {
  }

  // ---------------------------------------------------------------- the reference table

  /** How a pair of kinds connects: always, iff the draw exceeds a threshold, or never. */
  datatype Rule = Always | Chance(threshold: real) | Never

  /** The compatibility table over unordered pairs of kinds. */
  function Eligibility(a: Kind, b: Kind): Rule {
    match (a, b)
      case (Heartbeat, Dna) | (Heartbeat, Molecule) | (Dna, Heartbeat) | (Molecule, Heartbeat) => Always
      case (Dna, Neuron) | (Molecule, Neuron) | (Neuron, Dna) | (Neuron, Molecule) => Always
      case (Neuron, Cloud) | (Cloud, Neuron) => Always
      case (Dna, Molecule) | (Molecule, Dna) => Chance(0.3)
      case (Heartbeat, Heartbeat) => Chance(0.5)
      case (Neuron, Neuron) => Chance(0.4)
      case (Cloud, Cloud) => Chance(0.3)
      case _ => Never
  }

  lemma EligibilitySymmetric(a: Kind, b: Kind)
    ensures Eligibility(a, b) == Eligibility(b, a)
  {
  }

  /** What the table gives for a decision drawn at `cursor`. */
  function Decide(r: Rule, rng: nat -> real, cursor: nat): Decision {
    match r
      case Always => Decision(true, cursor)
      case Chance(t) => Decision(rng(cursor) > t, cursor + 1)
      case Never => Decision(false, cursor)
  }

  /** The if-chain decides exactly as the table, consuming one draw for a probabilistic rule and none otherwise. */
  lemma ShouldConnectMatchesTable(k1: Kind, k2: Kind, rng: nat -> real, cursor: nat)
    ensures ShouldConnect(k1, k2, rng, cursor) == Decide(Eligibility(k1, k2), rng, cursor)
  {
  }

  /** `flowProbability`: 0.8 along the pipeline heartbeat → DNA/molecule → neuron → cloud, in index order. */
  function FlowProbability(k1: Kind, k2: Kind): (p: real)
    ensures p == 0.8 || p == 0.5
  {
    if (k1 == Heartbeat && Substrate(k2)) || (Substrate(k1) && k2 == Neuron) || (k1 == Neuron && k2 == Cloud)
    then 0.8 else 0.5
  }

  /**
   * The likely direction is decided by index order: an always-connecting pair
   * has 0.8 in exactly one of its two orders, and every other pair has 0.5.
   */
  lemma FlowProbabilityDirected(k1: Kind, k2: Kind)
    ensures FlowProbability(k1, k2) == 0.8 ==> Eligibility(k1, k2) == Always && FlowProbability(k2, k1) == 0.5
    ensures Eligibility(k1, k2) == Always ==> (FlowProbability(k1, k2) == 0.8 <==> FlowProbability(k2, k1) == 0.5)
    ensures Eligibility(k1, k2) != Always ==> FlowProbability(k1, k2) == 0.5
  {
  }

  // ---------------------------------------------------------------- the construction

  /** A `DataFlow` as constructed: its connection, `progress` and `speed`. */
  datatype FlowSeed = FlowSeed(link: Connection, progress: real, speed: real)

  /** The arrays `connections` and `dataFlows`, and how many draws have been consumed. */
  datatype Net = Net(links: seq<Connection>, flows: seq<FlowSeed>, cursor: nat)

  /** The body of the inner `forEach` for `e1 = ps[i]`, `e2 = ps[j]`. */
  function VisitPair(ps: seq<Placement>, i: nat, j: nat, rng: nat -> real, net: Net): Net
    requires i < j < |ps|
  {
    if !Near(ps[i], ps[j]) then net
    else
      var d := ShouldConnect(ps[i].kind, ps[j].kind, rng, net.cursor);
      if !d.connect then net.(cursor := d.cursor)
      else
        var link := Connection(i, j);
        if rng(d.cursor) < FlowProbability(ps[i].kind, ps[j].kind) then
          Net(net.links + [link], net.flows + [FlowSeed(link, rng(d.cursor + 1), MinSpeed + rng(d.cursor + 2) * SpeedSpread)],
              d.cursor + 3)
        else
          Net(net.links + [link], net.flows, d.cursor + 1)
  }

  /** `entities.slice(i + 1).forEach(...)` from `j` on. */
  function VisitRow(ps: seq<Placement>, i: nat, j: nat, rng: nat -> real, net: Net): Net
    requires i < j
    decreases |ps| - j
  {
    if j >= |ps| then net else VisitRow(ps, i, j + 1, rng, VisitPair(ps, i, j, rng, net))
  }

  /** `entities.forEach(...)` from `i` on. */
  function VisitFrom(ps: seq<Placement>, i: nat, rng: nat -> real, net: Net): Net
    decreases |ps| - i
  {
    if i >= |ps| then net else VisitFrom(ps, i + 1, rng, VisitRow(ps, i, i + 1, rng, net))
  }

  /** The links and pulses the construction produces. */
  function BuildSpec(ps: seq<Placement>, rng: nat -> real): Net {
    VisitFrom(ps, 0, rng, Net([], [], 0))
  }

  // ---------------------------------------------------------------- what the construction guarantees

  /** Pair `(a, b)` comes before pair `(i, j)` in the loops' order. */
  predicate Before(c: Connection, i: nat, j: nat) {
    c.e1 < i || (c.e1 == i && c.e2 < j)
  }

  predicate LexLess(c: Connection, d: Connection) {
    Before(c, d.e1, d.e2)
  }

  /** A link joins two different glyphs, the first visited first, in range, of kinds that may connect. */
  predicate LinkOk(ps: seq<Placement>, c: Connection) {
    c.e1 < c.e2 < |ps| && Near(ps[c.e1], ps[c.e2]) && Eligibility(ps[c.e1].kind, ps[c.e2].kind) != Never
  }

  predicate LinksOk(ps: seq<Placement>, links: seq<Connection>, i: nat, j: nat) {
    forall k :: 0 <= k < |links| ==> LinkOk(ps, links[k]) && Before(links[k], i, j)
  }

  predicate Increasing(cs: seq<Connection>) {
    forall k, m :: 0 <= k < m < |cs| ==> LexLess(cs[k], cs[m])
  }

  function FlowLinks(flows: seq<FlowSeed>): (cs: seq<Connection>)
    ensures |cs| == |flows| && forall k :: 0 <= k < |flows| ==> cs[k] == flows[k].link
  {
    if flows == [] then [] else [flows[0].link] + FlowLinks(flows[1..])
  }

  predicate FlowsOk(net: Net) {
    (forall k :: 0 <= k < |net.flows| ==> net.flows[k].link in net.links) && Increasing(FlowLinks(net.flows))
  }

  predicate SeedsInRange(flows: seq<FlowSeed>) {
    forall k :: 0 <= k < |flows| ==>
      0.0 <= flows[k].progress < 1.0 && MinSpeed <= flows[k].speed < MinSpeed + SpeedSpread
  }

  /** Every always-connecting pair in range visited before `(i, j)` is linked. */
  predicate CompleteBefore(ps: seq<Placement>, links: seq<Connection>, i: nat, j: nat) {
    forall a, b ::
      (0 <= a < b < |ps| && Before(Connection(a, b), i, j) && Near(ps[a], ps[b]) &&
       Eligibility(ps[a].kind, ps[b].kind) == Always) ==> Connection(a, b) in links
  }

  ghost predicate IsDrawSource(rng: nat -> real) {
    forall n :: 0.0 <= rng(n) < 1.0
  }

  /** The construction's invariant just before pair `(i, j)` is visited. */
  ghost predicate NetOk(ps: seq<Placement>, rng: nat -> real, net: Net, i: nat, j: nat) {
    && LinksOk(ps, net.links, i, j)
    && Increasing(net.links)
    && FlowsOk(net)
    && CompleteBefore(ps, net.links, i, j)
    && (IsDrawSource(rng) ==> SeedsInRange(net.flows))
  }

  /** A pair that gets no link keeps the invariant, unless it was owed one. */
  lemma NoLinkKeeps(ps: seq<Placement>, i: nat, j: nat, rng: nat -> real, net: Net, cursor: nat)
    requires i < j < |ps| && NetOk(ps, rng, net, i, j)
    requires !(Near(ps[i], ps[j]) && Eligibility(ps[i].kind, ps[j].kind) == Always)
    ensures NetOk(ps, rng, net.(cursor := cursor), i, j + 1)
  {
  }

  lemma AppendLinkKeepsOrder(ps: seq<Placement>, links: seq<Connection>, i: nat, j: nat)
    requires LinksOk(ps, links, i, j) && Increasing(links) && LinkOk(ps, Connection(i, j))
    ensures LinksOk(ps, links + [Connection(i, j)], i, j + 1) && Increasing(links + [Connection(i, j)])
  {
    assert forall k :: 0 <= k < |links| ==> LexLess(links[k], Connection(i, j));
  }

  lemma AppendLinkKeepsComplete(ps: seq<Placement>, links: seq<Connection>, i: nat, j: nat)
    requires j < |ps| && CompleteBefore(ps, links, i, j)
    ensures CompleteBefore(ps, links + [Connection(i, j)], i, j + 1)
  {
    assert Connection(i, j) in links + [Connection(i, j)];
    assert forall c :: c in links ==> c in links + [Connection(i, j)];
  }

  lemma AppendLinkKeepsFlows(net: Net, next: Net, link: Connection)
    requires FlowsOk(net) && LexLessAll(net.links, link)
    requires next.links == net.links + [link]
    requires next.flows == net.flows || (|next.flows| == |net.flows| + 1 && next.flows[..|net.flows|] == net.flows &&
                                         next.flows[|net.flows|].link == link)
    ensures FlowsOk(next)
  {
    assert forall c :: c in net.links ==> c in next.links;
    if next.flows != net.flows {
      assert next.flows == net.flows + [next.flows[|net.flows|]];
      assert FlowLinks(next.flows) == FlowLinks(net.flows) + [link];
      assert forall k :: 0 <= k < |net.flows| ==> LexLess(net.flows[k].link, link);
    }
  }

  predicate LexLessAll(cs: seq<Connection>, link: Connection) {
    forall k :: 0 <= k < |cs| ==> LexLess(cs[k], link)
  }

  /** Appending the link `(i, j)`, with or without its pulse, keeps the invariant. */
  lemma LinkKeeps(ps: seq<Placement>, i: nat, j: nat, rng: nat -> real, net: Net, next: Net)
    requires i < j < |ps| && NetOk(ps, rng, net, i, j)
    requires LinkOk(ps, Connection(i, j))
    requires next.links == net.links + [Connection(i, j)]
    requires next.flows == net.flows || (|next.flows| == |net.flows| + 1 && next.flows[..|net.flows|] == net.flows &&
                                         next.flows[|net.flows|].link == Connection(i, j))
    requires IsDrawSource(rng) ==> SeedsInRange(next.flows)
    ensures NetOk(ps, rng, next, i, j + 1)
  {
    AppendLinkKeepsOrder(ps, net.links, i, j);
    AppendLinkKeepsComplete(ps, net.links, i, j);
    assert LexLessAll(net.links, Connection(i, j));
    AppendLinkKeepsFlows(net, next, Connection(i, j));
  }

  lemma VisitPairKeeps(ps: seq<Placement>, i: nat, j: nat, rng: nat -> real, net: Net)
    requires i < j < |ps| && NetOk(ps, rng, net, i, j)
    ensures NetOk(ps, rng, VisitPair(ps, i, j, rng, net), i, j + 1)
  {
    var next := VisitPair(ps, i, j, rng, net);
    if !Near(ps[i], ps[j]) {
      NoLinkKeeps(ps, i, j, rng, net, net.cursor);
      assert next == net.(cursor := net.cursor);
      return;
    }
    var d := ShouldConnect(ps[i].kind, ps[j].kind, rng, net.cursor);
    ShouldConnectMatchesTable(ps[i].kind, ps[j].kind, rng, net.cursor);
    if !d.connect {
      NoLinkKeeps(ps, i, j, rng, net, d.cursor);
    } else {
      LinkKeeps(ps, i, j, rng, net, next);
    }
  }

  lemma {:induction false} VisitRowKeeps(ps: seq<Placement>, i: nat, j: nat, rng: nat -> real, net: Net)
    requires i < j && i < |ps| && NetOk(ps, rng, net, i, j)
    ensures NetOk(ps, rng, VisitRow(ps, i, j, rng, net), i + 1, i + 2)
    decreases |ps| - j
  {
    if j >= |ps| {
      assert forall k :: 0 <= k < |net.links| ==> Before(net.links[k], i + 1, i + 2);
    } else {
      VisitPairKeeps(ps, i, j, rng, net);
      VisitRowKeeps(ps, i, j + 1, rng, VisitPair(ps, i, j, rng, net));
    }
  }

  lemma {:induction false} VisitFromKeeps(ps: seq<Placement>, i: nat, rng: nat -> real, net: Net)
    requires NetOk(ps, rng, net, i, i + 1)
    ensures NetOk(ps, rng, VisitFrom(ps, i, rng, net), |ps|, |ps| + 1)
    decreases |ps| - i
  {
    if i >= |ps| {
      assert forall k :: 0 <= k < |net.links| ==> Before(net.links[k], |ps|, |ps| + 1);
    } else {
      VisitRowKeeps(ps, i, i + 1, rng, net);
      VisitFromKeeps(ps, i + 1, rng, VisitRow(ps, i, i + 1, rng, net));
    }
  }

  /**
   * What the construction guarantees: each link joins an in-range pair `i < j`
   * whose kinds may connect, links appear in the loops' order (so no pair is
   * linked twice and no glyph to itself), every in-range always-connecting pair
   * is linked, pulses sit on distinct links, and their progress and speed lie
   * in the ranges the draws allow.
   */
  lemma BuildSpecGuarantees(ps: seq<Placement>, rng: nat -> real)
    ensures forall k :: 0 <= k < |BuildSpec(ps, rng).links| ==> LinkOk(ps, BuildSpec(ps, rng).links[k])
    ensures Increasing(BuildSpec(ps, rng).links)
    ensures forall a, b :: 0 <= a < b < |ps| && Near(ps[a], ps[b]) && Eligibility(ps[a].kind, ps[b].kind) == Always ==>
      Connection(a, b) in BuildSpec(ps, rng).links
    ensures FlowsOk(BuildSpec(ps, rng))
    ensures IsDrawSource(rng) ==> SeedsInRange(BuildSpec(ps, rng).flows)
  {
    var net := BuildSpec(ps, rng);
    VisitFromKeeps(ps, 0, rng, Net([], [], 0));
    forall a, b | 0 <= a < b < |ps| && Near(ps[a], ps[b]) && Eligibility(ps[a].kind, ps[b].kind) == Always
      ensures Connection(a, b) in net.links
    {
      assert Before(Connection(a, b), |ps|, |ps| + 1);
    }
  }

  /** Links in loop order are pairwise different. */
  lemma IncreasingMeansDistinct(cs: seq<Connection>)
    requires Increasing(cs)
    ensures forall k, m :: 0 <= k < m < |cs| ==> cs[k] != cs[m]
  {
  }

  /**
   * Index order decides the pulse: a heartbeat next to a DNA strand, with every
   * draw 0.6, is linked either way, but gets a pulse only when the heartbeat
   * comes first (0.6 < 0.8, but not < 0.5).
   */
  lemma PulseDependsOnOrder()
    ensures BuildSpec([Placement(0.0, 0.0, Heartbeat), Placement(100.0, 0.0, Dna)], (n: nat) => 0.6)
         == Net([Connection(0, 1)], [FlowSeed(Connection(0, 1), 0.6, 0.0042)], 3)
    ensures BuildSpec([Placement(0.0, 0.0, Dna), Placement(100.0, 0.0, Heartbeat)], (n: nat) => 0.6)
         == Net([Connection(0, 1)], [], 1)
  {
    var ps1 := [Placement(0.0, 0.0, Heartbeat), Placement(100.0, 0.0, Dna)];
    var ps2 := [Placement(0.0, 0.0, Dna), Placement(100.0, 0.0, Heartbeat)];
    var rng := (n: nat) => 0.6;
    assert Near(ps1[0], ps1[1]) && Near(ps2[0], ps2[1]);
    assert VisitRow(ps1, 1, 2, rng, VisitRow(ps1, 0, 1, rng, Net([], [], 0))) == VisitRow(ps1, 0, 1, rng, Net([], [], 0));
    assert VisitRow(ps2, 1, 2, rng, VisitRow(ps2, 0, 1, rng, Net([], [], 0))) == VisitRow(ps2, 0, 1, rng, Net([], [], 0));
  }

  // ---------------------------------------------------------------- the imperative construction

  /** The glyph loop: `for (let i = 0; i < entityCount; i++) entities.push(new BioEntity())`. */
  method CreateEntities(width: real, height: real, draws: seq<EntityDraws>) returns (entities: seq<BioEntity>)
    requires |draws| == EntityCount && forall k :: 0 <= k < |draws| ==> ValidDraws(draws[k])
    ensures |entities| == EntityCount
    ensures forall k :: 0 <= k < |entities| ==> fresh(entities[k])
    ensures forall k, m :: 0 <= k < m < |entities| ==> entities[k] != entities[m]
    ensures forall k :: 0 <= k < |entities| ==>
      entities[k].x == draws[k].x * width && entities[k].y == draws[k].y * height &&
      ValidDraws(draws[k]) && entities[k].kind == KindFromDraw(draws[k].kind)
  {
    entities := [];
    for i := 0 to EntityCount
      invariant |entities| == i
      invariant forall k :: 0 <= k < i ==> fresh(entities[k])
      invariant forall k, m :: 0 <= k < m < i ==> entities[k] != entities[m]
      invariant forall k :: 0 <= k < i ==>
        entities[k].x == draws[k].x * width && entities[k].y == draws[k].y * height &&
        entities[k].kind == KindFromDraw(draws[k].kind)
    {
      var e := new BioEntity(width, height, draws[i]);
      entities := entities + [e];
    }
  }

  /** The constructed values of a list of pulses. */
  ghost function Seeds(flows: seq<DataFlow>): (seeds: seq<FlowSeed>)
    reads set f | f in flows
    ensures |seeds| == |flows|
  {
    if flows == [] then [] else [FlowSeed(flows[0].link, flows[0].progress, flows[0].speed)] + Seeds(flows[1..])
  }

  /** Pushing a pulse appends its constructed values. */
  lemma {:induction false} SeedsAppend(flows: seq<DataFlow>, f: DataFlow)
    ensures Seeds(flows + [f]) == Seeds(flows) + [FlowSeed(f.link, f.progress, f.speed)]
  {
    if flows != [] {
      assert (flows + [f])[1..] == flows[1..] + [f];
      SeedsAppend(flows[1..], f);
    }
  }

  /** The body of the inner `forEach` for `e1 = ps[i]`, `e2 = ps[j]`, pushing onto the two arrays. */
  method ConnectPair(ps: seq<Placement>, i: nat, j: nat, rng: nat -> real, cursor: nat,
                     connections: seq<Connection>, dataFlows: seq<DataFlow>, ghost seeds: seq<FlowSeed>)
    returns (connections': seq<Connection>, dataFlows': seq<DataFlow>, cursor': nat)
    requires i < j < |ps| && Distinct(dataFlows) && seeds == Seeds(dataFlows)
    ensures Net(connections', Seeds(dataFlows'), cursor') == VisitPair(ps, i, j, rng, Net(connections, seeds, cursor))
    ensures Distinct(dataFlows')
    ensures forall k :: 0 <= k < |dataFlows'| ==> dataFlows'[k] in dataFlows || fresh(dataFlows'[k])
  {
    ghost var net := Net(connections, seeds, cursor);
    connections', dataFlows', cursor' := connections, dataFlows, cursor;
    if !Near(ps[i], ps[j]) {
      assert VisitPair(ps, i, j, rng, net) == net;
      return;
    }
    var d := ShouldConnect(ps[i].kind, ps[j].kind, rng, cursor);
    cursor' := d.cursor;
    if !d.connect {
      assert VisitPair(ps, i, j, rng, net) == net.(cursor := d.cursor);
      return;
    }
    var connection := Connection(i, j);
    connections' := connections + [connection];
    var flowProbability := FlowProbability(ps[i].kind, ps[j].kind);
    var draw := rng(cursor');
    cursor' := cursor' + 1;
    if draw < flowProbability {
      var flow := new DataFlow(connection, rng(cursor'), rng(cursor' + 1));
      cursor' := cursor' + 2;
      dataFlows' := dataFlows + [flow];
      assert flow !in dataFlows;
      SeedsAppend(dataFlows, flow);
      assert Seeds(dataFlows') == net.flows + [FlowSeed(connection, rng(d.cursor + 1), MinSpeed + rng(d.cursor + 2) * SpeedSpread)];
      assert VisitPair(ps, i, j, rng, net) == Net(connections', Seeds(dataFlows'), cursor');
    } else {
      assert VisitPair(ps, i, j, rng, net) == Net(connections', net.flows, cursor');
    }
  }

  predicate Distinct(flows: seq<DataFlow>) {
    forall k, m :: 0 <= k < m < |flows| ==> flows[k] != flows[m]
  }

  /** The inner `entities.slice(i + 1).forEach(...)` for `e1 = ps[i]`. */
  method ConnectRow(ps: seq<Placement>, i: nat, rng: nat -> real, cursor: nat,
                    connections: seq<Connection>, dataFlows: seq<DataFlow>, ghost seeds: seq<FlowSeed>)
    returns (connections': seq<Connection>, dataFlows': seq<DataFlow>, cursor': nat)
    requires i < |ps| && Distinct(dataFlows) && seeds == Seeds(dataFlows)
    ensures Net(connections', Seeds(dataFlows'), cursor') == VisitRow(ps, i, i + 1, rng, Net(connections, seeds, cursor))
    ensures Distinct(dataFlows')
    ensures forall k :: 0 <= k < |dataFlows'| ==> dataFlows'[k] in dataFlows || fresh(dataFlows'[k])
  {
    ghost var goal := VisitRow(ps, i, i + 1, rng, Net(connections, seeds, cursor));
    connections', dataFlows', cursor' := connections, dataFlows, cursor;
    ghost var net := Net(connections, seeds, cursor);
    var j := i + 1;
    while j < |ps|
      invariant i < j <= |ps|
      invariant VisitRow(ps, i, j, rng, net) == goal
      invariant net == Net(connections', Seeds(dataFlows'), cursor')
      invariant Distinct(dataFlows')
      invariant forall k :: 0 <= k < |dataFlows'| ==> dataFlows'[k] in dataFlows || fresh(dataFlows'[k])
    {
      connections', dataFlows', cursor' := ConnectPair(ps, i, j, rng, cursor', connections', dataFlows', net.flows);
      net := VisitPair(ps, i, j, rng, net);
      j := j + 1;
    }
  }

  /**
   * The nested `forEach` over `entities` and `entities.slice(i + 1)`: it
   * produces exactly the links and pulses of `BuildSpec`, as distinct
   * `DataFlow` objects.
   */
  method BuildNetwork(entities: seq<BioEntity>, rng: nat -> real)
    returns (connections: seq<Connection>, dataFlows: seq<DataFlow>)
    ensures connections == BuildSpec(Placements(entities), rng).links
    ensures Seeds(dataFlows) == BuildSpec(Placements(entities), rng).flows
    ensures Distinct(dataFlows)
    ensures forall k :: 0 <= k < |dataFlows| ==> fresh(dataFlows[k])
  {
    var ps := Placements(entities);
    connections, dataFlows := [], [];
    var cursor := 0;
    var i := 0;
    while i < |ps|
      invariant i <= |ps|
      invariant VisitFrom(ps, i, rng, Net(connections, Seeds(dataFlows), cursor)) == BuildSpec(ps, rng)
      invariant Distinct(dataFlows)
      invariant forall k :: 0 <= k < |dataFlows| ==> fresh(dataFlows[k])
    {
      connections, dataFlows, cursor := ConnectRow(ps, i, rng, cursor, connections, dataFlows, Seeds(dataFlows));
      i := i + 1;
    }
  }
}
