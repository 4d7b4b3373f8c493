/** The label propagation of services/gnn_service.py, GNNService.auto_tag_metadata: up to ten passes in
    which every untagged node takes the label most common among its neighbours, in place. */
module LabelPropagation {
  import opened Prelude

  type Node(==, !new)
  type Label(==, !new)

  /** An undirected graph as its nodes in order, each with its neighbours in order. */
  datatype Graph = Graph(nodes: seq<Node>, neighbours: map<Node, seq<Node>>)

  type Labels = map<Node, Label>

  datatype Progress = Progress(labels: Labels, updates: Labels, changes: nat)

  const MAX_PASSES: nat := 10

  ghost predicate Undirected(g: Graph) {
    && Distinct(g.nodes) && (forall v :: v in g.neighbours <==> v in g.nodes)
    && (forall v :: v in g.neighbours ==> Distinct(g.neighbours[v]))
    && (forall v, w :: v in g.neighbours && w in g.neighbours[v] ==> w in g.neighbours && v in g.neighbours[w])
  }

  // ---------------------------------------------------------------- voting

  function Known(labels: Labels, nodes: seq<Node>): seq<Label> {
    if nodes == [] then [] else
      var rest, last := Known(labels, nodes[..|nodes| - 1]), nodes[|nodes| - 1];
      if last in labels then rest + [labels[last]] else rest
  }

  function Votes(g: Graph, labels: Labels, v: Node): seq<Label> {
    if v in g.neighbours then Known(labels, g.neighbours[v]) else []
  }

  /** Among the first k votes, the first one that most of all the votes are for. */
  function Leading(votes: seq<Label>, k: nat): (l: Label)
    requires 0 < k <= |votes|
    ensures l in votes
  {
    if k == 1 then votes[0] else
      var before := Leading(votes, k - 1);
      if multiset(votes)[votes[k - 1]] > multiset(votes)[before] then votes[k - 1] else before
  }

  /** Counter(votes).most_common(1): the label with the most votes, the first met among equals. */
  function MostCommon(votes: seq<Label>): (l: Label)
    requires votes != []
    ensures l in votes
  {
    Leading(votes, |votes|)
  }

  ghost predicate Plurality(votes: seq<Label>, l: Label) {
    l in votes && forall m :: m in votes ==> multiset(votes)[m] <= multiset(votes)[l]
  }

  lemma {:induction false} LeadingLeads(votes: seq<Label>, k: nat)
    requires 0 < k <= |votes|
    ensures forall i :: 0 <= i < k ==> multiset(votes)[votes[i]] <= multiset(votes)[Leading(votes, k)]
    ensures Leading(votes, k) in votes[..k]
  {
    if k > 1 {
      LeadingLeads(votes, k - 1);
      assert votes[..k] == votes[..k - 1] + [votes[k - 1]];
    }
  }

  /** It is a plurality label. */
  lemma MostCommonWins(votes: seq<Label>)
    requires votes != []
    ensures Plurality(votes, MostCommon(votes))
  {
    LeadingLeads(votes, |votes|);
  }

  lemma {:induction false} LeadingFirst(votes: seq<Label>, k: nat, i: nat)
    requires i < k <= |votes| && multiset(votes)[votes[i]] == multiset(votes)[Leading(votes, k)]
    ensures IndexOf(votes, Leading(votes, k)) <= i
  {
    LeadingLeads(votes, k);
    if k > 1 && Leading(votes, k) == Leading(votes, k - 1) && i < k - 1 {
      LeadingFirst(votes, k - 1, i);
    } else if k > 1 && i < k - 1 {
      LeadingLeads(votes, k - 1);
    } else if k > 1 && Leading(votes, k) == Leading(votes, k - 1) {
      LeadingLeads(votes, k - 1);
      IndexWithin(votes, Leading(votes, k), k - 1);
    }
  }

  lemma {:induction false} IndexWithin(votes: seq<Label>, l: Label, k: nat)
    requires k <= |votes| && l in votes[..k]
    ensures l in votes && IndexOf(votes, l) < k
  {
    var first := IndexOf(votes, l);
    assert forall i :: 0 <= i < first ==> votes[..first][i] != l;
  }

  /** The winner is decided by the counts, and on equal counts by which label was met first. */
  lemma MostCommonExactly(votes: seq<Label>, l: Label)
    requires votes != []
    ensures l == MostCommon(votes) <==>
            Plurality(votes, l) && forall m :: Plurality(votes, m) ==> IndexOf(votes, l) <= IndexOf(votes, m)
  {
    var w := MostCommon(votes);
    MostCommonWins(votes);
    forall m | Plurality(votes, m)
      ensures IndexOf(votes, w) <= IndexOf(votes, m)
    {
      assert votes[IndexOf(votes, m)] == m;
      LeadingFirst(votes, |votes|, IndexOf(votes, m));
    }
    if Plurality(votes, l) && forall m :: Plurality(votes, m) ==> IndexOf(votes, l) <= IndexOf(votes, m) {
      assert IndexOf(votes, l) == IndexOf(votes, w);
      assert votes[IndexOf(votes, l)] == l && votes[IndexOf(votes, w)] == w;
    }
  }

  // ---------------------------------------------------------------- passes

  function Visit(g: Graph, p: Progress, v: Node): Progress {
    var votes := Votes(g, p.labels, v);
    if votes == [] then p else
      var l := MostCommon(votes);
      if v in p.labels && p.labels[v] == l then p
      else Progress(p.labels[v := l], p.updates[v := l], p.changes + 1)
  }

  function Sweep(g: Graph, p: Progress, nodes: seq<Node>): Progress {
    if nodes == [] then p else Visit(g, Sweep(g, p, nodes[..|nodes| - 1]), nodes[|nodes| - 1])
  }

  function Pass(g: Graph, p: Progress, untagged: seq<Node>): Progress {
    Sweep(g, p.(changes := 0), untagged)
  }

  function Passes(g: Graph, p: Progress, untagged: seq<Node>, n: nat): Progress
    decreases n
  {
    if n == 0 then p else
      var q := Pass(g, p, untagged);
      if q.changes == 0 then q else Passes(g, q, untagged, n - 1)
  }

  function Start(seeds: Labels): Progress {
    Progress(seeds, map[], 0)
  }

  function Untagged(g: Graph, seeds: Labels): (u: seq<Node>)
    ensures forall v :: v in u <==> v in g.nodes && v !in seeds
  {
    Filter(g.nodes, seeds)
  }

  function Filter(nodes: seq<Node>, seeds: Labels): (u: seq<Node>)
    ensures forall v :: v in u <==> v in nodes && v !in seeds
  {
    if nodes == [] then [] else
      var rest, last := Filter(nodes[..|nodes| - 1], seeds), nodes[|nodes| - 1];
      assert nodes == nodes[..|nodes| - 1] + [last];
      if last in seeds then rest else rest + [last]
  }

  function Inferred(g: Graph, seeds: Labels): Progress {
    Passes(g, Start(seeds), Untagged(g, seeds), MAX_PASSES)
  }

  // ---------------------------------------------------------------- where labels come from

  /** p runs from a seed labelled l along edges, through no other seed, to v. */
  ghost predicate Carries(g: Graph, seeds: Labels, p: seq<Node>, v: Node, l: Label) {
    && p != [] && p[|p| - 1] == v && p[0] in seeds && seeds[p[0]] == l
    && (forall i :: 0 < i < |p| ==> p[i] !in seeds && p[i] in g.neighbours)
    && (forall i :: 0 < i < |p| ==> p[i - 1] in g.neighbours[p[i]])
  }

  ghost predicate Sourced(g: Graph, seeds: Labels, v: Node, l: Label) {
    exists p :: Carries(g, seeds, p, v, l)
  }

  ghost predicate AllSourced(g: Graph, seeds: Labels, labels: Labels) {
    forall v :: v in labels ==> Sourced(g, seeds, v, labels[v])
  }

  /** Seeds keep their labels, the updates are the rest, and every label reached its node from a seed. */
  ghost predicate Sound(g: Graph, seeds: Labels, p: Progress) {
    p.labels == seeds + p.updates && p.updates.Keys !! seeds.Keys && AllSourced(g, seeds, p.labels)
  }

  lemma {:induction false} KnownFrom(labels: Labels, nodes: seq<Node>, l: Label)
    ensures l in Known(labels, nodes) <==> exists n :: n in nodes && n in labels && labels[n] == l
  {
    if nodes == [] {
    } else {
      var init, last := nodes[..|nodes| - 1], nodes[|nodes| - 1];
      assert nodes == init + [last];
      KnownFrom(labels, init, l);
    }
  }

  lemma Extend(g: Graph, seeds: Labels, n: Node, v: Node, l: Label)
    requires Sourced(g, seeds, n, l) && v !in seeds && v in g.neighbours && n in g.neighbours[v]
    ensures Sourced(g, seeds, v, l)
  {
    var p :| Carries(g, seeds, p, n, l);
    assert Carries(g, seeds, p + [v], v, l);
  }

  lemma WinnerSourced(g: Graph, seeds: Labels, labels: Labels, v: Node)
    requires AllSourced(g, seeds, labels) && v !in seeds && Votes(g, labels, v) != []
    ensures Sourced(g, seeds, v, MostCommon(Votes(g, labels, v)))
  {
    var l := MostCommon(Votes(g, labels, v));
    KnownFrom(labels, g.neighbours[v], l);
    var n :| n in g.neighbours[v] && n in labels && labels[n] == l;
    Extend(g, seeds, n, v, l);
  }

  lemma RelabelSourced(g: Graph, seeds: Labels, labels: Labels, v: Node, l: Label)
    requires AllSourced(g, seeds, labels) && Sourced(g, seeds, v, l)
    ensures AllSourced(g, seeds, labels[v := l])
  {
    var after := labels[v := l];
    forall w | w in after
      ensures Sourced(g, seeds, w, after[w])
    {
      assert w == v || after[w] == labels[w];
    }
  }

  lemma UpdateOver(seeds: Labels, updates: Labels, v: Node, l: Label)
    requires v !in seeds && updates.Keys !! seeds.Keys
    ensures (seeds + updates)[v := l] == seeds + updates[v := l] && updates[v := l].Keys !! seeds.Keys
  {
    assert updates[v := l].Keys == updates.Keys + {v};
  }

  lemma RelabelSound(g: Graph, seeds: Labels, p: Progress, v: Node, l: Label, changes: nat)
    requires Sound(g, seeds, p) && v !in seeds && Sourced(g, seeds, v, l)
    ensures Sound(g, seeds, Progress(p.labels[v := l], p.updates[v := l], changes))
  {
    UpdateOver(seeds, p.updates, v, l);
    RelabelSourced(g, seeds, p.labels, v, l);
  }

  lemma VisitSound(g: Graph, seeds: Labels, p: Progress, v: Node)
    requires Sound(g, seeds, p) && v !in seeds
    ensures Sound(g, seeds, Visit(g, p, v))
  {
    if Visit(g, p, v) != p {
      WinnerSourced(g, seeds, p.labels, v);
      RelabelSound(g, seeds, p, v, MostCommon(Votes(g, p.labels, v)), p.changes + 1);
    }
  }

  lemma {:induction false} SweepSound(g: Graph, seeds: Labels, p: Progress, nodes: seq<Node>)
    requires Sound(g, seeds, p) && forall v :: v in nodes ==> v !in seeds
    ensures Sound(g, seeds, Sweep(g, p, nodes))
  {
    if nodes == [] {
    } else {
      SweepSound(g, seeds, p, nodes[..|nodes| - 1]);
      VisitSound(g, seeds, Sweep(g, p, nodes[..|nodes| - 1]), nodes[|nodes| - 1]);
    }
  }

  lemma {:induction false} PassesSound(g: Graph, seeds: Labels, p: Progress, untagged: seq<Node>, n: nat)
    requires Sound(g, seeds, p) && forall v :: v in untagged ==> v !in seeds
    ensures Sound(g, seeds, Passes(g, p, untagged, n))
    decreases n
  {
    if n == 0 {
    } else {
      SweepSound(g, seeds, p.(changes := 0), untagged);
      PassesSound(g, seeds, Pass(g, p, untagged), untagged, n - 1);
    }
  }

  lemma StartSound(g: Graph, seeds: Labels)
    ensures Sound(g, seeds, Start(seeds))
  {
    forall v | v in seeds
      ensures Sourced(g, seeds, v, seeds[v])
    {
      assert Carries(g, seeds, [v], v, seeds[v]);
    }
  }

  /** Seeds never change, and every inferred label is that of a seed joined to the node by a path of
      untagged nodes. */
  lemma InferredFromSeeds(g: Graph, seeds: Labels)
    ensures Sound(g, seeds, Inferred(g, seeds))
  {
    StartSound(g, seeds);
    PassesSound(g, seeds, Start(seeds), Untagged(g, seeds), MAX_PASSES);
  }

  // ---------------------------------------------------------------- how far labels get

  /** v is a seed or at most d edges away from one. */
  ghost predicate Within(g: Graph, seeds: Labels, v: Node, d: nat) {
    || v in seeds
    || (d > 0 && v in g.neighbours && exists n :: n in g.neighbours[v] && Within(g, seeds, n, d - 1))
  }

  ghost predicate Joined(g: Graph, seeds: Labels, v: Node) {
    exists d: nat :: Within(g, seeds, v, d)
  }

  ghost predicate Covers(g: Graph, seeds: Labels, labels: Labels, d: nat) {
    forall v :: Within(g, seeds, v, d) ==> v in labels
  }

  lemma VotesKnown(g: Graph, labels: Labels, v: Node)
    requires v in g.neighbours && exists n :: n in g.neighbours[v] && n in labels
    ensures Votes(g, labels, v) != []
  {
    var n :| n in g.neighbours[v] && n in labels;
    KnownFrom(labels, g.neighbours[v], labels[n]);
  }

  lemma {:induction false} SweepLabels(g: Graph, p: Progress, nodes: seq<Node>)
    ensures p.labels.Keys <= Sweep(g, p, nodes).labels.Keys
    ensures forall v :: v in nodes && v in g.neighbours && (exists n :: n in g.neighbours[v] && n in p.labels) ==>
                          v in Sweep(g, p, nodes).labels
  {
    if nodes == [] {
    } else {
      var init, last := nodes[..|nodes| - 1], nodes[|nodes| - 1];
      assert nodes == init + [last];
      SweepLabels(g, p, init);
      if last in g.neighbours && exists n :: n in g.neighbours[last] && n in p.labels {
        VotesKnown(g, Sweep(g, p, init).labels, last);
      }
    }
  }

  ghost predicate Complete(g: Graph, seeds: Labels, untagged: seq<Node>) {
    forall v :: v in g.neighbours ==> v in seeds || v in untagged
  }

  lemma PassReaches(g: Graph, seeds: Labels, p: Progress, untagged: seq<Node>, d: nat)
    requires Complete(g, seeds, untagged) && seeds.Keys <= p.labels.Keys && Covers(g, seeds, p.labels, d)
    ensures Covers(g, seeds, Pass(g, p, untagged).labels, d + 1)
  {
    SweepLabels(g, p.(changes := 0), untagged);
  }

  lemma {:induction false} SettledCovers(g: Graph, seeds: Labels, p: Progress, untagged: seq<Node>, d: nat)
    requires Complete(g, seeds, untagged) && seeds.Keys <= p.labels.Keys && Pass(g, p, untagged).labels == p.labels
    ensures Covers(g, seeds, p.labels, d)
  {
    if d == 0 {
    } else {
      SettledCovers(g, seeds, p, untagged, d - 1);
      PassReaches(g, seeds, p, untagged, d - 1);
    }
  }

  lemma {:induction false} PassesReach(g: Graph, seeds: Labels, p: Progress, untagged: seq<Node>, d: nat, n: nat)
    requires Complete(g, seeds, untagged) && seeds.Keys <= p.labels.Keys && Covers(g, seeds, p.labels, d)
    ensures Covers(g, seeds, Passes(g, p, untagged, n).labels, d + n)
    decreases n
  {
    if n == 0 {
    } else {
      var q := Pass(g, p, untagged);
      SweepLabels(g, p.(changes := 0), untagged);
      if q.changes == 0 {
        QuietPass(g, p, untagged);
        SettledCovers(g, seeds, p, untagged, d + n);
      } else {
        PassReaches(g, seeds, p, untagged, d);
        PassesReach(g, seeds, q, untagged, d + 1, n - 1);
      }
    }
  }

  lemma {:induction false} QuietSweep(g: Graph, p: Progress, nodes: seq<Node>)
    ensures Sweep(g, p, nodes).changes >= p.changes
    ensures Sweep(g, p, nodes).changes == p.changes ==>
              Sweep(g, p, nodes) == p && forall v :: v in nodes ==> Visit(g, p, v) == p
  {
    if nodes == [] {
    } else {
      var init, last := nodes[..|nodes| - 1], nodes[|nodes| - 1];
      assert nodes == init + [last];
      QuietSweep(g, p, init);
    }
  }

  lemma QuietPass(g: Graph, p: Progress, untagged: seq<Node>)
    requires Pass(g, p, untagged).changes == 0
    ensures Pass(g, p, untagged) == p.(changes := 0)
    ensures forall v :: v in untagged ==> Visit(g, p.(changes := 0), v) == p.(changes := 0)
  {
    QuietSweep(g, p.(changes := 0), untagged);
  }

  lemma {:induction false} CarriedWithin(g: Graph, seeds: Labels, p: seq<Node>, v: Node, l: Label)
    requires Carries(g, seeds, p, v, l)
    ensures Within(g, seeds, v, |p| - 1)
  {
    if |p| > 1 {
      var before := p[..|p| - 1];
      assert Carries(g, seeds, before, p[|p| - 2], l);
      CarriedWithin(g, seeds, before, p[|p| - 2], l);
    }
  }

  lemma LabelledJoined(g: Graph, seeds: Labels, p: Progress, v: Node)
    requires Sound(g, seeds, p) && v in p.labels
    ensures Joined(g, seeds, v)
  {
    var path :| Carries(g, seeds, path, v, p.labels[v]);
    CarriedWithin(g, seeds, path, v, p.labels[v]);
  }

  /** Another pass would change nothing. */
  ghost predicate Settled(g: Graph, p: Progress, untagged: seq<Node>) {
    Pass(g, p, untagged).changes == 0
  }

  /** In a settled state the labelled nodes are exactly those joined to a seed, and every untagged node
      with a labelled neighbour carries the plurality label of its neighbours. */
  lemma SettledExactly(g: Graph, seeds: Labels, p: Progress, untagged: seq<Node>, v: Node)
    requires Complete(g, seeds, untagged) && Sound(g, seeds, p) && Settled(g, p, untagged)
    ensures v in p.labels <==> Joined(g, seeds, v)
    ensures v in untagged && Votes(g, p.labels, v) != [] ==>
              v in p.labels && Plurality(Votes(g, p.labels, v), p.labels[v])
  {
    QuietPass(g, p, untagged);
    if v in p.labels {
      LabelledJoined(g, seeds, p, v);
    }
    if Joined(g, seeds, v) {
      var d: nat :| Within(g, seeds, v, d);
      SettledCovers(g, seeds, p, untagged, d);
    }
    if v in untagged && Votes(g, p.labels, v) != [] {
      assert Visit(g, p.(changes := 0), v) == p.(changes := 0);
      MostCommonWins(Votes(g, p.labels, v));
    }
  }

  lemma {:induction false} PassesSettle(g: Graph, p: Progress, untagged: seq<Node>, n: nat)
    requires n > 0
    ensures Passes(g, p, untagged, n).changes == 0 ==> Settled(g, Passes(g, p, untagged, n), untagged)
    decreases n
  {
    var q := Pass(g, p, untagged);
    if q.changes == 0 {
      QuietPass(g, p, untagged);
    } else if n > 1 {
      PassesSettle(g, q, untagged, n - 1);
    }
  }

  /** Only nodes joined to a seed are ever labelled, all those within ten edges of one are, and if the
      last pass changed nothing the result is settled. */
  lemma InferredReach(g: Graph, seeds: Labels, v: Node)
    requires v in g.nodes && forall w :: w in g.neighbours ==> w in g.nodes
    ensures v in Inferred(g, seeds).labels ==> Joined(g, seeds, v)
    ensures Within(g, seeds, v, 10) ==> v in Inferred(g, seeds).labels
    ensures Inferred(g, seeds).changes == 0 ==> Settled(g, Inferred(g, seeds), Untagged(g, seeds))
  {
    InferredFromSeeds(g, seeds);
    if v in Inferred(g, seeds).labels {
      LabelledJoined(g, seeds, Inferred(g, seeds), v);
    }
    PassesReach(g, seeds, Start(seeds), Untagged(g, seeds), 0, MAX_PASSES);
    PassesSettle(g, Start(seeds), Untagged(g, seeds), MAX_PASSES);
  }

  // ---------------------------------------------------------------- one visit and one sweep

  /** The votes are the labels of the labelled neighbours, in the neighbours' order. */
  lemma {:induction false} KnownInOrder(labels: Labels, a: seq<Node>, b: seq<Node>)
    ensures Known(labels, a + b) == Known(labels, a) + Known(labels, b)
  {
    if b == [] {
      assert a + b == a;
    } else {
      assert (a + b)[..|a + b| - 1] == a + b[..|b| - 1];
      KnownInOrder(labels, a, b[..|b| - 1]);
    }
  }

  lemma KnownOne(labels: Labels, v: Node)
    ensures Known(labels, [v]) == if v in labels then [labels[v]] else []
  {
    assert [v][..0] == [] && Known(labels, []) == [];
  }

  /** A node visited takes the label most of its labelled neighbours carry, the first met of several, and that
      counts as a change and an update if it is not the label it has; without labelled neighbours, and for
      all other nodes, nothing changes. */
  lemma VisitOutcome(g: Graph, p: Progress, v: Node)
    ensures
      var q, votes := Visit(g, p, v), if v in g.neighbours then Known(p.labels, g.neighbours[v]) else [];
      if votes == [] then q == p
      else
        exists l ::
          && Plurality(votes, l) && (forall m :: Plurality(votes, m) ==> IndexOf(votes, l) <= IndexOf(votes, m))
          && q == if v in p.labels && p.labels[v] == l then p
                  else Progress(p.labels[v := l], p.updates[v := l], p.changes + 1)
  {
    var votes := Votes(g, p.labels, v);
    if votes != [] {
      MostCommonExactly(votes, MostCommon(votes));
    }
  }

  /** Nodes are visited one after the other, each seeing what the ones before it have taken, and the untagged
      ones in the order of the nodes. */
  lemma {:induction false} SweepInOrder(g: Graph, p: Progress, a: seq<Node>, b: seq<Node>)
    ensures Sweep(g, p, a + b) == Sweep(g, Sweep(g, p, a), b)
  {
    if b == [] {
      assert a + b == a;
    } else {
      assert (a + b)[..|a + b| - 1] == a + b[..|b| - 1];
      SweepInOrder(g, p, a, b[..|b| - 1]);
    }
  }

  lemma {:induction false} FilterInOrder(a: seq<Node>, b: seq<Node>, seeds: Labels)
    ensures Filter(a + b, seeds) == Filter(a, seeds) + Filter(b, seeds)
  {
    if b == [] {
      assert a + b == a;
    } else {
      assert (a + b)[..|a + b| - 1] == a + b[..|b| - 1];
      FilterInOrder(a, b[..|b| - 1], seeds);
    }
  }

  // ---------------------------------------------------------------- ten edges and no more

  function Near(path: seq<Node>, i: nat): seq<Node>
    requires i < |path|
  {
    (if i > 0 then [path[i - 1]] else []) + if i + 1 < |path| then [path[i + 1]] else []
  }

  /** The path from its far end to its second node. */
  function FarFirst(path: seq<Node>): (nodes: seq<Node>)
    requires path != []
    ensures |nodes| == |path| - 1 && forall j :: 0 <= j < |nodes| ==> nodes[j] == path[|path| - 1 - j]
  {
    seq(|path| - 1, j requires 0 <= j < |path| - 1 => path[|path| - 1 - j])
  }

  /** A path as a graph whose nodes are listed from the far end. */
  function Chain(path: seq<Node>): Graph
    requires path != []
  {
    Graph(FarFirst(path) + [path[0]], map v | v in path :: Near(path, IndexOf(path, v)))
  }

  /** Exactly the first n + 1 nodes of the path are labelled, all of them l. */
  ghost predicate LabelledTo(p: Progress, path: seq<Node>, l: Label, n: nat)
    requires n < |path|
  {
    && (forall i :: 0 <= i < |path| ==> (path[i] in p.labels <==> i <= n))
    && (forall v :: v in p.labels ==> v in path && p.labels[v] == l)
  }

  lemma VotesOnPath(path: seq<Node>, p: Progress, l: Label, n: nat, i: nat)
    requires Distinct(path) && n < |path| && 1 <= i < |path| && LabelledTo(p, path, l, n)
    ensures Votes(Chain(path), p.labels, path[i]) != [] <==> i <= n + 1
    ensures forall m :: m in Votes(Chain(path), p.labels, path[i]) ==> m == l
  {
    var near := Near(path, i);
    assert IndexOf(path, path[i]) == i;
    assert Chain(path).neighbours[path[i]] == near;
    forall m
      ensures m in Known(p.labels, near) <==> m == l && i <= n + 1
    {
      KnownFrom(p.labels, near, m);
      assert near[0] == path[i - 1];
      assert path[i - 1] in near;
      if w :| w in near && w in p.labels && p.labels[w] == m {
        assert w == path[i - 1] || w == path[i + 1];
      }
    }
    if Known(p.labels, near) != [] {
      assert Known(p.labels, near)[0] in Known(p.labels, near);
    }
  }

  lemma VisitOnPath(path: seq<Node>, p: Progress, l: Label, n: nat, i: nat)
    requires Distinct(path) && n < |path| && 1 <= i < |path| && LabelledTo(p, path, l, n)
    ensures i != n + 1 ==> Visit(Chain(path), p, path[i]) == p
    ensures i == n + 1 ==> LabelledTo(Visit(Chain(path), p, path[i]), path, l, n + 1) &&
                           Visit(Chain(path), p, path[i]).changes == p.changes + 1
  {
    VotesOnPath(path, p, l, n, i);
    assert path[i] in path;
  }

  /** What j visits from the far end have made of p. */
  ghost predicate Swept(path: seq<Node>, p: Progress, q: Progress, l: Label, n: nat, j: nat) {
    if n + 1 < |path| <= n + 1 + j then LabelledTo(q, path, l, n + 1) && q.changes == p.changes + 1 else q == p
  }

  lemma SweptNext(path: seq<Node>, p: Progress, q: Progress, l: Label, n: nat, j: nat)
    requires Distinct(path) && n < |path| && 0 < j < |path|
    requires LabelledTo(p, path, l, n) && Swept(path, p, q, l, n, j - 1)
    ensures Swept(path, p, Visit(Chain(path), q, path[|path| - j]), l, n, j)
  {
    if n + 1 < |path| <= n + 1 + j - 1 {
      VisitOnPath(path, q, l, n + 1, |path| - j);
    } else {
      VisitOnPath(path, q, l, n, |path| - j);
    }
  }

  lemma SweepOneMore(g: Graph, p: Progress, nodes: seq<Node>, j: nat)
    requires j < |nodes|
    ensures Sweep(g, p, nodes[..j + 1]) == Visit(g, Sweep(g, p, nodes[..j]), nodes[j])
  {
    assert nodes[..j + 1][..j] == nodes[..j];
  }

  lemma {:induction false} SweepOnPath(g: Graph, nodes: seq<Node>, path: seq<Node>, p: Progress, l: Label, n: nat,
                                       j: nat)
    returns (q: Progress)
    requires Distinct(path) && n < |path| && j < |path| && LabelledTo(p, path, l, n)
    requires g == Chain(path) && nodes == FarFirst(path)
    ensures q == Sweep(g, p, nodes[..j]) && Swept(path, p, q, l, n, j)
  {
    if j == 0 {
      q := p;
    } else {
      var before := SweepOnPath(g, nodes, path, p, l, n, j - 1);
      SweepOneMore(g, p, nodes, j - 1);
      SweptNext(path, p, before, l, n, j);
      q := Visit(g, before, nodes[j - 1]);
    }
  }

  /** Every pass carries the label one edge on. */
  lemma PassOnPath(path: seq<Node>, p: Progress, l: Label, n: nat) returns (q: Progress)
    requires Distinct(path) && n + 1 < |path| && LabelledTo(p, path, l, n)
    ensures q == Pass(Chain(path), p, FarFirst(path)) && LabelledTo(q, path, l, n + 1) && q.changes == 1
  {
    assert FarFirst(path)[..|path| - 1] == FarFirst(path);
    q := SweepOnPath(Chain(path), FarFirst(path), path, p.(changes := 0), l, n, |path| - 1);
  }

  /** Wherever the label is, a pass takes it one node on. */
  ghost predicate CarriesOn(g: Graph, nodes: seq<Node>, path: seq<Node>, l: Label) {
    forall p, n: nat | n + 1 < |path| && LabelledTo(p, path, l, n) ::
      LabelledTo(Pass(g, p, nodes), path, l, n + 1) && Pass(g, p, nodes).changes == 1
  }

  lemma {:induction false} PassesOnPath(g: Graph, nodes: seq<Node>, path: seq<Node>, p: Progress, l: Label, n: nat,
                                        m: nat)
    requires CarriesOn(g, nodes, path, l) && n + m < |path| && LabelledTo(p, path, l, n)
    ensures LabelledTo(Passes(g, p, nodes, m), path, l, n + m)
    decreases m
  {
    if m == 0 {
    } else {
      assert LabelledTo(Pass(g, p, nodes), path, l, n + 1) && Pass(g, p, nodes).changes == 1;
      PassesOnPath(g, nodes, path, Pass(g, p, nodes), l, n + 1, m - 1);
    }
  }

  lemma ChainCarriesOn(path: seq<Node>, l: Label)
    requires Distinct(path) && path != []
    ensures CarriesOn(Chain(path), FarFirst(path), path, l)
  {
    forall p, n: nat | n + 1 < |path| && LabelledTo(p, path, l, n)
      ensures LabelledTo(Pass(Chain(path), p, FarFirst(path)), path, l, n + 1)
      ensures Pass(Chain(path), p, FarFirst(path)).changes == 1
    {
      var q := PassOnPath(path, p, l, n);
    }
  }

  /** Ten passes, and no more: on a path visited from its far end, with one seed at the near one, exactly the
      nodes up to ten edges away are labelled, though all are joined to the seed. */
  lemma TenEdgesExactly(path: seq<Node>, l: Label, k: nat)
    requires Distinct(path) && |path| > 10 && k < |path|
    ensures path[k] in Inferred(Chain(path), map[path[0] := l]).labels <==> k <= 10
    ensures Joined(Chain(path), map[path[0] := l], path[k])
  {
    var seeds := map[path[0] := l];
    UntaggedOnPath(path, l);
    assert LabelledTo(Start(seeds), path, l, 0);
    ChainCarriesOn(path, l);
    PassesOnPath(Chain(path), FarFirst(path), path, Start(seeds), l, 0, 10);
    JoinedOnPath(path, l, k);
  }

  lemma UntaggedOnPath(path: seq<Node>, l: Label)
    requires Distinct(path) && path != []
    ensures Untagged(Chain(path), map[path[0] := l]) == FarFirst(path)
  {
    var seeds := map[path[0] := l];
    FilterInOrder(FarFirst(path), [path[0]], seeds);
    assert [path[0]][..0] == [];
    NoneTagged(FarFirst(path), seeds);
  }

  lemma {:induction false} NoneTagged(nodes: seq<Node>, seeds: Labels)
    requires forall v :: v in nodes ==> v !in seeds
    ensures Filter(nodes, seeds) == nodes
  {
    if nodes == [] {
    } else {
      NoneTagged(nodes[..|nodes| - 1], seeds);
    }
  }

  lemma {:induction false} JoinedOnPath(path: seq<Node>, l: Label, k: nat)
    requires Distinct(path) && k < |path|
    ensures Within(Chain(path), map[path[0] := l], path[k], k)
  {
    if k == 0 {
    } else {
      JoinedOnPath(path, l, k - 1);
      assert IndexOf(path, path[k]) == k;
      assert path[k] in path && Near(path, k)[0] == path[k - 1];
      assert path[k - 1] in Chain(path).neighbours[path[k]];
    }
  }

  // ---------------------------------------------------------------- agreement along edges

  ghost predicate Alike(labels: Labels, v: Node, w: Node) {
    v in labels && w in labels && labels[v] == labels[w]
  }

  /** The edges, in both directions, whose ends carry the same label. */
  ghost function Agreeing(g: Graph, labels: Labels): set<(Node, Node)> {
    set v, w | v in g.neighbours && w in g.neighbours[v] && Alike(labels, v, w) :: (v, w)
  }

  ghost function Elsewhere(g: Graph, labels: Labels, x: Node): set<(Node, Node)> {
    set e | e in Agreeing(g, labels) && e.0 != x && e.1 != x
  }

  ghost function Holding(g: Graph, labels: Labels, x: Node, l: Label): set<Node>
    requires x in g.neighbours
  {
    set w | w in g.neighbours[x] && w != x && w in labels && labels[w] == l
  }

  ghost function From(x: Node, s: set<Node>): set<(Node, Node)> {
    set w | w in s :: (x, w)
  }

  ghost function Towards(x: Node, s: set<Node>): set<(Node, Node)> {
    set w | w in s :: (w, x)
  }

  lemma {:induction false} PairsSize(x: Node, s: set<Node>)
    ensures |From(x, s)| == |s| && |Towards(x, s)| == |s|
  {
    if s == {} {
      assert From(x, s) == {} && Towards(x, s) == {};
    } else {
      var w :| w in s;
      PairsSize(x, s - {w});
      assert From(x, s) == From(x, s - {w}) + {(x, w)} && (x, w) !in From(x, s - {w});
      assert Towards(x, s) == Towards(x, s - {w}) + {(w, x)} && (w, x) !in Towards(x, s - {w});
    }
  }

  ghost function Loop(g: Graph, x: Node): set<(Node, Node)>
    requires x in g.neighbours
  {
    if x in g.neighbours[x] then {(x, x)} else {}
  }

  lemma AgreeingParts(g: Graph, labels: Labels, x: Node)
    requires Undirected(g) && x in g.neighbours && x in labels
    ensures
      var near := Holding(g, labels, x, labels[x]);
      Agreeing(g, labels) == Elsewhere(g, labels, x) + From(x, near) + Towards(x, near) + Loop(g, x)
  {
    var near := Holding(g, labels, x, labels[x]);
    var parts := Elsewhere(g, labels, x) + From(x, near) + Towards(x, near) + Loop(g, x);
    forall v, w | (v, w) in Agreeing(g, labels)
      ensures (v, w) in parts
    {
      if v == x && w != x {
        assert w in near;
      } else if w == x && v != x {
        assert v in near;
      }
    }
    forall v, w | (v, w) in parts
      ensures (v, w) in Agreeing(g, labels)
    {
    }
  }

  lemma FourParts(x: Node, a: set<(Node, Node)>, b: set<(Node, Node)>, c: set<(Node, Node)>, d: set<(Node, Node)>)
    requires forall e :: e in a ==> e.0 != x && e.1 != x
    requires forall e :: e in b ==> e.0 == x && e.1 != x
    requires forall e :: e in c ==> e.0 != x && e.1 == x
    requires forall e :: e in d ==> e.0 == x && e.1 == x
    ensures |a + b + c + d| == |a| + |b| + |c| + |d|
  {
    assert |a + b| == |a| + |b| by {
      assert a !! b;
    }
    assert |a + b + c| == |a + b| + |c| by {
      assert (a + b) !! c;
    }
    assert (a + b + c) !! d;
  }

  lemma AgreeingCount(g: Graph, labels: Labels, x: Node)
    requires Undirected(g) && x in g.neighbours && x in labels
    ensures |Agreeing(g, labels)| ==
            |Elsewhere(g, labels, x)| + 2 * |Holding(g, labels, x, labels[x])| + |Loop(g, x)|
  {
    var near := Holding(g, labels, x, labels[x]);
    AgreeingParts(g, labels, x);
    PairsSize(x, near);
    FourParts(x, Elsewhere(g, labels, x), From(x, near), Towards(x, near), Loop(g, x));
  }

  lemma {:induction false} KnownCount(labels: Labels, nodes: seq<Node>, l: Label)
    requires Distinct(nodes)
    ensures multiset(Known(labels, nodes))[l] == |set w | w in nodes && w in labels && labels[w] == l|
  {
    var holders := set w | w in nodes && w in labels && labels[w] == l;
    if nodes == [] {
      assert holders == {};
    } else {
      var init, last := nodes[..|nodes| - 1], nodes[|nodes| - 1];
      assert nodes == init + [last];
      KnownCount(labels, init, l);
      var before := set w | w in init && w in labels && labels[w] == l;
      if last in labels && labels[last] == l {
        assert holders == before + {last};
      } else {
        assert holders == before;
      }
    }
  }

  lemma VisitAgrees(g: Graph, p: Progress, x: Node)
    requires Undirected(g)
    ensures |Agreeing(g, Visit(g, p, x).labels)| >= |Agreeing(g, p.labels)|
  {
    var q := Visit(g, p, x);
    if q != p {
      RelabelAgrees(g, p.labels, x);
    }
  }

  lemma UnlabelledElsewhere(g: Graph, labels: Labels, x: Node)
    requires Undirected(g) && x in g.neighbours && x !in labels
    ensures Agreeing(g, labels) == Elsewhere(g, labels, x)
  {
  }

  lemma SameElsewhere(g: Graph, labels: Labels, x: Node, l: Label)
    ensures Elsewhere(g, labels[x := l], x) == Elsewhere(g, labels, x)
  {
    var after := labels[x := l];
    assert forall v, w :: v != x && w != x ==> (Alike(after, v, w) <==> Alike(labels, v, w));
  }

  lemma HoldingVotes(g: Graph, labels: Labels, x: Node, l: Label)
    requires Undirected(g) && x in g.neighbours
    ensures |Holding(g, labels, x, l)| <= multiset(Votes(g, labels, x))[l]
    ensures !(x in labels && labels[x] == l) || x !in g.neighbours[x] ==>
              |Holding(g, labels, x, l)| == multiset(Votes(g, labels, x))[l]
  {
    var all := set w | w in g.neighbours[x] && w in labels && labels[w] == l;
    KnownCount(labels, g.neighbours[x], l);
    SubsetSize(Holding(g, labels, x, l), all);
    if !(x in labels && labels[x] == l) || x !in g.neighbours[x] {
      assert Holding(g, labels, x, l) == all;
    }
  }

  /** Relabelling with the winning label never lowers the number of agreeing edges; without a loop at
      the node it raises it by two for every vote by which the new label leads the old. */
  lemma RelabelAgrees(g: Graph, labels: Labels, x: Node)
    requires Undirected(g) && Votes(g, labels, x) != []
    requires x in labels ==> labels[x] != MostCommon(Votes(g, labels, x))
    ensures |Agreeing(g, labels[x := MostCommon(Votes(g, labels, x))])| >= |Agreeing(g, labels)|
    ensures x !in g.neighbours[x] ==>
              var votes := Votes(g, labels, x);
              |Agreeing(g, labels[x := MostCommon(votes)])| +
              (if x in labels then 2 * multiset(votes)[labels[x]] else 0)
              == |Agreeing(g, labels)| + 2 * multiset(votes)[MostCommon(votes)]
  {
    var votes := Votes(g, labels, x);
    var l := MostCommon(votes);
    var after := labels[x := l];
    MostCommonWins(votes);
    SameElsewhere(g, labels, x, l);
    AgreeingCount(g, after, x);
    HoldingVotes(g, labels, x, l);
    assert Holding(g, after, x, l) == Holding(g, labels, x, l);
    if x in labels {
      AgreeingCount(g, labels, x);
      HoldingVotes(g, labels, x, labels[x]);
    } else {
      UnlabelledElsewhere(g, labels, x);
    }
  }

  lemma {:induction false} SweepAgrees(g: Graph, p: Progress, nodes: seq<Node>)
    requires Undirected(g)
    ensures |Agreeing(g, Sweep(g, p, nodes).labels)| >= |Agreeing(g, p.labels)|
  {
    if nodes == [] {
    } else {
      SweepAgrees(g, p, nodes[..|nodes| - 1]);
      VisitAgrees(g, Sweep(g, p, nodes[..|nodes| - 1]), nodes[|nodes| - 1]);
    }
  }

  /** Over the whole run the number of edges whose ends agree never falls. */
  lemma {:induction false} AgreementNeverFalls(g: Graph, p: Progress, untagged: seq<Node>, n: nat)
    requires Undirected(g)
    ensures |Agreeing(g, Passes(g, p, untagged, n).labels)| >= |Agreeing(g, p.labels)|
    decreases n
  {
    if n == 0 {
    } else {
      SweepAgrees(g, p.(changes := 0), untagged);
      AgreementNeverFalls(g, Pass(g, p, untagged), untagged, n - 1);
    }
  }

  // ---------------------------------------------------------------- the loops

  /** The counter's keys: the labels in order of first occurrence. */
  function Met(votes: seq<Label>): (order: seq<Label>)
    ensures forall l :: l in order <==> l in votes
  {
    if votes == [] then [] else
      var before, last := Met(votes[..|votes| - 1]), votes[|votes| - 1];
      assert votes == votes[..|votes| - 1] + [last];
      if last in before then before else before + [last]
  }

  function Tally(votes: seq<Label>): (counts: map<Label, nat>)
    ensures forall l :: l in counts <==> l in votes
  {
    map l | l in votes :: multiset(votes)[l]
  }

  lemma TallyOne(votes: seq<Label>, l: Label)
    ensures Tally(votes + [l]) == Tally(votes)[l := 1 + if l in votes then Tally(votes)[l] else 0]
  {
    assert forall m :: multiset(votes + [l])[m] == multiset(votes)[m] + if m == l then 1 else 0;
  }

  lemma CountOneMore(votes: seq<Label>, k: nat)
    requires k < |votes|
    ensures Met(votes[..k + 1]) == Met(votes[..k]) + if votes[k] in Tally(votes[..k]) then [] else [votes[k]]
    ensures Tally(votes[..k + 1]) ==
            Tally(votes[..k])[votes[k] := 1 + if votes[k] in Tally(votes[..k]) then Tally(votes[..k])[votes[k]] else 0]
  {
    assert votes[..k + 1][..k] == votes[..k];
    assert votes[..k + 1] == votes[..k] + [votes[k]];
    TallyOne(votes[..k], votes[k]);
  }

  lemma NewlyMet(votes: seq<Label>, k: nat)
    requires k < |votes| && votes[k] !in votes[..k]
    ensures IndexOf(votes, votes[k]) == k
  {
    IndexWithin(votes, votes[k], k + 1);
    var first := IndexOf(votes, votes[k]);
    assert forall i :: 0 <= i < k ==> votes[i] in votes[..k];
  }

  lemma {:induction false} MetInOrder(votes: seq<Label>, k: nat, i: nat, j: nat)
    requires k <= |votes| && i < j < |Met(votes[..k])|
    ensures Met(votes[..k])[i] in votes && Met(votes[..k])[j] in votes
    ensures IndexOf(votes, Met(votes[..k])[i]) < IndexOf(votes, Met(votes[..k])[j])
  {
    assert votes[..k][..k - 1] == votes[..k - 1];
    assert forall l :: l in Met(votes[..k]) ==> l in votes[..k];
    if j < |Met(votes[..k - 1])| {
      MetInOrder(votes, k - 1, i, j);
    } else {
      NewlyMet(votes, k - 1);
      IndexWithin(votes, Met(votes[..k - 1])[i], k - 1);
    }
  }

  method CountVotes(votes: seq<Label>) returns (order: seq<Label>, counts: map<Label, nat>)
    ensures order == Met(votes) && counts == Tally(votes)
  {
    order, counts := [], map[];
    for k := 0 to |votes|
      invariant order == Met(votes[..k]) && counts == Tally(votes[..k])
    {
      var l := votes[k];
      CountOneMore(votes, k);
      if l !in counts {
        order := order + [l];
      }
      counts := counts[l := 1 + if l in counts then counts[l] else 0];
    }
    assert votes[..|votes|] == votes;
  }

  method MostCommonLabel(votes: seq<Label>) returns (l: Label)
    requires votes != []
    ensures l == MostCommon(votes)
  {
    var order, counts := CountVotes(votes);
    assert votes[0] in order;
    l := order[0];
    ghost var at := 0;
    for k := 1 to |order|
      invariant 0 <= at < k && l == order[at] && order == Met(votes) && counts == Tally(votes)
      invariant forall i :: 0 <= i < k ==> counts[order[i]] <= counts[l]
      invariant forall i :: 0 <= i < at ==> counts[order[i]] < counts[l]
    {
      if counts[order[k]] > counts[l] {
        l, at := order[k], k;
      }
    }
    FirstOfMost(votes, at);
  }

  lemma FirstOfMost(votes: seq<Label>, at: nat)
    requires at < |Met(votes)|
    requires forall i :: 0 <= i < |Met(votes)| ==> multiset(votes)[Met(votes)[i]] <= multiset(votes)[Met(votes)[at]]
    requires forall i :: 0 <= i < at ==> multiset(votes)[Met(votes)[i]] < multiset(votes)[Met(votes)[at]]
    ensures votes != [] && Met(votes)[at] == MostCommon(votes)
  {
    var l := Met(votes)[at];
    assert l in Met(votes);
    forall m | Plurality(votes, m)
      ensures IndexOf(votes, l) <= IndexOf(votes, m)
    {
      var i :| 0 <= i < |Met(votes)| && Met(votes)[i] == m;
      assert multiset(votes)[l] <= multiset(votes)[m];
      if at < i {
        assert votes[..|votes|] == votes;
        MetInOrder(votes, |votes|, at, i);
      }
    }
    MostCommonExactly(votes, l);
  }

  method NeighbourLabels(g: Graph, labels: Labels, v: Node) returns (votes: seq<Label>)
    requires v in g.neighbours
    ensures votes == Votes(g, labels, v)
  {
    var near := g.neighbours[v];
    votes := [];
    for i := 0 to |near|
      invariant votes == Known(labels, near[..i])
    {
      assert near[..i + 1][..i] == near[..i];
      if near[i] in labels {
        votes := votes + [labels[near[i]]];
      }
    }
    assert near[..|near|] == near;
  }

  method RunPass(g: Graph, untagged: seq<Node>, p: Progress) returns (q: Progress)
    requires forall v :: v in untagged ==> v in g.neighbours
    ensures q == Pass(g, p, untagged)
  {
    var labels, updates, changes := p.labels, p.updates, 0;
    for i := 0 to |untagged|
      invariant Progress(labels, updates, changes) == Pass(g, p, untagged[..i])
    {
      assert untagged[..i + 1][..i] == untagged[..i];
      var node := untagged[i];
      var votes := NeighbourLabels(g, labels, node);
      if votes != [] {
        var winner := MostCommonLabel(votes);
        if node !in labels || labels[node] != winner {
          labels := labels[node := winner];
          updates := updates[node := winner];
          changes := changes + 1;
        }
      }
    }
    assert untagged[..|untagged|] == untagged;
    q := Progress(labels, updates, changes);
  }

  function Restrict(tags: Labels, nodes: seq<Node>): Labels {
    map v | v in nodes && v in tags :: tags[v]
  }

  lemma RestrictOne(tags: Labels, nodes: seq<Node>, v: Node)
    ensures Restrict(tags, nodes + [v]) ==
            if v in tags then Restrict(tags, nodes)[v := tags[v]] else Restrict(tags, nodes)
  {
  }

  lemma SeparateOneMore(tags: Labels, nodes: seq<Node>, k: nat)
    requires k < |nodes|
    ensures Filter(nodes[..k + 1], tags) == Filter(nodes[..k], tags) + if nodes[k] in tags then [] else [nodes[k]]
    ensures Restrict(tags, nodes[..k + 1]) ==
            if nodes[k] in tags then Restrict(tags, nodes[..k])[nodes[k] := tags[nodes[k]]]
            else Restrict(tags, nodes[..k])
  {
    assert nodes[..k + 1][..k] == nodes[..k];
    assert nodes[..k + 1] == nodes[..k] + [nodes[k]];
    RestrictOne(tags, nodes[..k], nodes[k]);
  }

  /** The nodes' own labels, and the nodes without one. */
  method Separate(g: Graph, tags: Labels) returns (labelled: Labels, untagged: seq<Node>)
    requires forall v :: v in tags ==> v in g.nodes
    ensures labelled == tags && untagged == Untagged(g, tags)
  {
    labelled, untagged := map[], [];
    for i := 0 to |g.nodes|
      invariant untagged == Filter(g.nodes[..i], tags) && labelled == Restrict(tags, g.nodes[..i])
    {
      var node := g.nodes[i];
      SeparateOneMore(tags, g.nodes, i);
      if node in tags {
        labelled := labelled[node := tags[node]];
      } else {
        untagged := untagged + [node];
      }
    }
    assert g.nodes[..|g.nodes|] == g.nodes;
  }

  method RunPasses(g: Graph, untagged: seq<Node>, start: Progress, limit: nat) returns (p: Progress)
    requires forall v :: v in untagged ==> v in g.neighbours
    ensures p == Passes(g, start, untagged, limit)
  {
    p := start;
    for i := 0 to limit
      invariant Passes(g, start, untagged, limit) == Passes(g, p, untagged, limit - i)
    {
      p := RunPass(g, untagged, p);
      if p.changes == 0 {
        return;
      }
    }
  }

  datatype Tagging = EmptyGraph | Tagged(updates: Labels)

  /** auto_tag_metadata, given the graph and the labels its nodes already have. */
  method AutoTag(g: Graph, tags: Labels) returns (r: Tagging)
    requires Undirected(g) && forall v :: v in tags ==> v in g.nodes
    ensures r.EmptyGraph? <==> g.nodes == []
    ensures r.Tagged? ==> r.updates == Inferred(g, tags).updates
  {
    if g.nodes == [] {
      return EmptyGraph;
    }
    var labelled, untagged := Separate(g, tags);
    if untagged == [] || labelled == map[] {
      NothingToLearn(g, tags, MAX_PASSES);
      return Tagged(map[]);
    }
    var p := RunPasses(g, untagged, Start(labelled), MAX_PASSES);
    return Tagged(p.updates);
  }

  /** Without seeds, or without untagged nodes, there is nothing to infer. */
  lemma NothingToLearn(g: Graph, seeds: Labels, n: nat)
    requires seeds == map[] || Untagged(g, seeds) == []
    ensures Passes(g, Start(seeds), Untagged(g, seeds), n).updates == map[]
  {
    StartSound(g, seeds);
    PassesSound(g, seeds, Start(seeds), Untagged(g, seeds), n);
    var p := Passes(g, Start(seeds), Untagged(g, seeds), n);
    if seeds == map[] {
      assert forall v :: v in p.labels ==> Sourced(g, seeds, v, p.labels[v]);
      assert p.labels == p.updates;
    }
  }
}
