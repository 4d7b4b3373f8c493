/** One node of services/raft_coordinator.py as a state machine. Remote calls always succeed, as
    the source simulates them. */
module RaftModel {
  import opened Prelude
  import opened Quorum

  type NodeId = string
  type Command(==, !new)

  datatype Role = Follower | Candidate | Leader

  datatype LogEntry = LogEntry(term: int, command: Command)

  datatype State = State(nodeId: NodeId, peers: seq<NodeId>, role: Role, currentTerm: int, votedFor: Option<NodeId>,
                         leaderId: Option<NodeId>, log: seq<LogEntry>, commitIndex: int, lastApplied: int,
                         nextIndex: map<NodeId, int>, matchIndex: map<NodeId, int>, replicated: seq<Command>)

  function Initial(nodeId: NodeId, peers: seq<NodeId>): State {
    State(nodeId, peers, Follower, 0, None, None, [], -1, -1, map[], map[], [])
  }

  // ---------------------------------------------------------------- roles

  function BecomeFollower(s: State, term: int, leader: Option<NodeId>): State {
    s.(role := Follower, currentTerm := term, leaderId := leader, votedFor := None)
  }

  function BecomeCandidate(s: State): State {
    s.(role := Candidate, currentTerm := s.currentTerm + 1, votedFor := Some(s.nodeId), leaderId := None)
  }

  function SetAll(m: map<NodeId, int>, keys: seq<NodeId>, v: int): map<NodeId, int> {
    if keys == [] then m else SetAll(m, keys[..|keys| - 1], v)[keys[|keys| - 1] := v]
  }

  function BecomeLeader(s: State): State {
    s.(role := Leader, leaderId := Some(s.nodeId),
       nextIndex := SetAll(s.nextIndex, s.peers, |s.log|), matchIndex := SetAll(s.matchIndex, s.peers, -1))
  }

  /** A vote for itself and one from every peer. */
  function StartElection(s: State): State {
    var c := BecomeCandidate(s);
    if 1 + |c.peers| >= VotesNeeded(|c.peers|) then BecomeLeader(c) else c
  }

  // ---------------------------------------------------------------- replication

  function Lookup(m: map<NodeId, int>, n: NodeId, default: int): int {
    if n in m then m[n] else default
  }

  function Matches(s: State): (ms: seq<int>)
    ensures |ms| == |s.peers| + 1 && ms[|s.peers|] == |s.log| - 1
    ensures forall i :: 0 <= i < |s.peers| ==> ms[i] == Lookup(s.matchIndex, s.peers[i], -1)
  {
    seq(|s.peers|, i requires 0 <= i < |s.peers| => Lookup(s.matchIndex, s.peers[i], -1)) + [|s.log| - 1]
  }

  function Commands(log: seq<LogEntry>): (cs: seq<Command>)
    ensures |cs| == |log| && forall i :: 0 <= i < |cs| ==> cs[i] == log[i].command
  {
    seq(|log|, i requires 0 <= i < |log| => log[i].command)
  }

  /** The entries between the last applied one and the commit index are applied in order. */
  function ApplyCommitted(s: State): State
    requires -1 <= s.lastApplied && s.commitIndex < |s.log|
  {
    if s.lastApplied >= s.commitIndex then s
    else s.(lastApplied := s.commitIndex,
            replicated := s.replicated + Commands(s.log[s.lastApplied + 1..s.commitIndex + 1]))
  }

  ghost predicate Indexed(s: State) {
    && -1 <= s.lastApplied == s.commitIndex < |s.log|
    && (forall p :: p in s.nextIndex ==> 0 <= s.nextIndex[p] <= |s.log|)
    && (forall p :: p in s.matchIndex ==> -1 <= s.matchIndex[p] < |s.log|)
  }

  lemma ChoiceInLog(s: State)
    requires Indexed(s)
    ensures -1 <= Choice(Matches(s)) < |s.log|
  {
    var ms := Matches(s);
    ChoiceIsLargestBacked(ms, -1);
    ChoiceIsLargestBacked(ms, |s.log|);
    AllHold(ms, -1);
    NoHolders(ms, |s.log|);
  }

  function AdvanceCommit(s: State): State
    requires Indexed(s)
  {
    ChoiceInLog(s);
    var c := Choice(Matches(s));
    if c > s.commitIndex then ApplyCommitted(s.(commitIndex := c)) else s
  }

  /** The peer now has the whole log. */
  function Served(s: State, peer: NodeId): State {
    s.(matchIndex := s.matchIndex[peer := |s.log| - 1], nextIndex := s.nextIndex[peer := |s.log|])
  }

  lemma ServedIndexed(s: State, peer: NodeId)
    requires Indexed(s)
    ensures Indexed(Served(s, peer))
  {
    var t := Served(s, peer);
    assert forall p :: p in t.nextIndex ==>
      t.nextIndex[p] == |s.log| || (p in s.nextIndex && t.nextIndex[p] == s.nextIndex[p]);
    assert forall p :: p in t.matchIndex ==>
      t.matchIndex[p] == |s.log| - 1 || (p in s.matchIndex && t.matchIndex[p] == s.matchIndex[p]);
  }

  function SendAppendEntries(s: State, peer: NodeId): State
    requires Indexed(s)
  {
    if Lookup(s.nextIndex, peer, 0) < |s.log| then
      ServedIndexed(s, peer);
      AdvanceCommit(Served(s, peer))
    else s
  }

  lemma AdvanceIndexed(s: State)
    requires Indexed(s)
    ensures Indexed(AdvanceCommit(s))
    ensures AdvanceCommit(s) == s.(commitIndex := AdvanceCommit(s).commitIndex,
                                   lastApplied := AdvanceCommit(s).commitIndex,
                                   replicated := AdvanceCommit(s).replicated)
    ensures AdvanceCommit(s).commitIndex >= s.commitIndex && AdvanceCommit(s).commitIndex >= Choice(Matches(s))
    ensures AdvanceCommit(s).replicated ==
            s.replicated + Commands(s.log[s.commitIndex + 1..AdvanceCommit(s).commitIndex + 1])
  {
    ChoiceInLog(s);
    assert s.log[s.commitIndex + 1..s.commitIndex + 1] == [];
  }

  lemma SendIndexed(s: State, peer: NodeId)
    requires Indexed(s)
    ensures Indexed(SendAppendEntries(s, peer))
  {
    if Lookup(s.nextIndex, peer, 0) < |s.log| {
      ServedIndexed(s, peer);
      AdvanceIndexed(Served(s, peer));
    }
  }

  lemma AdvanceKeeps(s: State)
    requires Indexed(s)
    ensures AdvanceCommit(s).log == s.log && AdvanceCommit(s).peers == s.peers
    ensures AdvanceCommit(s).currentTerm == s.currentTerm
    ensures AdvanceCommit(s).matchIndex == s.matchIndex && AdvanceCommit(s).nextIndex == s.nextIndex
  {
  }

  /** All that serving a peer changes beside what it commits is that peer's entries. */
  lemma SendKeeps(s: State, peer: NodeId)
    requires Indexed(s)
    ensures
      var t := SendAppendEntries(s, peer);
      && t.log == s.log && t.peers == s.peers && t.currentTerm == s.currentTerm
      && (if Lookup(s.nextIndex, peer, 0) < |s.log| then
            t.matchIndex == s.matchIndex[peer := |s.log| - 1] && t.nextIndex == s.nextIndex[peer := |s.log|]
          else t.matchIndex == s.matchIndex && t.nextIndex == s.nextIndex)
  {
    if Lookup(s.nextIndex, peer, 0) < |s.log| {
      SendServes(s, peer);
    }
  }

  lemma SendServes(s: State, peer: NodeId)
    requires Indexed(s) && Lookup(s.nextIndex, peer, 0) < |s.log|
    ensures SendAppendEntries(s, peer).log == s.log && SendAppendEntries(s, peer).peers == s.peers
    ensures SendAppendEntries(s, peer).currentTerm == s.currentTerm
    ensures SendAppendEntries(s, peer).matchIndex == s.matchIndex[peer := |s.log| - 1]
    ensures SendAppendEntries(s, peer).nextIndex == s.nextIndex[peer := |s.log|]
  {
    ServedIndexed(s, peer);
    AdvanceKeeps(Served(s, peer));
  }

  function SendAll(s: State, peers: seq<NodeId>): (t: State)
    requires Indexed(s)
    ensures Indexed(t)
  {
    if peers == [] then s else
      var t := SendAll(s, peers[..|peers| - 1]);
      SendIndexed(t, peers[|peers| - 1]);
      SendAppendEntries(t, peers[|peers| - 1])
  }

  datatype Reply = NotLeader(leader: Option<NodeId>) | Accepted(index: nat, term: int)

  function AppendEntry(s: State, command: Command): State {
    s.(log := s.log + [LogEntry(s.currentTerm, command)])
  }

  function Propose(s: State, command: Command): (State, Reply)
    requires Indexed(s)
  {
    if s.role != Leader then (s, NotLeader(s.leaderId)) else
      var sent := SendAll(AppendEntry(s, command), s.peers);
      (AdvanceCommit(sent), Accepted(|s.log|, s.currentTerm))
  }

  // ---------------------------------------------------------------- what every step keeps

  function LastTerm(log: seq<LogEntry>): int {
    if log == [] then 0 else log[|log| - 1].term
  }

  ghost predicate TermsOrdered(log: seq<LogEntry>) {
    forall i, j :: 0 <= i < j < |log| ==> log[i].term <= log[j].term
  }

  /** A leader's term is no older than its log; anyone else is at most one term behind, which the next
      election makes up for. */
  ghost predicate TermsFit(s: State) {
    s.log != [] ==> LastTerm(s.log) <= s.currentTerm + if s.role == Leader then 0 else 1
  }

  /** The log's terms never decrease and fit the current one, and what has been applied is exactly the
      log up to the commit index, each command once and in order. */
  ghost predicate Safe(s: State) {
    && Indexed(s)
    && TermsOrdered(s.log) && TermsFit(s)
    && s.replicated == Commands(s.log[..s.commitIndex + 1])
  }

  /** t continues s: nothing logged, committed or applied is ever taken back. */
  ghost predicate Continues(s: State, t: State) {
    && s.log <= t.log && s.commitIndex <= t.commitIndex && s.replicated <= t.replicated
  }

  lemma CommandsSplit(log: seq<LogEntry>, i: nat, j: nat)
    requires i <= j <= |log|
    ensures Commands(log[..i]) + Commands(log[i..j]) == Commands(log[..j])
  {
    assert log[..i] + log[i..j] == log[..j];
  }

  lemma AdvanceSafe(s: State)
    requires Safe(s)
    ensures Safe(AdvanceCommit(s)) && Continues(s, AdvanceCommit(s))
  {
    AdvanceIndexed(s);
    CommandsSplit(s.log, s.commitIndex + 1, AdvanceCommit(s).commitIndex + 1);
  }

  lemma SendSafe(s: State, peer: NodeId)
    requires Safe(s)
    ensures Safe(SendAppendEntries(s, peer)) && Continues(s, SendAppendEntries(s, peer))
  {
    if Lookup(s.nextIndex, peer, 0) < |s.log| {
      ServedIndexed(s, peer);
      assert Safe(Served(s, peer));
      AdvanceSafe(Served(s, peer));
    }
  }

  lemma {:induction false} SendAllSafe(s: State, peers: seq<NodeId>)
    requires Safe(s)
    ensures Safe(SendAll(s, peers)) && Continues(s, SendAll(s, peers))
  {
    if peers == [] {
    } else {
      SendAllSafe(s, peers[..|peers| - 1]);
      SendSafe(SendAll(s, peers[..|peers| - 1]), peers[|peers| - 1]);
    }
  }

  lemma AppendSafe(s: State, command: Command)
    requires Safe(s) && s.role == Leader
    ensures Safe(AppendEntry(s, command)) && Continues(s, AppendEntry(s, command))
  {
    var t := AppendEntry(s, command);
    assert t.log[..s.commitIndex + 1] == s.log[..s.commitIndex + 1];
  }

  lemma ProposeSafe(s: State, command: Command)
    requires Safe(s)
    ensures Safe(Propose(s, command).0) && Continues(s, Propose(s, command).0)
  {
    if s.role == Leader {
      AppendSafe(s, command);
      SendAllSafe(AppendEntry(s, command), s.peers);
      AdvanceSafe(SendAll(AppendEntry(s, command), s.peers));
    }
  }

  lemma {:induction false} SetAllValues(m: map<NodeId, int>, keys: seq<NodeId>, v: int)
    ensures forall p :: p in SetAll(m, keys, v) <==> p in m || p in keys
    ensures forall p :: p in SetAll(m, keys, v) ==> SetAll(m, keys, v)[p] == if p in keys then v else m[p]
  {
    if keys == [] {
    } else {
      SetAllValues(m, keys[..|keys| - 1], v);
    }
  }

  lemma ElectionIndexed(s: State)
    requires Indexed(s)
    ensures Indexed(StartElection(s))
  {
    SetAllValues(s.nextIndex, s.peers, |s.log|);
    SetAllValues(s.matchIndex, s.peers, -1);
  }

  lemma ElectionSafe(s: State)
    requires Safe(s)
    ensures Safe(StartElection(s)) && Continues(s, StartElection(s)) && StartElection(s).role == Leader
  {
    SetAllValues(s.nextIndex, s.peers, |s.log|);
    SetAllValues(s.matchIndex, s.peers, -1);
  }

  // ---------------------------------------------------------------- runs

  datatype Op =
    | Elect
    | StepDown(term: int, leader: Option<NodeId>)
    | Heartbeat(peer: NodeId)
    | ProposeOp(command: Command)

  /** Steps down are to a term at most one older than the log. */
  ghost predicate Allowed(s: State, op: Op) {
    op.StepDown? && s.log != [] ==> op.term >= LastTerm(s.log) - 1
  }

  function Step(s: State, op: Op): State
    requires Indexed(s)
  {
    match op
    case Elect => StartElection(s)
    case StepDown(term, leader) => BecomeFollower(s, term, leader)
    case Heartbeat(peer) => SendAppendEntries(s, peer)
    case ProposeOp(command) => Propose(s, command).0
  }

  lemma StepSafe(s: State, op: Op)
    requires Safe(s) && Allowed(s, op)
    ensures Safe(Step(s, op)) && Continues(s, Step(s, op))
  {
    match op
    case Elect => ElectionSafe(s);
    case StepDown(term, leader) =>
    case Heartbeat(peer) => SendSafe(s, peer);
    case ProposeOp(command) => ProposeSafe(s, command);
  }

  lemma StepIndexed(s: State, op: Op)
    requires Indexed(s)
    ensures Indexed(Step(s, op))
  {
    match op
    case Elect => ElectionIndexed(s);
    case StepDown(_, _) =>
    case Heartbeat(peer) => SendIndexed(s, peer);
    case ProposeOp(command) =>
      if s.role == Leader {
        AdvanceIndexed(SendAll(AppendEntry(s, command), s.peers));
      }
  }

  ghost function Run(first: State, ops: seq<Op>): (s: State)
    requires Indexed(first)
    ensures Indexed(s)
  {
    if ops == [] then first else
      var before := Run(first, ops[..|ops| - 1]);
      StepIndexed(before, ops[|ops| - 1]);
      Step(before, ops[|ops| - 1])
  }

  ghost predicate AllAllowed(first: State, ops: seq<Op>)
    requires Indexed(first)
  {
    ops != [] ==>
      AllAllowed(first, ops[..|ops| - 1]) && Allowed(Run(first, ops[..|ops| - 1]), ops[|ops| - 1])
  }

  /** Over every run the log is append-only with ordered terms, and the applied commands are those
      of the committed prefix, each once and in order. */
  lemma {:induction false} RunSafe(first: State, ops: seq<Op>)
    requires Safe(first) && AllAllowed(first, ops)
    ensures Safe(Run(first, ops)) && Continues(first, Run(first, ops))
  {
    if ops == [] {
    } else {
      RunSafe(first, ops[..|ops| - 1]);
      StepSafe(Run(first, ops[..|ops| - 1]), ops[|ops| - 1]);
    }
  }

  lemma RunTwo(d: State, ops: seq<Op>)
    requires Indexed(d) && |ops| == 2 && !ops[0].StepDown? && !ops[1].StepDown?
    ensures AllAllowed(d, ops) && Indexed(Step(d, ops[0])) && Run(d, ops) == Step(Step(d, ops[0]), ops[1])
  {
    var one := ops[..1];
    assert one[..0] == [] && one[0] == ops[0];
    RunOne(d, one);
  }

  lemma RunOne(d: State, ops: seq<Op>)
    requires Indexed(d) && |ops| == 1 && !ops[0].StepDown?
    ensures AllAllowed(d, ops) && Indexed(Step(d, ops[0])) && Run(d, ops) == Step(d, ops[0])
  {
    StepIndexed(d, ops[0]);
  }

  lemma ElectLeads(d: State)
    requires Indexed(d)
    ensures Indexed(Step(d, Elect)) && Step(d, Elect).role == Leader
    ensures Step(d, Elect).log == d.log && Step(d, Elect).currentTerm == d.currentTerm + 1
  {
    StepIndexed(d, Elect);
  }

  /** The state between the two operations. */
  lemma RunElected(d: State, ops: seq<Op>) returns (e: State)
    requires Indexed(d) && |ops| == 2 && ops[0] == Elect && !ops[1].StepDown?
    ensures AllAllowed(d, ops) && Indexed(e) && Run(d, ops) == Step(e, ops[1])
    ensures e.role == Leader && e.log == d.log && e.currentTerm == d.currentTerm + 1
  {
    RunTwo(d, ops);
    ElectLeads(d);
    e := Step(d, ops[0]);
  }

  /** One election and one proposal after a step down below that, the log is out of order. */
  lemma StaleTermBreaksOrder(s: State, d: State, ops: seq<Op>)
    requires Safe(s) && s.log != [] && Indexed(d) && d.log == s.log && d.currentTerm < LastTerm(s.log) - 1
    requires |ops| == 2 && ops[0] == Elect && ops[1].ProposeOp?
    ensures AllAllowed(d, ops) && !TermsOrdered(Run(d, ops).log)
  {
    var e := RunElected(d, ops);
    ProposeAppends(e, ops[1].command);
    LaterIsOlder(s.log, LogEntry(e.currentTerm, ops[1].command));
  }

  lemma LaterIsOlder(log: seq<LogEntry>, entry: LogEntry)
    requires log != [] && entry.term < LastTerm(log)
    ensures !TermsOrdered(log + [entry])
  {
    var all := log + [entry];
    assert all[|log| - 1].term > all[|log|].term;
  }

  lemma ProposeAppends(s: State, command: Command)
    requires Indexed(s) && s.role == Leader
    ensures Propose(s, command).0.log == s.log + [LogEntry(s.currentTerm, command)]
  {
    SendAllLog(AppendEntry(s, command), s.peers);
    AdvanceKeeps(SendAll(AppendEntry(s, command), s.peers));
  }

  lemma {:induction false} SendAllLog(s: State, peers: seq<NodeId>)
    requires Indexed(s)
    ensures SendAll(s, peers).log == s.log
  {
    if peers == [] {
    } else {
      SendAllLog(s, peers[..|peers| - 1]);
      SendKeeps(SendAll(s, peers[..|peers| - 1]), peers[|peers| - 1]);
    }
  }

  /** Whatever follows, a step down leaves the log's terms in order if and only if its term is at most one
      older than the log. */
  lemma StepDownExactly(s: State, term: int, leader: Option<NodeId>)
    requires Safe(s)
    ensures Indexed(BecomeFollower(s, term, leader))
    ensures (forall ops :: AllAllowed(BecomeFollower(s, term, leader), ops) ==>
                             TermsOrdered(Run(BecomeFollower(s, term, leader), ops).log)) <==>
            s.log == [] || term >= LastTerm(s.log) - 1
  {
    var d := BecomeFollower(s, term, leader);
    if s.log == [] || term >= LastTerm(s.log) - 1 {
      forall ops | AllAllowed(d, ops)
        ensures TermsOrdered(Run(d, ops).log)
      {
        RunSafe(d, ops);
      }
    } else {
      StaleTermBreaksOrder(s, d, [Elect, ProposeOp(s.log[0].command)]);
    }
  }

  lemma FreshNodeSafe(nodeId: NodeId, peers: seq<NodeId>)
    ensures Safe(Initial(nodeId, peers))
  {
  }

  // ---------------------------------------------------------------- proposals

  /** The peers served so far have the whole log, and no other peer's entry is touched. */
  ghost predicate Reached(s: State, peers: seq<NodeId>, t: State) {
    && t.log == s.log && t.peers == s.peers && t.currentTerm == s.currentTerm
    && (forall i :: 0 <= i < |peers| ==> Lookup(t.matchIndex, peers[i], -1) == |s.log| - 1)
    && (forall p :: p !in peers ==> Lookup(t.nextIndex, p, 0) == Lookup(s.nextIndex, p, 0))
    && (forall p :: p !in peers ==> Lookup(t.matchIndex, p, -1) == Lookup(s.matchIndex, p, -1))
  }

  ghost predicate Behind(s: State, peers: seq<NodeId>) {
    forall i :: 0 <= i < |peers| ==> Lookup(s.nextIndex, peers[i], 0) < |s.log|
  }

  lemma {:induction false} SendAllReaches(s: State, peers: seq<NodeId>)
    requires Indexed(s) && Behind(s, peers)
    ensures Reached(s, peers, SendAll(s, peers))
  {
    if peers == [] {
    } else {
      var init, peer := peers[..|peers| - 1], peers[|peers| - 1];
      assert peers == init + [peer];
      SendAllReaches(s, init);
      ReachOne(s, init, SendAll(s, init), peer);
    }
  }

  lemma ReachOne(s: State, init: seq<NodeId>, t: State, peer: NodeId)
    requires Indexed(t) && Reached(s, init, t) && Lookup(s.nextIndex, peer, 0) < |s.log|
    ensures Reached(s, init + [peer], SendAppendEntries(t, peer))
  {
    SendKeeps(t, peer);
    var u := SendAppendEntries(t, peer);
    if Lookup(t.nextIndex, peer, 0) < |t.log| {
      assert forall p :: p != peer ==> Lookup(u.nextIndex, p, 0) == Lookup(t.nextIndex, p, 0);
      assert forall p :: Lookup(u.matchIndex, p, -1) == if p == peer then |s.log| - 1 else Lookup(t.matchIndex, p, -1);
    } else {
      assert peer in init;
    }
  }

  lemma AllCaughtUp(s: State, sent: State)
    requires Reached(s, s.peers, sent)
    ensures Choice(Matches(sent)) == |s.log| - 1
  {
    UnanimousChoice(Matches(sent), |s.log| - 1);
  }

  lemma CommandsAppend(log: seq<LogEntry>, entry: LogEntry)
    ensures Commands((log + [entry])[..|log| + 1]) == Commands(log) + [entry.command]
  {
    assert (log + [entry])[..|log| + 1] == log + [entry];
  }

  lemma ProposeSends(s: State, command: Command) returns (sent: State)
    requires Safe(s) && s.role == Leader
    ensures Safe(sent) && sent.log == s.log + [LogEntry(s.currentTerm, command)]
    ensures Choice(Matches(sent)) == |s.log|
    ensures Propose(s, command) == (AdvanceCommit(sent), Accepted(|s.log|, s.currentTerm))
  {
    var logged := AppendEntry(s, command);
    AppendSafe(s, command);
    assert Behind(logged, s.peers);
    SendAllReaches(logged, s.peers);
    SendAllSafe(logged, s.peers);
    sent := SendAll(logged, s.peers);
    AllCaughtUp(logged, sent);
  }

  /** A proposal that a leader accepts is committed and applied, last of all, when it returns. */
  lemma ProposeCommits(s: State, command: Command)
    requires Safe(s) && s.role == Leader
    ensures
      var (t, reply) := Propose(s, command);
      && reply == Accepted(|s.log|, s.currentTerm)
      && t.log == s.log + [LogEntry(s.currentTerm, command)]
      && t.commitIndex == t.lastApplied == |s.log|
      && t.replicated == Commands(s.log) + [command]
  {
    var sent := ProposeSends(s, command);
    AdvanceIndexed(sent);
    AdvanceSafe(sent);
    CommandsAppend(s.log, LogEntry(s.currentTerm, command));
  }

  /** In every safe state: accepted if and only if the node leads, and then in the log under the index and term
      of the reply, committed and applied; refused, nothing changes and the known leader is named. */
  lemma ProposeOutcome(s: State, command: Command)
    requires Safe(s)
    ensures
      var (t, reply) := Propose(s, command);
      && (reply.Accepted? <==> s.role == Leader)
      && (reply.NotLeader? ==> t == s && reply.leader == s.leaderId)
      && (reply.Accepted? ==>
            && reply.index < |t.log| && t.log[reply.index] == LogEntry(reply.term, command)
            && s.log <= t.log && reply.term == s.currentTerm
            && reply.index == |s.log| == t.commitIndex == t.lastApplied
            && t.replicated == Commands(s.log) + [command])
  {
    if s.role == Leader {
      ProposeCommits(s, command);
    }
  }

  /** In an odd cluster the commit index only ever moves to an index a strict majority holds. */
  lemma CommitsAreMajorityBacked(s: State)
    requires Indexed(s) && |s.peers| % 2 == 0 && AdvanceCommit(s).commitIndex != s.commitIndex
    ensures 2 * Holders(Matches(s), AdvanceCommit(s).commitIndex) > |s.peers| + 1
  {
    ChoiceInLog(s);
    OddMajority(Matches(s));
  }

  /** After an operation the whole log is committed. */
  ghost predicate AllCommitted(s: State) {
    s.commitIndex == |s.log| - 1
  }

  lemma SendCommits(s: State, peer: NodeId)
    requires Safe(s) && AllCommitted(s)
    ensures AllCommitted(SendAppendEntries(s, peer))
  {
    SendKeeps(s, peer);
    SendSafe(s, peer);
  }

  lemma StepCommits(s: State, op: Op)
    requires Safe(s) && AllCommitted(s)
    ensures AllCommitted(Step(s, op))
  {
    match op
    case Elect =>
    case StepDown(term, leader) =>
    case Heartbeat(peer) => SendCommits(s, peer);
    case ProposeOp(command) =>
      if s.role == Leader {
        ProposeCommits(s, command);
      }
  }

  lemma {:induction false} RunAllCommitted(first: State, ops: seq<Op>)
    requires Safe(first) && AllCommitted(first) && AllAllowed(first, ops)
    ensures AllCommitted(Run(first, ops))
  {
    if ops == [] {
    } else {
      RunAllCommitted(first, ops[..|ops| - 1]);
      RunSafe(first, ops[..|ops| - 1]);
      StepCommits(Run(first, ops[..|ops| - 1]), ops[|ops| - 1]);
    }
  }

  /** In every run of a fresh node each operation leaves the whole log committed and applied. */
  lemma RunCommitsAll(nodeId: NodeId, peers: seq<NodeId>, ops: seq<Op>)
    requires AllAllowed(Initial(nodeId, peers), ops)
    ensures
      var s := Run(Initial(nodeId, peers), ops);
      s.commitIndex == |s.log| - 1 && s.replicated == Commands(s.log)
  {
    FreshNodeSafe(nodeId, peers);
    RunAllCommitted(Initial(nodeId, peers), ops);
    RunSafe(Initial(nodeId, peers), ops);
    var s := Run(Initial(nodeId, peers), ops);
    assert s.log[..|s.log|] == s.log;
  }

  // ---------------------------------------------------------------- in the middle of a proposal

  /** The leader's state once the first k peers have been served the new entry. */
  function Underway(s: State, command: Command, k: nat): (t: State)
    requires Indexed(s) && k <= |s.peers|
    ensures Indexed(t)
  {
    SendAll(AppendEntry(s, command), s.peers[..k])
  }

  lemma UnderwayNext(s: State, command: Command, k: nat)
    requires Indexed(s) && k < |s.peers|
    ensures Underway(s, command, k + 1) == SendAppendEntries(Underway(s, command, k), s.peers[k])
  {
    assert s.peers[..k + 1][..k] == s.peers[..k];
  }

  /** Served peers have the new entry, the others at most what was there before. */
  lemma UnderwayMatches(s: State, command: Command, k: nat, i: nat)
    requires Indexed(s) && Distinct(s.peers) && k <= |s.peers| && i <= |s.peers|
    ensures |Matches(Underway(s, command, k))| == |s.peers| + 1
    ensures i < k || i == |s.peers| ==> Matches(Underway(s, command, k))[i] == |s.log|
    ensures k <= i < |s.peers| ==> Matches(Underway(s, command, k))[i] < |s.log|
  {
    var logged := AppendEntry(s, command);
    assert Behind(logged, s.peers[..k]);
    SendAllReaches(logged, s.peers[..k]);
    if i < k {
      assert s.peers[i] == s.peers[..k][i];
    } else if i < |s.peers| {
      assert s.peers[i] !in s.peers[..k];
    }
  }

  lemma UnderwayHolders(s: State, command: Command, k: nat)
    requires Indexed(s) && Distinct(s.peers) && k <= |s.peers|
    ensures |Matches(Underway(s, command, k))| == |s.peers| + 1
    ensures Holders(Matches(Underway(s, command, k)), |s.log|) == k + 1
    ensures Holders(Matches(Underway(s, command, k)), |s.log| + 1) == 0
  {
    var ms := Matches(Underway(s, command, k));
    forall i: nat | i <= |s.peers|
      ensures |ms| == |s.peers| + 1
      ensures i < k || i == |s.peers| ==> ms[i] == |s.log|
      ensures k <= i < |s.peers| ==> ms[i] < |s.log|
    {
      UnderwayMatches(s, command, k, i);
    }
    HoldersOfSome(ms, k, |s.log|);
    NoHolders(ms, |s.log| + 1);
  }

  lemma HoldersOfSome(ms: seq<int>, k: nat, v: int)
    requires k < |ms| && ms[|ms| - 1] >= v
    requires (forall i :: 0 <= i < k ==> ms[i] >= v) && forall i :: k <= i < |ms| - 1 ==> ms[i] < v
    ensures Holders(ms, v) == k + 1
  {
    var init := ms[..|ms| - 1];
    AllHold(init[..k], v);
    NoHolders(init[k..], v);
    HoldersAppend(init[..k], init[k..], v);
    assert init == init[..k] + init[k..];
  }

  lemma AdvanceTo(s: State)
    requires Indexed(s)
    ensures AdvanceCommit(s).commitIndex ==
            if Choice(Matches(s)) > s.commitIndex then Choice(Matches(s)) else s.commitIndex
  {
    ChoiceInLog(s);
  }

  /** Serving a peer that is behind counts the matches as they are afterwards. */
  lemma SendAdvances(t: State, peer: NodeId)
    requires Indexed(t) && Lookup(t.nextIndex, peer, 0) < |t.log|
    ensures
      var u := SendAppendEntries(t, peer);
      u.commitIndex == if Choice(Matches(u)) > t.commitIndex then Choice(Matches(u)) else t.commitIndex
  {
    ServedIndexed(t, peer);
    AdvanceTo(Served(t, peer));
    AdvanceKeeps(Served(t, peer));
    assert Matches(SendAppendEntries(t, peer)) == Matches(Served(t, peer));
  }

  /** How many nodes, the leader included, must hold an entry before the sorted rule commits it. */
  function Enough(n: nat): nat {
    n - n / 2
  }

  lemma ChoiceFromHolders(ms: seq<int>, top: int)
    requires ms != [] && Holders(ms, top + 1) == 0
    ensures Choice(ms) <= top && (Choice(ms) == top <==> Holders(ms, top) >= Enough(|ms|))
  {
    ChoiceIsLargestBacked(ms, top);
    ChoiceIsLargestBacked(ms, top + 1);
  }

  lemma UnderwayChoice(s: State, command: Command, k: nat)
    requires Indexed(s) && Distinct(s.peers) && k <= |s.peers|
    ensures Choice(Matches(Underway(s, command, k))) <= |s.log|
    ensures Choice(Matches(Underway(s, command, k))) == |s.log| <==> k + 1 >= Enough(|s.peers| + 1)
  {
    UnderwayHolders(s, command, k);
    ChoiceFromHolders(Matches(Underway(s, command, k)), |s.log|);
  }

  lemma UnderwayAdvances(s: State, command: Command, k: nat)
    requires Indexed(s) && Distinct(s.peers) && 1 <= k <= |s.peers|
    ensures
      var c, before := Choice(Matches(Underway(s, command, k))), Underway(s, command, k - 1).commitIndex;
      Underway(s, command, k).commitIndex == if c > before then c else before
  {
    UnderwayNext(s, command, k - 1);
    UnderwayBehind(s, command, k - 1);
    SendAdvances(Underway(s, command, k - 1), s.peers[k - 1]);
  }

  lemma UnderwayBehind(s: State, command: Command, k: nat)
    requires Indexed(s) && Distinct(s.peers) && k < |s.peers|
    ensures Lookup(Underway(s, command, k).nextIndex, s.peers[k], 0) < |Underway(s, command, k).log|
  {
    var logged := AppendEntry(s, command);
    assert Behind(logged, s.peers[..k]);
    SendAllReaches(logged, s.peers[..k]);
    assert s.peers[k] !in s.peers[..k];
  }

  /** From a fully committed log, the new entry is committed as soon as some peer has been served and
      half the nodes, rounded up, hold it, and not before. */
  lemma {:induction false} CommitsUnderwayExactly(s: State, command: Command, k: nat)
    requires Indexed(s) && AllCommitted(s) && Distinct(s.peers) && k <= |s.peers|
    ensures Underway(s, command, k).commitIndex ==
            if k >= 1 && k + 1 >= Enough(|s.peers| + 1) then |s.log| else |s.log| - 1
  {
    if k == 0 {
      assert s.peers[..0] == [];
    } else {
      CommitsUnderwayExactly(s, command, k - 1);
      UnderwayAdvances(s, command, k);
      UnderwayChoice(s, command, k);
    }
  }

  /** While a proposal is under way, its entry is only ever committed by a strict majority if and only if
      the cluster is odd or has two nodes. */
  lemma MajorityUnderwayExactly(s: State, command: Command)
    requires Indexed(s) && AllCommitted(s) && Distinct(s.peers)
    ensures (forall k: nat | k <= |s.peers| && Underway(s, command, k).commitIndex == |s.log| ::
               2 * Holders(Matches(Underway(s, command, k)), |s.log|) > |s.peers| + 1) <==>
            (|s.peers| + 1) % 2 == 1 || |s.peers| + 1 <= 2
  {
    var n := |s.peers| + 1;
    forall k: nat | k <= |s.peers|
      ensures Underway(s, command, k).commitIndex == |s.log| <==> k >= 1 && k + 1 >= Enough(n)
      ensures Holders(Matches(Underway(s, command, k)), |s.log|) == k + 1
    {
      CommitsUnderwayExactly(s, command, k);
      UnderwayHolders(s, command, k);
    }
    if n % 2 == 0 && n > 2 {
      var k: nat := n / 2 - 1;
      assert Underway(s, command, k).commitIndex == |s.log|;
    }
  }

  lemma {:induction false} RunPeers(first: State, ops: seq<Op>)
    requires Indexed(first)
    ensures Run(first, ops).peers == first.peers
  {
    if ops == [] {
    } else {
      var before := Run(first, ops[..|ops| - 1]);
      RunPeers(first, ops[..|ops| - 1]);
      StepPeers(before, ops[|ops| - 1]);
    }
  }

  lemma StepPeers(s: State, op: Op)
    requires Indexed(s)
    ensures Step(s, op).peers == s.peers
  {
    match op
    case Elect =>
    case StepDown(_, _) =>
    case Heartbeat(peer) => SendKeeps(s, peer);
    case ProposeOp(command) =>
      if s.role == Leader {
        SendAllPeers(AppendEntry(s, command), s.peers);
        AdvanceKeeps(SendAll(AppendEntry(s, command), s.peers));
      }
  }

  lemma {:induction false} SendAllPeers(s: State, peers: seq<NodeId>)
    requires Indexed(s)
    ensures SendAll(s, peers).peers == s.peers
  {
    if peers == [] {
    } else {
      SendAllPeers(s, peers[..|peers| - 1]);
      SendKeeps(SendAll(s, peers[..|peers| - 1]), peers[|peers| - 1]);
    }
  }

  lemma UnderwayApplied(s: State, command: Command, k: nat)
    requires Indexed(s) && AllCommitted(s) && Distinct(s.peers) && k <= |s.peers|
    ensures Underway(s, command, k).lastApplied == |s.log| <==> k >= 1 && k + 1 >= Enough(|s.peers| + 1)
  {
    CommitsUnderwayExactly(s, command, k);
  }

  lemma HalfCommits(s: State, command: Command) returns (k: nat)
    requires Indexed(s) && AllCommitted(s) && Distinct(s.peers) && |s.peers| % 2 == 1 && |s.peers| >= 3
    ensures k <= |s.peers| && Underway(s, command, k).lastApplied == |s.log|
    ensures 2 * Holders(Matches(Underway(s, command, k)), |s.log|) == |s.peers| + 1
  {
    k := (|s.peers| + 1) / 2 - 1;
    UnderwayApplied(s, command, k);
    UnderwayHolders(s, command, k);
  }

  /** So in every run of an even cluster of four or more, each proposal a leader makes is at some point
      committed, and applied, with the entry on only half the nodes. */
  lemma EvenClusterCommitsByHalf(nodeId: NodeId, peers: seq<NodeId>, ops: seq<Op>, command: Command)
    requires Distinct(peers) && |peers| % 2 == 1 && |peers| >= 3 && AllAllowed(Initial(nodeId, peers), ops)
    ensures
      var s := Run(Initial(nodeId, peers), ops);
      exists k: nat :: k <= |s.peers| && Underway(s, command, k).lastApplied == |s.log| &&
                       2 * Holders(Matches(Underway(s, command, k)), |s.log|) == |s.peers| + 1
  {
    RunCommitsAll(nodeId, peers, ops);
    RunPeers(Initial(nodeId, peers), ops);
    var k := HalfCommits(Run(Initial(nodeId, peers), ops), command);
  }

  // ---------------------------------------------------------------- what a run looks like from outside

  /** What remains of a run when replication is left out: who leads, and what has been accepted. */
  datatype Record = Record(leads: bool, term: int, voted: Option<NodeId>, leader: Option<NodeId>,
                           entries: seq<LogEntry>)

  /** An election raises the term and wins it; a step down takes over the term and leader it is told; what a
      leader is proposed is accepted under its term; all else changes nothing. */
  function RecordOf(nodeId: NodeId, ops: seq<Op>): Record {
    if ops == [] then Record(false, 0, None, None, []) else
      var r := RecordOf(nodeId, ops[..|ops| - 1]);
      match ops[|ops| - 1]
      case Elect => r.(leads := true, term := r.term + 1, voted := Some(nodeId), leader := Some(nodeId))
      case StepDown(term, leader) => r.(leads := false, term := term, voted := None, leader := leader)
      case Heartbeat(_) => r
      case ProposeOp(command) => if r.leads then r.(entries := r.entries + [LogEntry(r.term, command)]) else r
  }

  /** The node stands as recorded, with everything accepted committed and applied. */
  ghost predicate Stands(s: State, r: Record) {
    && s.role == (if r.leads then Leader else Follower) && s.currentTerm == r.term
    && s.votedFor == r.voted && s.leaderId == r.leader && s.log == r.entries
    && s.commitIndex == s.lastApplied == |r.entries| - 1 && s.replicated == Commands(r.entries)
  }

  /** Serving a peer touches neither the node's office nor its log, and takes no commit back. */
  ghost predicate Keeps(s: State, t: State)
    requires Indexed(s) && Indexed(t)
  {
    && t.nodeId == s.nodeId && t.peers == s.peers && t.role == s.role && t.currentTerm == s.currentTerm
    && t.votedFor == s.votedFor && t.leaderId == s.leaderId && t.log == s.log
    && s.commitIndex <= t.commitIndex
    && t.replicated == s.replicated + Commands(s.log[s.commitIndex + 1..t.commitIndex + 1])
  }

  lemma AdvanceCommitKeeps(s: State)
    requires Indexed(s)
    ensures Indexed(AdvanceCommit(s)) && Keeps(s, AdvanceCommit(s))
  {
    AdvanceIndexed(s);
  }

  lemma SendOneKeeps(s: State, peer: NodeId)
    requires Indexed(s)
    ensures Indexed(SendAppendEntries(s, peer)) && Keeps(s, SendAppendEntries(s, peer))
  {
    if Lookup(s.nextIndex, peer, 0) < |s.log| {
      ServedIndexed(s, peer);
      AdvanceCommitKeeps(Served(s, peer));
    } else {
      assert s.log[s.commitIndex + 1..s.commitIndex + 1] == [];
    }
  }

  lemma KeepsTwice(s: State, t: State, u: State)
    requires Indexed(s) && Indexed(t) && Indexed(u) && Keeps(s, t) && Keeps(t, u)
    ensures Keeps(s, u)
  {
    CommandsJoin(s.log, s.commitIndex + 1, t.commitIndex + 1, u.commitIndex + 1);
  }

  lemma CommandsJoin(log: seq<LogEntry>, a: nat, b: nat, c: nat)
    requires a <= b <= c <= |log|
    ensures Commands(log[a..b]) + Commands(log[b..c]) == Commands(log[a..c])
  {
    assert log[a..b] + log[b..c] == log[a..c];
  }

  lemma {:induction false} SendAllKeeps(s: State, peers: seq<NodeId>)
    requires Indexed(s)
    ensures Keeps(s, SendAll(s, peers))
  {
    if peers == [] {
      assert s.log[s.commitIndex + 1..s.commitIndex + 1] == [];
    } else {
      var t := SendAll(s, peers[..|peers| - 1]);
      SendAllKeeps(s, peers[..|peers| - 1]);
      SendOneKeeps(t, peers[|peers| - 1]);
      KeepsTwice(s, t, SendAll(s, peers));
    }
  }

  /** A leader's proposal, from any state in which everything is committed. */
  lemma ProposeStands(s: State, r: Record, command: Command)
    requires Indexed(s) && Stands(s, r) && r.leads
    ensures
      var (t, reply) := Propose(s, command);
      Indexed(t) && Stands(t, r.(entries := r.entries + [LogEntry(r.term, command)])) &&
      reply == Accepted(|r.entries|, r.term)
  {
    var logged := AppendEntry(s, command);
    var sent := SendAll(logged, s.peers);
    assert Behind(logged, s.peers);
    SendAllReaches(logged, s.peers);
    AllCaughtUp(logged, sent);
    SendAllKeeps(logged, s.peers);
    AdvanceCommitKeeps(sent);
    AdvanceIndexed(sent);
    KeepsTwice(logged, sent, AdvanceCommit(sent));
    LastCommand(s.log, LogEntry(r.term, command));
  }

  lemma LastCommand(log: seq<LogEntry>, entry: LogEntry)
    ensures Commands((log + [entry])[|log|..|log| + 1]) == [entry.command]
    ensures Commands(log + [entry]) == Commands(log) + [entry.command]
  {
  }

  lemma StepStands(s: State, r: Record, op: Op)
    requires Indexed(s) && Stands(s, r) && !op.ProposeOp? && !op.Elect?
    ensures Indexed(Step(s, op))
    ensures Stands(Step(s, op), if op.StepDown? then Record(false, op.term, None, op.leader, r.entries) else r)
  {
    StepIndexed(s, op);
    if op.Heartbeat? {
      SendOneKeeps(s, op.peer);
      assert s.log[s.commitIndex + 1..Step(s, op).commitIndex + 1] == [];
    }
  }

  lemma ElectStands(s: State, r: Record)
    requires Indexed(s) && Stands(s, r)
    ensures Indexed(Step(s, Elect)) && Step(s, Elect).nodeId == s.nodeId
    ensures Stands(Step(s, Elect), r.(leads := true, term := r.term + 1, voted := Some(s.nodeId),
                                      leader := Some(s.nodeId)))
  {
    ElectionIndexed(s);
  }

  lemma {:induction false} RunNodeId(first: State, ops: seq<Op>)
    requires Indexed(first)
    ensures Run(first, ops).nodeId == first.nodeId
  {
    if ops == [] {
    } else {
      var s, op := Run(first, ops[..|ops| - 1]), ops[|ops| - 1];
      RunNodeId(first, ops[..|ops| - 1]);
      if op.Heartbeat? {
        SendOneKeeps(s, op.peer);
      } else if op.ProposeOp? && s.role == Leader {
        SendAllKeeps(AppendEntry(s, op.command), s.peers);
        AdvanceCommitKeeps(SendAll(AppendEntry(s, op.command), s.peers));
      }
    }
  }

  /** Whatever a fresh node is asked to do, it stands as its record says: the log is what it was proposed in
      office, each entry under the term of that time, and all of it is committed and applied. */
  lemma {:induction false} RunStands(nodeId: NodeId, peers: seq<NodeId>, ops: seq<Op>)
    ensures Stands(Run(Initial(nodeId, peers), ops), RecordOf(nodeId, ops))
  {
    if ops == [] {
    } else {
      var init, op := ops[..|ops| - 1], ops[|ops| - 1];
      var s, r := Run(Initial(nodeId, peers), init), RecordOf(nodeId, init);
      RunStands(nodeId, peers, init);
      RunNodeId(Initial(nodeId, peers), init);
      if op.Elect? {
        ElectStands(s, r);
      } else if op.ProposeOp? {
        if r.leads {
          ProposeStands(s, r, op.command);
        }
      } else {
        StepStands(s, r, op);
      }
    }
  }

  /** After any run a proposal is accepted if and only if the node leads. Accepted, it is in the log under
      the index and term of the reply, committed and applied; refused, nothing has changed, and the reply
      names the leader that the last election or step down left. */
  lemma ProposeAnswers(nodeId: NodeId, peers: seq<NodeId>, ops: seq<Op>, command: Command)
    ensures
      var s, r := Run(Initial(nodeId, peers), ops), RecordOf(nodeId, ops);
      var (t, reply) := Propose(s, command);
      && (reply.Accepted? <==> r.leads)
      && (reply.NotLeader? ==> t == s && reply.leader == r.leader)
      && (reply.Accepted? ==>
            && reply.index == |s.log| < |t.log| && t.log[reply.index] == LogEntry(reply.term, command)
            && reply.term == r.term && s.log <= t.log
            && reply.index == t.commitIndex == t.lastApplied
            && t.replicated == s.replicated + [command])
  {
    RunStands(nodeId, peers, ops);
    if RecordOf(nodeId, ops).leads {
      ProposeStands(Run(Initial(nodeId, peers), ops), RecordOf(nodeId, ops), command);
      LastCommand(RecordOf(nodeId, ops).entries, LogEntry(RecordOf(nodeId, ops).term, command));
    }
  }

  lemma {:induction false} RecordAfter(nodeId: NodeId, before: seq<Op>, op: Op, more: seq<Op>)
    requires op.StepDown? || op.Elect?
    requires forall i :: 0 <= i < |more| ==> !more[i].Elect? && !more[i].StepDown?
    ensures
      var r := RecordOf(nodeId, before + [op] + more);
      && r.leads == op.Elect?
      && r.leader == (if op.StepDown? then op.leader else Some(nodeId))
      && (op.StepDown? ==> r.term == op.term)
  {
    var ops := before + [op] + more;
    if more == [] {
      assert ops[..|ops| - 1] == before;
    } else {
      assert ops[..|ops| - 1] == before + [op] + more[..|more| - 1];
      RecordAfter(nodeId, before, op, more[..|more| - 1]);
    }
  }

  /** A refusal after a step down names the leader passed to it, as long as no election follows. */
  lemma RefusalNamesLeader(nodeId: NodeId, peers: seq<NodeId>, before: seq<Op>, term: int, leader: Option<NodeId>,
                           more: seq<Op>, command: Command)
    requires forall i :: 0 <= i < |more| ==> !more[i].Elect? && !more[i].StepDown?
    ensures
      var s := Run(Initial(nodeId, peers), before + [StepDown(term, leader)] + more);
      Propose(s, command) == (s, NotLeader(leader)) && s.currentTerm == term
  {
    RecordAfter(nodeId, before, StepDown(term, leader), more);
    ProposeAnswers(nodeId, peers, before + [StepDown(term, leader)] + more, command);
    RunStands(nodeId, peers, before + [StepDown(term, leader)] + more);
  }
}
