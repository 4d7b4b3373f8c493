/** The mutable objects of services/raft_coordinator.py, tied to RaftModel. */
module RaftCoordinator {
  import opened Prelude
  import opened Quorum
  import opened RaftModel

  class RaftState {
    const nodeId: NodeId
    const peers: seq<NodeId>
    var currentTerm: int
    var votedFor: Option<NodeId>
    var log: seq<LogEntry>
    var commitIndex: int
    var lastApplied: int
    var nextIndex: map<NodeId, int>
    var matchIndex: map<NodeId, int>
    var role: Role
    var leaderId: Option<NodeId>

    constructor (nodeId: NodeId, peers: seq<NodeId>)
      ensures Contents([]) == Initial(nodeId, peers)
    {
      this.nodeId, this.peers := nodeId, peers;
      currentTerm, votedFor, log := 0, None, [];
      commitIndex, lastApplied := -1, -1;
      nextIndex, matchIndex := map[], map[];
      role, leaderId := Follower, None;
    }

    /** The node's state, given what its coordinator has applied. */
    function Contents(replicated: seq<Command>): State
      reads this
    {
      State(nodeId, peers, role, currentTerm, votedFor, leaderId, log, commitIndex, lastApplied,
            nextIndex, matchIndex, replicated)
    }

    method BecomeFollower(term: int, leader: Option<NodeId>)
      modifies this
      ensures Contents([]) == RaftModel.BecomeFollower(old(Contents([])), term, leader)
      ensures role == Follower && currentTerm == term && leaderId == leader && votedFor == None
    {
      role, currentTerm, leaderId, votedFor := Follower, term, leader, None;
    }

    method BecomeCandidate()
      modifies this
      ensures Contents([]) == RaftModel.BecomeCandidate(old(Contents([])))
      ensures role == Candidate && currentTerm == old(currentTerm) + 1 && votedFor == Some(nodeId) && leaderId == None
    {
      role := Candidate;
      currentTerm := currentTerm + 1;
      votedFor, leaderId := Some(nodeId), None;
    }

    method BecomeLeader()
      modifies this
      ensures Contents([]) == RaftModel.BecomeLeader(old(Contents([])))
      ensures nextIndex == map p | p in old(nextIndex).Keys + ToSet(peers) ::
                             if p in peers then |log| else old(nextIndex)[p]
      ensures matchIndex == map p | p in old(matchIndex).Keys + ToSet(peers) ::
                              if p in peers then -1 else old(matchIndex)[p]
    {
      role, leaderId := Leader, Some(nodeId);
      for i := 0 to |peers|
        invariant nextIndex == SetAll(old(nextIndex), peers[..i], |log|)
        invariant matchIndex == SetAll(old(matchIndex), peers[..i], -1)
        invariant role == Leader && leaderId == Some(nodeId)
        invariant currentTerm == old(currentTerm) && votedFor == old(votedFor) && log == old(log)
        invariant commitIndex == old(commitIndex) && lastApplied == old(lastApplied)
      {
        assert peers[..i + 1][..i] == peers[..i];
        nextIndex := nextIndex[peers[i] := |log|];
        matchIndex := matchIndex[peers[i] := -1];
      }
      assert peers[..|peers|] == peers;
      SetAllValues(old(nextIndex), peers, |log|);
      SetAllValues(old(matchIndex), peers, -1);
    }

    method AppendEntry(term: int, command: Command) returns (index: nat)
      modifies this`log
      ensures log == old(log) + [LogEntry(term, command)] && index == |old(log)|
    {
      log := log + [LogEntry(term, command)];
      index := |log| - 1;
    }
  }

  class RaftCoordinator {
    const state: RaftState
    var replicatedLog: seq<Command>

    constructor (nodeId: NodeId, peers: seq<NodeId>)
      ensures fresh(state) && Contents() == Initial(nodeId, peers)
    {
      state := new RaftState(nodeId, peers);
      replicatedLog := [];
    }

    function Contents(): State
      reads this, state
    {
      state.Contents(replicatedLog)
    }

    /** RequestVote, simulated: peers always grant. */
    method RequestVote(peer: NodeId, term: int, lastLogIndex: int, lastLogTerm: int) returns (granted: bool)
      ensures granted
    {
      granted := true;
    }

    method StartElection()
      modifies state
      ensures Contents() == RaftModel.StartElection(old(Contents()))
    {
      state.BecomeCandidate();
      ghost var candidate := Contents();
      var lastTerm := if state.log != [] then state.log[|state.log| - 1].term else 0;
      var votes := 1;
      for i := 0 to |state.peers|
        invariant votes == 1 + i && Contents() == candidate
      {
        var granted := RequestVote(state.peers[i], state.currentTerm, |state.log| - 1, lastTerm);
        if granted {
          votes := votes + 1;
        }
      }
      if votes >= VotesNeeded(|state.peers|) {
        state.BecomeLeader();
      }
    }

    method SendAppendEntries(peer: NodeId)
      requires Indexed(Contents())
      modifies this, state
      ensures Contents() == RaftModel.SendAppendEntries(old(Contents()), peer)
    {
      var next := if peer in state.nextIndex then state.nextIndex[peer] else 0;
      if next < |state.log| {
        state.matchIndex := state.matchIndex[peer := |state.log| - 1];
        state.nextIndex := state.nextIndex[peer := |state.log|];
        AdvanceCommitIndex();
      }
    }

    method AdvanceCommitIndex()
      requires Indexed(Contents())
      modifies this, state
      ensures Contents() == AdvanceCommit(old(Contents()))
    {
      ChoiceInLog(Contents());
      var matches := [];
      for i := 0 to |state.peers|
        invariant matches == Matches(Contents())[..i]
      {
        matches := matches + [if state.peers[i] in state.matchIndex then state.matchIndex[state.peers[i]] else -1];
      }
      matches := matches + [|state.log| - 1];
      assert matches == Matches(Contents());
      var newCommit := Ascending(matches)[|matches| / 2];
      if newCommit > state.commitIndex {
        state.commitIndex := newCommit;
        ApplyCommittedEntries();
      }
    }

    method ApplyCommittedEntries()
      requires -1 <= state.lastApplied < |state.log| && state.commitIndex < |state.log|
      modifies this, state`lastApplied
      ensures Contents() == ApplyCommitted(old(Contents()))
    {
      ghost var first := state.lastApplied + 1;
      while state.lastApplied < state.commitIndex
        invariant first - 1 <= state.lastApplied < |state.log|
        invariant state.lastApplied <= state.commitIndex || state.lastApplied == first - 1
        invariant replicatedLog == old(replicatedLog) + Commands(state.log[first..state.lastApplied + 1])
        decreases state.commitIndex - state.lastApplied
      {
        state.lastApplied := state.lastApplied + 1;
        var entry := state.log[state.lastApplied];
        assert state.log[first..state.lastApplied + 1] == state.log[first..state.lastApplied] + [entry];
        replicatedLog := replicatedLog + [entry.command];
      }
    }

    method Propose(command: Command) returns (reply: Reply)
      requires Indexed(Contents())
      modifies this, state
      ensures (Contents(), reply) == RaftModel.Propose(old(Contents()), command)
    {
      if state.role != Leader {
        return NotLeader(state.leaderId);
      }
      var index := state.AppendEntry(state.currentTerm, command);
      ghost var logged := Contents();
      for i := 0 to |state.peers|
        invariant Indexed(Contents()) && Contents() == SendAll(logged, state.peers[..i])
      {
        assert state.peers[..i + 1][..i] == state.peers[..i];
        SendIndexed(Contents(), state.peers[i]);
        SendAppendEntries(state.peers[i]);
      }
      assert state.peers[..|state.peers|] == state.peers;
      AdvanceCommitIndex();
      SendAllTerm(logged, state.peers);
      AdvanceIndexed(SendAll(logged, state.peers));
      return Accepted(index, state.currentTerm);
    }

    lemma {:induction false} SendAllTerm(s: State, peers: seq<NodeId>)
      requires Indexed(s)
      ensures SendAll(s, peers).currentTerm == s.currentTerm
    {
      if peers != [] {
        SendAllTerm(s, peers[..|peers| - 1]);
        SendKeeps(SendAll(s, peers[..|peers| - 1]), peers[|peers| - 1]);
      }
    }
  }
}
