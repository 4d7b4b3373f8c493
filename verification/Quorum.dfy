/** The majority arithmetic of services/raft_coordinator.py: the sorted-match commit rule and the
    election threshold. */
module Quorum {
  import opened Prelude
  import opened StableSort

  function Ascending(matches: seq<int>): seq<int> {
    SortBy(matches, (x: int) => x as real)
  }

  /** matches.sort(); matches[len(matches) // 2] */
  function Choice(matches: seq<int>): int
    requires matches != []
  {
    Ascending(matches)[|matches| / 2]
  }

  /** How many nodes hold the log up to index v. */
  function Holders(matches: seq<int>, v: int): nat {
    if matches == [] then 0 else Holders(matches[..|matches| - 1], v) + if matches[|matches| - 1] >= v then 1 else 0
  }

  lemma {:induction false} HoldersWithout(s: seq<int>, i: nat, v: int)
    requires i < |s|
    ensures Holders(s, v) == Holders(s[..i] + s[i + 1..], v) + if s[i] >= v then 1 else 0
  {
    var init, rest := s[..|s| - 1], s[..i] + s[i + 1..];
    if i == |s| - 1 {
      assert rest == init;
    } else {
      HoldersWithout(init, i, v);
      assert rest[..|rest| - 1] == init[..i] + init[i + 1..];
    }
  }

  lemma {:induction false} HoldersPermuted(a: seq<int>, b: seq<int>, v: int)
    requires multiset(a) == multiset(b)
    ensures Holders(a, v) == Holders(b, v)
    decreases |a|
  {
    assert |a| == |multiset(a)| == |b|;
    if a == [] {
    } else {
      var i := RemoveCommon(a, b);
      HoldersWithout(b, i, v);
      HoldersPermuted(a[..|a| - 1], b[..i] + b[i + 1..], v);
    }
  }

  /** In an ascending list the holders of v are a suffix. */
  lemma {:induction false} HoldersAscending(s: seq<int>, v: int, k: nat)
    requires forall i, j :: 0 <= i < j < |s| ==> s[i] <= s[j]
    requires k < |s|
    ensures s[k] >= v ==> Holders(s, v) >= |s| - k
    ensures s[k] < v ==> Holders(s, v) <= |s| - k - 1
  {
    if |s| > 1 && k < |s| - 1 {
      HoldersAscending(s[..|s| - 1], v, k);
    } else {
      HoldersAtMost(s[..|s| - 1], v);
      if s[k] < v {
        NoHolders(s, v);
      }
    }
  }

  lemma {:induction false} HoldersAtMost(s: seq<int>, v: int)
    ensures Holders(s, v) <= |s|
  {
    if s == [] {
    } else {
      HoldersAtMost(s[..|s| - 1], v);
    }
  }

  lemma {:induction false} NoHolders(s: seq<int>, v: int)
    requires forall i :: 0 <= i < |s| ==> s[i] < v
    ensures Holders(s, v) == 0
  {
    if s == [] {
    } else {
      NoHolders(s[..|s| - 1], v);
    }
  }

  lemma SortedAscends(matches: seq<int>)
    ensures forall i, j :: 0 <= i < j < |matches| ==> Ascending(matches)[i] <= Ascending(matches)[j]
  {
    var key := (x: int) => x as real;
    var s := SortBy(matches, key);
    forall i, j | 0 <= i < j < |matches|
      ensures s[i] <= s[j]
    {
      assert key(s[i]) <= key(s[j]);
    }
  }

  /** The commit rule picks the largest index that at least ceil(n / 2) nodes hold. */
  lemma ChoiceIsLargestBacked(matches: seq<int>, v: int)
    requires matches != []
    ensures Holders(matches, v) >= |matches| - |matches| / 2 <==> v <= Choice(matches)
  {
    var s := Ascending(matches);
    SortedAscends(matches);
    HoldersPermuted(s, matches, v);
    HoldersAscending(s, v, |matches| / 2);
  }

  /** Everybody at v means v is chosen. */
  lemma UnanimousChoice(matches: seq<int>, v: int)
    requires matches != [] && forall i :: 0 <= i < |matches| ==> matches[i] == v
    ensures Choice(matches) == v
  {
    SortSameElements(matches, (x: int) => x as real);
    assert Choice(matches) in Ascending(matches);
  }

  function Repeat(v: int, n: nat): (s: seq<int>)
    ensures |s| == n && forall i :: 0 <= i < n ==> s[i] == v
  {
    seq(n, _ => v)
  }

  lemma {:induction false} HoldersAppend(a: seq<int>, b: seq<int>, v: int)
    ensures Holders(a + b, v) == Holders(a, v) + Holders(b, v)
  {
    if b == [] {
      assert a + b == a;
    } else {
      assert (a + b)[..|a + b| - 1] == a + b[..|b| - 1];
      HoldersAppend(a, b[..|b| - 1], v);
    }
  }

  lemma {:induction false} AllHold(s: seq<int>, v: int)
    requires forall i :: 0 <= i < |s| ==> s[i] >= v
    ensures Holders(s, v) == |s|
  {
    if s == [] {
    } else {
      AllHold(s[..|s| - 1], v);
    }
  }

  /** Half the nodes at 0 and half at 1: only half of them hold the index chosen. */
  lemma EvenSplit(half: nat) returns (matches: seq<int>)
    requires half > 0
    ensures |matches| == 2 * half && Choice(matches) == 1 && Holders(matches, 1) == half
  {
    matches := Repeat(0, half) + Repeat(1, half);
    HoldersAppend(Repeat(0, half), Repeat(1, half), 1);
    HoldersAppend(Repeat(0, half), Repeat(1, half), 2);
    NoHolders(Repeat(0, half), 1);
    AllHold(Repeat(1, half), 1);
    NoHolders(Repeat(0, half), 2);
    NoHolders(Repeat(1, half), 2);
    ChoiceIsLargestBacked(matches, 1);
    ChoiceIsLargestBacked(matches, 2);
  }

  ghost predicate MajorityBacked(matches: seq<int>)
    requires matches != []
  {
    2 * Holders(matches, Choice(matches)) > |matches|
  }

  lemma OddMajority(matches: seq<int>)
    requires |matches| % 2 == 1
    ensures MajorityBacked(matches)
  {
    ChoiceIsLargestBacked(matches, Choice(matches));
  }

  /** In a cluster of n nodes the chosen index is always held by a strict majority exactly if n is odd. */
  lemma CommitMajorityExactly(n: nat)
    requires n > 0
    ensures (forall matches: seq<int> | |matches| == n :: MajorityBacked(matches)) <==> n % 2 == 1
  {
    if n % 2 == 1 {
      forall matches: seq<int> | |matches| == n
        ensures MajorityBacked(matches)
      {
        OddMajority(matches);
      }
    } else {
      var matches := EvenSplit(n / 2);
      assert !MajorityBacked(matches);
    }
  }

  /** len(peers) // 2 + 1 votes win, in a cluster of len(peers) + 1 nodes. */
  function VotesNeeded(peers: nat): nat {
    peers / 2 + 1
  }

  ghost predicate CanCommit<T>(holders: set<T>, nodes: set<T>) {
    holders <= nodes && |holders| >= |nodes| - |nodes| / 2
  }

  ghost predicate CanElect<T>(voters: set<T>, nodes: set<T>)
    requires nodes != {}
  {
    voters <= nodes && |voters| >= VotesNeeded(|nodes| - 1)
  }

  lemma {:induction false} SubsetOfSize<T>(s: set<T>, k: nat) returns (t: set<T>)
    requires k <= |s|
    ensures t <= s && |t| == k
  {
    if k == 0 {
      t := {};
    } else {
      var x :| x in s;
      var rest := SubsetOfSize(s - {x}, k - 1);
      t := rest + {x};
    }
  }

  lemma SharedMember<T>(nodes: set<T>, a: set<T>, b: set<T>)
    requires a <= nodes && b <= nodes && |a| + |b| > |nodes|
    ensures a * b != {}
  {
    if a * b == {} {
      assert |a + b| == |a| + |b|;
      SubsetSize(a + b, nodes);
    }
  }

  /** Every set of nodes large enough to commit meets every set large enough to elect exactly if the
      cluster is odd; in an even cluster two halves can act separately. */
  lemma QuorumsMeetExactly<T(!new)>(nodes: set<T>)
    requires nodes != {}
    ensures (forall holders: set<T>, voters: set<T> | CanCommit(holders, nodes) && CanElect(voters, nodes) ::
               holders * voters != {}) <==> |nodes| % 2 == 1
  {
    var n := |nodes|;
    if n % 2 == 1 {
      forall holders: set<T>, voters: set<T> | CanCommit(holders, nodes) && CanElect(voters, nodes)
        ensures holders * voters != {}
      {
        SharedMember(nodes, holders, voters);
      }
    } else {
      var holders := SubsetOfSize(nodes, n / 2);
      var voters := nodes - holders;
      assert |voters| == n - n / 2;
      assert CanCommit(holders, nodes) && CanElect(voters, nodes);
      assert holders * voters == {};
    }
  }
}
