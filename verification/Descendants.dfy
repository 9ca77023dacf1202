// The monitor's process closure (scripts/watch_real_book_live.py:147-160).
module Descendants {
  datatype Process = Process(pid: int, ppid: int)

  ghost predicate IsChild(processes: seq<Process>, parent: int, child: int) {
    Process(child, parent) in processes
  }

  // A chain of child links from the root down.
  ghost predicate IsPath(processes: seq<Process>, path: seq<int>) {
    path != [] && forall k: nat, m: nat :: k < m < |path| && m == k + 1 ==> IsChild(processes, path[k], path[m])
  }

  ghost predicate Reaches(processes: seq<Process>, root: int, pid: int) {
    exists path :: IsPath(processes, path) && path[0] == root && path[|path| - 1] == pid
  }

  lemma ReachesItself(processes: seq<Process>, root: int)
    ensures Reaches(processes, root, root)
  {
    assert IsPath(processes, [root]) && [root][0] == root;
  }

  lemma ReachesChild(processes: seq<Process>, root: int, pid: int, child: int)
    requires Reaches(processes, root, pid) && IsChild(processes, pid, child)
    ensures Reaches(processes, root, child)
  {
    var path :| IsPath(processes, path) && path[0] == root && path[|path| - 1] == pid;
    assert IsPath(processes, path + [child]);
  }

  // A set that holds the root and every child of its members holds whatever the
  // root reaches.
  lemma {:induction false} ClosedHoldsReachable(processes: seq<Process>, pids: set<int>, path: seq<int>)
    requires IsPath(processes, path) && path[0] in pids
    requires forall parent, child :: parent in pids && IsChild(processes, parent, child) ==> child in pids
    ensures path[|path| - 1] in pids
    decreases |path|
  {
    if |path| > 1 {
      var front := path[..|path| - 1];
      assert front[|front| - 1] == path[|path| - 2];
      ClosedHoldsReachable(processes, pids, front);
    }
  }

  // child_map.setdefault(ppid, []).append(pid)
  method ChildMap(processes: seq<Process>) returns (children: map<int, seq<int>>)
    ensures forall parent, child :: IsChild(processes, parent, child) <==> parent in children && child in children[parent]
  {
    children := map[];
    for i := 0 to |processes|
      invariant forall parent, child ::
          Process(child, parent) in processes[..i] <==> parent in children && child in children[parent]
    {
      var p := processes[i];
      var siblings := if p.ppid in children then children[p.ppid] else [];
      children := children[p.ppid := siblings + [p.pid]];
      assert processes[..i + 1] == processes[..i] + [p];
    }
    assert processes[..|processes|] == processes;
  }

  function Pids(processes: seq<Process>): set<int> {
    set p | p in processes :: p.pid
  }

  lemma Newcomer(known: set<int>, descendants: set<int>) returns (p: int)
    requires known <= descendants && known != descendants
    ensures p in descendants && p !in known
  {
    assert (forall q :: q in descendants ==> q in known) ==> descendants == known;
    p :| p in descendants && p !in known;
  }

  // Depth-first over the child map. It ends on any table, cyclic parents included,
  // with exactly the processes that the root reaches.
  method CollectDescendantPids(processes: seq<Process>, root: int) returns (descendants: set<int>)
    ensures forall pid :: pid in descendants <==> Reaches(processes, root, pid)
  {
    var children := ChildMap(processes);
    descendants := {root};
    var frontier := [root];
    ReachesItself(processes, root);
    while frontier != []
      invariant root in descendants
      invariant forall pid :: pid in frontier ==> pid in descendants
      invariant forall pid :: pid in descendants ==> Reaches(processes, root, pid)
      invariant forall parent, child ::
          parent in descendants && parent !in frontier && IsChild(processes, parent, child) ==> child in descendants
      decreases Pids(processes) - descendants, |frontier|
    {
      ghost var known := descendants;
      var pid := frontier[|frontier| - 1];
      frontier := frontier[..|frontier| - 1];
      ghost var rest := frontier;
      var siblings := if pid in children then children[pid] else [];
      for i := 0 to |siblings|
        invariant known <= descendants && rest <= frontier
        invariant descendants == known ==> frontier == rest
        invariant forall p :: p in descendants && p !in known ==> p in frontier && p in Pids(processes)
        invariant forall p :: p in frontier ==> p in descendants
        invariant forall p :: p in descendants ==> Reaches(processes, root, p)
        invariant forall k: nat :: k < i ==> siblings[k] in descendants
      {
        var child := siblings[i];
        assert IsChild(processes, pid, child);
        if child !in descendants {
          ReachesChild(processes, root, pid, child);
          assert Process(child, pid).pid in Pids(processes);
          descendants := descendants + {child};
          frontier := frontier + [child];
        }
      }
      if descendants != known {
        ghost var p := Newcomer(known, descendants);
        assert p in Pids(processes) - known && p !in Pids(processes) - descendants;
      }
    }
    forall pid | Reaches(processes, root, pid) ensures pid in descendants {
      var path :| IsPath(processes, path) && path[0] == root && path[|path| - 1] == pid;
      ClosedHoldsReachable(processes, descendants, path);
    }
  }
}
