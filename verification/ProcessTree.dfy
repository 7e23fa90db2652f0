/** CPU time of a process and all its descendants, from the rows of one process listing. The listing is a
    snapshot of a changing system, so it may repeat pids, name unknown parents, and even contain cycles. */
module ProcessTree {
  import opened Text

  datatype Row = Row(pid: nat, ppid: nat, cpuMs: nat)

  // ---------- What a listing says ----------

  /** The CPU time of a pid: that of its last row. */
  function CpuOf(rows: seq<Row>, pid: nat): Option<nat> {
    if rows == [] then None
    else if rows[|rows| - 1].pid == pid then Some(rows[|rows| - 1].cpuMs)
    else CpuOf(rows[..|rows| - 1], pid)
  }

  /** A row's time is its pid's, unless a later row repeats the pid; with distinct pids every row gives its own. */
  lemma {:induction false} CpuOfRow(rows: seq<Row>, i: nat)
    requires i < |rows| && forall j | i < j < |rows| :: rows[j].pid != rows[i].pid
    ensures CpuOf(rows, rows[i].pid) == Some(rows[i].cpuMs) && Cpu(rows, rows[i].pid) == rows[i].cpuMs
  {
    if i < |rows| - 1 {
      CpuOfRow(rows[..|rows| - 1], i);
    }
  }

  lemma {:induction false} UnlistedHasNone(rows: seq<Row>, pid: nat)
    ensures CpuOf(rows, pid).None? <==> forall i | 0 <= i < |rows| :: rows[i].pid != pid
    ensures CpuOf(rows, pid).None? ==> Cpu(rows, pid) == 0
  {
    if rows != [] {
      var init := rows[..|rows| - 1];
      UnlistedHasNone(init, pid);
      assert forall i | 0 <= i < |init| :: init[i] == rows[i];
    }
  }

  function Cpu(rows: seq<Row>, pid: nat): nat {
    if CpuOf(rows, pid).Some? then CpuOf(rows, pid).value else 0
  }

  predicate IsChild(rows: seq<Row>, parent: nat, child: nat) {
    exists i | 0 <= i < |rows| :: rows[i].ppid == parent && rows[i].pid == child
  }

  /** A chain of parents and children through pids other than 0. */
  ghost predicate IsPath(rows: seq<Row>, path: seq<nat>) {
    && path != []
    && (forall i | 0 <= i < |path| :: path[i] != 0)
    && (forall i | 0 < i < |path| :: IsChild(rows, path[i - 1], path[i]))
  }

  ghost predicate Reaches(rows: seq<Row>, root: nat, pid: nat) {
    exists path :: IsPath(rows, path) && path[0] == root && path[|path| - 1] == pid
  }

  function Universe(rows: seq<Row>, root: nat): set<nat> {
    {root} + set i | 0 <= i < |rows| :: rows[i].pid
  }

  /** The process and its descendants. */
  ghost function Tree(rows: seq<Row>, root: nat): set<nat> {
    set pid | pid in Universe(rows, root) && Reaches(rows, root, pid)
  }

  ghost function TotalCpu(rows: seq<Row>, pids: set<nat>): nat {
    if pids == {} then 0
    else
      var pid :| pid in pids;
      Cpu(rows, pid) + TotalCpu(rows, pids - {pid})
  }

  /** Each pid of a set is counted once, whatever order they are counted in. */
  lemma {:induction false} CountedOnce(rows: seq<Row>, pids: set<nat>, pid: nat)
    requires pid in pids
    ensures TotalCpu(rows, pids) == Cpu(rows, pid) + TotalCpu(rows, pids - {pid})
    ensures TotalCpu(rows, {}) == 0
    decreases |pids|
  {
    var first :| first in pids && TotalCpu(rows, pids) == Cpu(rows, first) + TotalCpu(rows, pids - {first});
    if first != pid {
      CountedOnce(rows, pids - {first}, pid);
      CountedOnce(rows, pids - {pid}, first);
      assert pids - {first} - {pid} == pids - {pid} - {first};
    }
  }

  lemma {:induction false} ReachesItself(rows: seq<Row>, root: nat)
    requires root != 0
    ensures Reaches(rows, root, root)
  {
    assert IsPath(rows, [root]);
    assert [root][0] == root;
  }

  lemma {:induction false} ReachesChild(rows: seq<Row>, root: nat, pid: nat, child: nat)
    requires Reaches(rows, root, pid) && IsChild(rows, pid, child) && child != 0
    ensures Reaches(rows, root, child)
  {
    var path :| IsPath(rows, path) && path[0] == root && path[|path| - 1] == pid;
    var longer := path + [child];
    assert IsPath(rows, longer);
    assert longer[0] == root && longer[|longer| - 1] == child;
  }

  /** A set that holds the root and the non-zero children of its members holds everything reachable. */
  lemma {:induction false} ClosedSetHoldsPath(rows: seq<Row>, closed: set<nat>, path: seq<nat>)
    requires IsPath(rows, path) && path[0] in closed
    requires forall parent, child | parent in closed && IsChild(rows, parent, child) && child != 0 :: child in closed
    ensures path[|path| - 1] in closed
  {
    if |path| > 1 {
      var rest := path[..|path| - 1];
      ClosedSetHoldsPath(rows, closed, rest);
      assert IsChild(rows, path[|path| - 2], path[|path| - 1]);
    }
  }

  lemma {:induction false} ReachableIsListed(rows: seq<Row>, root: nat, pid: nat)
    requires Reaches(rows, root, pid)
    ensures pid in Universe(rows, root) && pid != 0
  {
    var path :| IsPath(rows, path) && path[0] == root && path[|path| - 1] == pid;
    if |path| > 1 {
      assert IsChild(rows, path[|path| - 2], path[|path| - 1]);
    }
  }

  // ---------- The two tables ----------

  function ChildrenOf(rows: seq<Row>, parent: nat): seq<nat> {
    if rows == [] then []
    else ChildrenOf(rows[..|rows| - 1], parent) + if rows[|rows| - 1].ppid == parent then [rows[|rows| - 1].pid] else []
  }

  lemma {:induction false} ChildrenAreListed(rows: seq<Row>, parent: nat, child: nat)
    ensures child in ChildrenOf(rows, parent) <==> IsChild(rows, parent, child)
  {
    if rows != [] {
      var init := rows[..|rows| - 1];
      ChildrenAreListed(init, parent, child);
      if IsChild(init, parent, child) {
        var i :| 0 <= i < |init| && init[i].ppid == parent && init[i].pid == child;
        assert rows[i] == init[i];
      }
      if IsChild(rows, parent, child) {
        var i :| 0 <= i < |rows| && rows[i].ppid == parent && rows[i].pid == child;
        assert i < |init| ==> init[i] == rows[i];
      }
    }
  }

  ghost predicate IsCpuTable(rows: seq<Row>, table: map<nat, nat>) {
    forall pid: nat :: CpuOf(rows, pid) == Lookup(table, pid)
  }

  function Lookup(table: map<nat, nat>, pid: nat): Option<nat> {
    if pid in table then Some(table[pid]) else None
  }

  function CpuIn(table: map<nat, nat>, pid: nat): nat {
    if pid in table then table[pid] else 0
  }

  function Listed(table: map<nat, seq<nat>>, parent: nat): seq<nat> {
    if parent in table then table[parent] else []
  }

  ghost predicate IsChildTable(rows: seq<Row>, table: map<nat, seq<nat>>) {
    forall parent: nat :: Listed(table, parent) == ChildrenOf(rows, parent)
  }

  method FillTables(rows: seq<Row>) returns (cpuByPid: map<nat, nat>, childrenByParent: map<nat, seq<nat>>)
    ensures IsCpuTable(rows, cpuByPid)
    ensures IsChildTable(rows, childrenByParent)
  {
    cpuByPid, childrenByParent := map[], map[];
    for i := 0 to |rows|
      invariant IsCpuTable(rows[..i], cpuByPid)
      invariant IsChildTable(rows[..i], childrenByParent)
    {
      assert rows[..i + 1][..i] == rows[..i];
      var row := rows[i];
      cpuByPid := cpuByPid[row.pid := row.cpuMs];
      var children := if row.ppid in childrenByParent then childrenByParent[row.ppid] else [];
      children := children + [row.pid];
      childrenByParent := childrenByParent[row.ppid := children];
    }
    assert rows[..|rows|] == rows;
  }

  // ---------- The walk ----------

  /** What the walk keeps: everything seen or waiting belongs to the tree, except that 0 may wait; the children
      of what was seen are seen or waiting. */
  ghost predicate Walking(rows: seq<Row>, root: nat, seen: set<nat>, stack: seq<nat>) {
    && seen <= Tree(rows, root)
    && (forall pid | pid in stack :: pid == 0 || pid in Tree(rows, root))
    && (root in seen || root in stack)
    && (forall parent, child | parent in seen && IsChild(rows, parent, child) ::
          child == 0 || child in seen || child in stack)
  }

  /** The CPU time of the process tree: none without a root that the listing knows, and otherwise the sum over
      exactly the pids reachable from the root, each counted once. */
  method ReadProcessTreeCpuMs(rootPid: nat, rows: seq<Row>) returns (total: Option<nat>)
    ensures total.None? <==> rootPid == 0 || forall i | 0 <= i < |rows| :: rows[i].pid != rootPid
    ensures total.Some? ==> total.value == TotalCpu(rows, Tree(rows, rootPid))
  {
    if rootPid == 0 {
      return None;
    }
    var cpuByPid, childrenByParent := FillTables(rows);
    assert CpuOf(rows, rootPid) == Lookup(cpuByPid, rootPid);
    UnlistedHasNone(rows, rootPid);
    if rootPid !in cpuByPid {
      return None;
    }
    var totalCpuMs := Walk(rootPid, rows, cpuByPid, childrenByParent);
    total := Some(totalCpuMs);
  }

  /** How many pids of the tree the walk has still to see. */
  ghost function Unseen(rows: seq<Row>, root: nat, seen: set<nat>): nat {
    |Tree(rows, root) - seen|
  }

  method Walk(rootPid: nat, rows: seq<Row>, cpuByPid: map<nat, nat>,
              childrenByParent: map<nat, seq<nat>>) returns (totalCpuMs: nat)
    requires rootPid != 0 && IsCpuTable(rows, cpuByPid) && IsChildTable(rows, childrenByParent)
    ensures totalCpuMs == TotalCpu(rows, Tree(rows, rootPid))
  {
    totalCpuMs := 0;
    var seen: set<nat> := {};
    var stack := [rootPid];
    StartWalking(rows, rootPid);
    while |stack| > 0
      invariant Walking(rows, rootPid, seen, stack)
      invariant totalCpuMs == TotalCpu(rows, seen)
      decreases Unseen(rows, rootPid, seen), |stack|
    {
      TakeNext(rows, rootPid, cpuByPid, childrenByParent, seen, stack);
      var pid := stack[|stack| - 1];
      stack := stack[..|stack| - 1];
      if pid == 0 || pid in seen {
        continue;
      }
      seen := seen + {pid};
      totalCpuMs := totalCpuMs + CpuIn(cpuByPid, pid);
      stack := PushAll(stack, Listed(childrenByParent, pid));
    }
    WalkedAll(rows, rootPid, seen);
  }

  method PushAll(stack: seq<nat>, children: seq<nat>) returns (pushed: seq<nat>)
    ensures pushed == stack + children
  {
    pushed := stack;
    for j := 0 to |children|
      invariant pushed == stack + children[..j]
    {
      pushed := pushed + [children[j]];
    }
  }

  lemma {:induction false} TopAndRest(stack: seq<nat>)
    requires stack != []
    ensures stack == stack[..|stack| - 1] + [stack[|stack| - 1]]
  {
  }

  /** What taking the next pid does. */
  lemma {:induction false} TakeNext(rows: seq<Row>, root: nat, cpuByPid: map<nat, nat>,
                                    childrenByParent: map<nat, seq<nat>>, seen: set<nat>, stack: seq<nat>)
    requires IsCpuTable(rows, cpuByPid) && IsChildTable(rows, childrenByParent)
    requires Walking(rows, root, seen, stack) && root != 0 && stack != []
    ensures var pid, rest := stack[|stack| - 1], stack[..|stack| - 1];
            if pid == 0 || pid in seen then Walking(rows, root, seen, rest)
            else
              && Walking(rows, root, seen + {pid}, rest + Listed(childrenByParent, pid))
              && TotalCpu(rows, seen + {pid}) == TotalCpu(rows, seen) + CpuIn(cpuByPid, pid)
              && Unseen(rows, root, seen + {pid}) < Unseen(rows, root, seen)
  {
    var pid, rest := stack[|stack| - 1], stack[..|stack| - 1];
    TopAndRest(stack);
    if pid == 0 || pid in seen {
      DropWaiting(rows, root, seen, rest, pid);
    } else {
      Visit(rows, root, cpuByPid, childrenByParent, seen, rest, pid);
    }
  }

  /** What visiting a pid adds. */
  lemma {:induction false} Visit(rows: seq<Row>, root: nat, cpuByPid: map<nat, nat>,
                                 childrenByParent: map<nat, seq<nat>>, seen: set<nat>, stack: seq<nat>, pid: nat)
    requires IsCpuTable(rows, cpuByPid) && IsChildTable(rows, childrenByParent)
    requires Walking(rows, root, seen, stack + [pid]) && pid != 0 && pid !in seen
    ensures Walking(rows, root, seen + {pid}, stack + Listed(childrenByParent, pid))
    ensures TotalCpu(rows, seen + {pid}) == TotalCpu(rows, seen) + CpuIn(cpuByPid, pid)
    ensures Unseen(rows, root, seen + {pid}) < Unseen(rows, root, seen)
  {
    assert pid in stack + [pid];
    CountedOnceMore(rows, cpuByPid, seen, pid);
    Smaller(Tree(rows, root), seen, pid);
    StepKeepsWalking(rows, root, seen, stack, pid);
    assert Listed(childrenByParent, pid) == ChildrenOf(rows, pid);
  }

  lemma {:induction false} CountedOnceMore(rows: seq<Row>, table: map<nat, nat>, seen: set<nat>, pid: nat)
    requires IsCpuTable(rows, table) && pid !in seen
    ensures TotalCpu(rows, seen + {pid}) == TotalCpu(rows, seen) + CpuIn(table, pid)
  {
    CountedOnce(rows, seen + {pid}, pid);
    assert seen + {pid} - {pid} == seen;
    assert CpuOf(rows, pid) == Lookup(table, pid);
  }

  lemma {:induction false} DropWaiting(rows: seq<Row>, root: nat, seen: set<nat>, stack: seq<nat>, pid: nat)
    requires Walking(rows, root, seen, stack + [pid]) && root != 0 && (pid == 0 || pid in seen)
    ensures Walking(rows, root, seen, stack)
  {
    forall other | other in stack ensures other == 0 || other in Tree(rows, root) {
      assert other in stack + [pid];
    }
  }

  lemma {:induction false} Smaller(tree: set<nat>, seen: set<nat>, pid: nat)
    requires pid in tree && pid !in seen
    ensures |tree - (seen + {pid})| < |tree - seen|
  {
    assert tree - (seen + {pid}) == tree - seen - {pid};
  }

  lemma {:induction false} StepKeepsWalking(rows: seq<Row>, root: nat, seen: set<nat>, stack: seq<nat>, pid: nat)
    requires Walking(rows, root, seen, stack + [pid]) && pid != 0
    ensures Walking(rows, root, seen + {pid}, stack + ChildrenOf(rows, pid))
  {
    forall child: nat ensures child in ChildrenOf(rows, pid) <==> IsChild(rows, pid, child) {
      ChildrenAreListed(rows, pid, child);
    }
    assert pid in stack + [pid];
    assert forall child | child in stack + [pid] :: child in stack || child == pid;
    forall child | IsChild(rows, pid, child) && child != 0 ensures child in Tree(rows, root) {
      ReachesChild(rows, root, pid, child);
      ReachableIsListed(rows, root, child);
    }
  }

  lemma {:induction false} StartWalking(rows: seq<Row>, root: nat)
    requires root != 0
    ensures Walking(rows, root, {}, [root])
    ensures TotalCpu(rows, {}) == 0
  {
    ReachesItself(rows, root);
  }

  lemma {:induction false} WalkedAll(rows: seq<Row>, root: nat, seen: set<nat>)
    requires Walking(rows, root, seen, [])
    ensures seen == Tree(rows, root)
  {
    forall pid | pid in Tree(rows, root) ensures pid in seen {
      var path :| IsPath(rows, path) && path[0] == root && path[|path| - 1] == pid;
      ClosedSetHoldsPath(rows, seen, path);
    }
  }

  /** The listing is read as a graph: the last row of a pid gives its time, every row gives a child, and every
      reachable pid is listed, so no part of the sum is lost. */
  lemma {:induction false} TreeIsAllReachable(rows: seq<Row>, root: nat, pid: nat)
    requires root != 0
    ensures pid in Tree(rows, root) <==> Reaches(rows, root, pid)
    ensures Reaches(rows, root, pid) && pid != root ==> CpuOf(rows, pid).Some?
    ensures pid in Tree(rows, root) ==> pid != 0
  {
    if Reaches(rows, root, pid) {
      ReachableIsListed(rows, root, pid);
      if pid != root {
        var i :| 0 <= i < |rows| && rows[i].pid == pid;
        RowGivesCpu(rows, i);
      }
    }
  }

  lemma {:induction false} RowGivesCpu(rows: seq<Row>, i: nat)
    requires i < |rows|
    ensures CpuOf(rows, rows[i].pid).Some?
  {
    if i < |rows| - 1 {
      RowGivesCpu(rows[..|rows| - 1], i);
    }
  }
}
