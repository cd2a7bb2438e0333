/** The process forest below a root: a breadth-first scan and the roles read off it. */
module ProcessTree {
  import opened Basics
  import opened Wrappers

  /** One view of procfs: the visible processes, each with the children listed for its tasks. */
  type Proc = map<int, seq<int>>

  /** A chain of visible processes from `root` to `pid`, each listing the next as a child. */
  predicate IsPath(proc: Proc, root: int, path: seq<int>, pid: int) {
    && path != [] && path[0] == root && path[|path| - 1] == pid
    && (forall i :: 0 <= i < |path| ==> path[i] in proc)
    && (forall i :: 0 <= i < |path| - 1 ==> path[i + 1] in proc[path[i]])
  }

  /** The processes at most `n` links below `root`. */
  ghost function Within(proc: Proc, root: int, n: nat): set<int> {
    if n == 0 then set pid | pid in proc && pid == root
    else
      var near := Within(proc, root, n - 1);
      near + set pid | pid in proc && exists parent :: parent in near && parent in proc && pid in proc[parent]
  }

  lemma {:induction false} PathIsWithin(proc: Proc, root: int, path: seq<int>, pid: int)
    requires IsPath(proc, root, path, pid)
    ensures pid in Within(proc, root, |path| - 1)
    decreases |path|
  {
    var n := |path| - 1;
    if n > 0 {
      var parent := path[n - 1];
      assert IsPath(proc, root, path[..n], parent);
      PathIsWithin(proc, root, path[..n], parent);
      assert pid == path[n - 1 + 1];
    }
  }

  lemma {:induction false} WithinHasPath(proc: Proc, root: int, n: nat, pid: int) returns (path: seq<int>)
    requires pid in Within(proc, root, n)
    ensures IsPath(proc, root, path, pid) && |path| <= n + 1
  {
    if n == 0 {
      path := [root];
    } else if pid in Within(proc, root, n - 1) {
      path := WithinHasPath(proc, root, n - 1, pid);
    } else {
      var parent :| parent in Within(proc, root, n - 1) && parent in proc && pid in proc[parent];
      path := WithinHasPath(proc, root, n - 1, parent);
      path := path + [pid];
    }
  }

  // ----- The worklist ----------------------------------------------------------------------

  /** The ghost view of one moment of the scan: the depth of every process found and of every
      entry still pending. */
  datatype Scan = Scan(found: seq<int>, depth: map<int, nat>, pending: seq<int>, pendingDepth: seq<nat>)

  ghost predicate Ordered(s: Scan) {
    && |s.pending| == |s.pendingDepth|
    && (forall pid :: pid in s.found <==> pid in s.depth)
    && (forall i, j :: 0 <= i < j < |s.found| ==>
          s.found[i] != s.found[j] && s.depth[s.found[i]] <= s.depth[s.found[j]])
    && (forall i, j :: 0 <= i < j < |s.pending| ==> s.pendingDepth[i] <= s.pendingDepth[j])
    && (s.pending != [] ==>
          && (forall pid :: pid in s.depth ==> s.depth[pid] <= s.pendingDepth[0])
          && (forall i :: 0 <= i < |s.pending| ==> s.pendingDepth[i] <= s.pendingDepth[0] + 1))
  }

  /** Every depth recorded is the distance from the root. */
  ghost predicate Sound(proc: Proc, root: int, s: Scan) {
    && (forall pid :: pid in s.depth ==> IsDistance(proc, root, pid, s.depth[pid]))
    && |s.pending| == |s.pendingDepth|
    && (forall i :: 0 <= i < |s.pending| ==> Near(proc, root, s.pending[i], s.pendingDepth[i]))
  }

  ghost predicate Near(proc: Proc, root: int, pid: int, n: nat) {
    pid in proc ==> pid in Within(proc, root, n)
  }

  ghost predicate IsDistance(proc: Proc, root: int, pid: int, n: nat) {
    pid in Within(proc, root, n) && (n > 0 ==> pid !in Within(proc, root, n - 1))
  }

  ghost predicate Waiting(s: Scan, pid: int, n: nat)
    requires |s.pending| == |s.pendingDepth|
  {
    exists i :: 0 <= i < |s.pending| && s.pending[i] == pid && s.pendingDepth[i] <= n
  }

  ghost predicate Reached(s: Scan, pid: int, n: nat)
    requires |s.pending| == |s.pendingDepth|
  {
    (pid in s.depth && s.depth[pid] <= n) || Waiting(s, pid, n)
  }

  /** Nothing visible is lost: a child of a found process is found or waiting one level further. */
  ghost predicate Closed(proc: Proc, root: int, s: Scan) {
    && |s.pending| == |s.pendingDepth|
    && (root in proc ==> Reached(s, root, 0))
    && (forall parent :: parent in s.depth ==> parent in proc)
    && (forall parent, pid :: parent in s.depth && pid in proc[parent] && pid in proc ==>
          Reached(s, pid, s.depth[parent] + 1))
  }

  /** Whatever lies within `n` links is found at depth `n` or less, or the front entry is that near. */
  lemma {:induction false} ClosedCovers(proc: Proc, root: int, s: Scan, n: nat, pid: int)
    requires Ordered(s) && Closed(proc, root, s) && pid in Within(proc, root, n)
    ensures (pid in s.depth && s.depth[pid] <= n) || (s.pending != [] && s.pendingDepth[0] <= n)
    decreases n
  {
    if n == 0 {
      assert Reached(s, root, 0);
    } else if pid in Within(proc, root, n - 1) {
      ClosedCovers(proc, root, s, n - 1, pid);
    } else {
      var parent :| parent in Within(proc, root, n - 1) && parent in proc && pid in proc[parent];
      ClosedCovers(proc, root, s, n - 1, parent);
      if parent in s.depth && s.depth[parent] <= n - 1 {
        assert Reached(s, pid, s.depth[parent] + 1);
      }
    }
  }

  ghost predicate Good(proc: Proc, root: int, s: Scan) {
    Ordered(s) && Sound(proc, root, s) && Closed(proc, root, s)
  }

  function Dropped(s: Scan): Scan
    requires s.pending != [] && |s.pending| == |s.pendingDepth|
  {
    s.(pending := s.pending[1..], pendingDepth := s.pendingDepth[1..])
  }

  function Found(s: Scan, children: seq<int>): Scan
    requires s.pending != [] && |s.pending| == |s.pendingDepth|
  {
    var pid, d := s.pending[0], s.pendingDepth[0];
    Scan(s.found + [pid], s.depth[pid := d], s.pending[1..] + children, s.pendingDepth[1..]
        + seq(|children|, i => d + 1))
  }

  lemma DropKeepsGood(proc: Proc, root: int, s: Scan)
    requires Good(proc, root, s) && s.pending != []
    requires s.pending[0] in s.depth || s.pending[0] !in proc
    ensures Good(proc, root, Dropped(s))
  {
    var t, front := Dropped(s), s.pending[0];
    forall pid, n: nat | pid in proc && Reached(s, pid, n)
      ensures Reached(t, pid, n)
    {
      if !(pid in s.depth && s.depth[pid] <= n) {
        var i :| 0 <= i < |s.pending| && s.pending[i] == pid && s.pendingDepth[i] <= n;
        if i > 0 {
          assert t.pending[i - 1] == pid && t.pendingDepth[i - 1] <= n;
        }
      }
    }
  }

  lemma FindKeepsOrdered(proc: Proc, root: int, s: Scan)
    requires Good(proc, root, s) && s.pending != [] && s.pending[0] in proc && s.pending[0] !in s.depth
    ensures Ordered(Found(s, proc[s.pending[0]]))
  {
  }

  /** The front entry's depth is its distance: anything nearer has already been found. */
  lemma FrontIsExact(proc: Proc, root: int, s: Scan)
    requires Good(proc, root, s) && s.pending != [] && s.pending[0] in proc && s.pending[0] !in s.depth
    ensures IsDistance(proc, root, s.pending[0], s.pendingDepth[0])
  {
    assert Near(proc, root, s.pending[0], s.pendingDepth[0]);
    if s.pendingDepth[0] > 0 && s.pending[0] in Within(proc, root, s.pendingDepth[0] - 1) {
      ClosedCovers(proc, root, s, s.pendingDepth[0] - 1, s.pending[0]);
    }
  }

  lemma ChildIsWithin(proc: Proc, root: int, parent: int, n: nat, pid: int)
    requires parent in proc && parent in Within(proc, root, n) && pid in proc[parent]
    ensures Near(proc, root, pid, n + 1)
  {
  }

  lemma FindKeepsSound(proc: Proc, root: int, s: Scan)
    requires Good(proc, root, s) && s.pending != [] && s.pending[0] in proc && s.pending[0] !in s.depth
    ensures Sound(proc, root, Found(s, proc[s.pending[0]]))
  {
    var front, d := s.pending[0], s.pendingDepth[0];
    var t := Found(s, proc[front]);
    FrontIsExact(proc, root, s);
    forall i | 0 <= i < |t.pending|
      ensures Near(proc, root, t.pending[i], t.pendingDepth[i])
    {
      if i < |s.pending| - 1 {
        assert t.pending[i] == s.pending[i + 1] && t.pendingDepth[i] == s.pendingDepth[i + 1];
      } else {
        assert t.pending[i] == proc[front][i - (|s.pending| - 1)] && t.pendingDepth[i] == d + 1;
        ChildIsWithin(proc, root, front, d, t.pending[i]);
      }
    }
  }

  lemma FindKeepsClosed(proc: Proc, root: int, s: Scan)
    requires Good(proc, root, s) && s.pending != [] && s.pending[0] in proc && s.pending[0] !in s.depth
    ensures Closed(proc, root, Found(s, proc[s.pending[0]]))
  {
    var front, d := s.pending[0], s.pendingDepth[0];
    var t := Found(s, proc[front]);
    forall pid, n: nat | Reached(s, pid, n)
      ensures Reached(t, pid, n)
    {
      if !(pid in s.depth && s.depth[pid] <= n) {
        var i :| 0 <= i < |s.pending| && s.pending[i] == pid && s.pendingDepth[i] <= n;
        if i > 0 {
          assert t.pending[i - 1] == pid && t.pendingDepth[i - 1] <= n;
        }
      }
    }
    forall k | 0 <= k < |proc[front]|
      ensures Waiting(t, proc[front][k], d + 1)
    {
      assert t.pending[|s.pending| - 1 + k] == proc[front][k] && t.pendingDepth[|s.pending| - 1 + k] == d + 1;
    }
  }

  lemma FindKeepsGood(proc: Proc, root: int, s: Scan)
    requires Good(proc, root, s) && s.pending != [] && s.pending[0] in proc && s.pending[0] !in s.depth
    ensures var pid := s.pending[0];
      var t := Found(s, proc[pid]);
      && Good(proc, root, t) && t.found == s.found + [pid] && t.depth.Keys == s.depth.Keys + {pid}
      && t.pending == s.pending[1..] + proc[pid]
  {
    FindKeepsOrdered(proc, root, s);
    FindKeepsSound(proc, root, s);
    FindKeepsClosed(proc, root, s);
  }

  lemma StartIsGood(proc: Proc, root: int)
    ensures Good(proc, root, Scan([], map[], [root], [0]))
  {
    var s := Scan([], map[], [root], [0]);
    assert s.pending[0] == root && s.pendingDepth[0] <= 0;
  }

  ghost predicate ExactlyReachable(proc: Proc, root: int, found: seq<int>) {
    forall pid :: pid in found <==> exists path :: IsPath(proc, root, path, pid)
  }

  /** Nothing is listed before a process that has a shorter path. */
  ghost predicate NearestFirst(proc: Proc, root: int, found: seq<int>) {
    forall i, j, path :: 0 <= i < j < |found| && IsPath(proc, root, path, found[j]) ==>
      exists shorter :: IsPath(proc, root, shorter, found[i]) && |shorter| <= |path|
  }

  /** `process_tree`: every visible process below `root` exactly once, nearest first. */
  method Tree(proc: Proc, root: int) returns (found: seq<int>)
    ensures NoDuplicates(found) && ExactlyReachable(proc, root, found) && NearestFirst(proc, root, found)
  {
    found := [];
    var seen: set<int> := {};
    var pending := [root];
    ghost var s := Scan([], map[], [root], [0]);
    StartIsGood(proc, root);
    while pending != []
      invariant Good(proc, root, s)
      invariant s.found == found && s.pending == pending && s.depth.Keys == seen
      decreases proc.Keys - seen, |pending|
    {
      var pid := pending[0];
      pending := pending[1..];
      if pid in seen || pid !in proc {
        DropKeepsGood(proc, root, s);
        s := Dropped(s);
        continue;
      }
      FindKeepsGood(proc, root, s);
      s := Found(s, proc[pid]);
      seen := seen + {pid};
      found := found + [pid];
      pending := pending + proc[pid];
    }
    ScanIsComplete(proc, root, s);
  }

  /** Every path of an ended scan leads to a process found at most that deep. */
  lemma PathIsFound(proc: Proc, root: int, s: Scan, path: seq<int>, pid: int)
    requires Good(proc, root, s) && s.pending == [] && IsPath(proc, root, path, pid)
    ensures pid in s.found && pid in s.depth && s.depth[pid] <= |path| - 1
  {
    PathIsWithin(proc, root, path, pid);
    ClosedCovers(proc, root, s, |path| - 1, pid);
  }

  /** Everything found has a path no longer than its depth says. */
  lemma FoundHasPath(proc: Proc, root: int, s: Scan, pid: int) returns (path: seq<int>)
    requires Good(proc, root, s) && pid in s.found
    ensures pid in s.depth && IsPath(proc, root, path, pid) && |path| <= s.depth[pid] + 1
  {
    path := WithinHasPath(proc, root, s.depth[pid], pid);
  }

  /** Processes are found in the order of their recorded depths. */
  ghost predicate DepthsGrow(s: Scan) {
    forall i, j :: 0 <= i < j < |s.found| ==>
      s.found[i] in s.depth && s.found[j] in s.depth && s.depth[s.found[i]] <= s.depth[s.found[j]]
  }

  /** A recorded depth is a bound for every path and the length of some path. */
  ghost predicate DepthsMeasure(proc: Proc, root: int, s: Scan) {
    && (forall path, pid :: IsPath(proc, root, path, pid) && pid in s.depth ==> s.depth[pid] < |path|)
    && (forall pid :: pid in s.depth ==> HasPath(proc, root, pid, s.depth[pid] + 1))
  }

  ghost predicate HasPath(proc: Proc, root: int, pid: int, n: nat) {
    exists path :: IsPath(proc, root, path, pid) && |path| <= n
  }

  lemma OrderedDepthsGrow(s: Scan)
    requires Ordered(s)
    ensures DepthsGrow(s)
  {
    assert forall i :: 0 <= i < |s.found| ==> s.found[i] in s.found;
  }

  lemma EndedDepthsMeasure(proc: Proc, root: int, s: Scan)
    requires Good(proc, root, s) && s.pending == []
    ensures DepthsMeasure(proc, root, s)
  {
    forall path, pid | IsPath(proc, root, path, pid) && pid in s.depth
      ensures s.depth[pid] < |path|
    {
      PathIsFound(proc, root, s, path, pid);
    }
    forall pid | pid in s.depth
      ensures HasPath(proc, root, pid, s.depth[pid] + 1)
    {
      assert pid in s.found;
      var path := FoundHasPath(proc, root, s, pid);
    }
  }

  lemma DepthsGiveOrder(proc: Proc, root: int, s: Scan)
    requires DepthsGrow(s) && DepthsMeasure(proc, root, s)
    ensures NearestFirst(proc, root, s.found)
  {
    forall i, j, path | 0 <= i < j < |s.found| && IsPath(proc, root, path, s.found[j])
      ensures exists shorter :: IsPath(proc, root, shorter, s.found[i]) && |shorter| <= |path|
    {
      assert s.depth[s.found[i]] <= s.depth[s.found[j]] < |path|;
      assert HasPath(proc, root, s.found[i], s.depth[s.found[i]] + 1);
    }
  }

  lemma ScanIsComplete(proc: Proc, root: int, s: Scan)
    requires Good(proc, root, s) && s.pending == []
    ensures NoDuplicates(s.found) && ExactlyReachable(proc, root, s.found) && NearestFirst(proc, root, s.found)
  {
    forall pid | pid in s.found
      ensures exists path :: IsPath(proc, root, path, pid)
    {
      var path := FoundHasPath(proc, root, s, pid);
    }
    forall pid, path | IsPath(proc, root, path, pid)
      ensures pid in s.found
    {
      PathIsFound(proc, root, s, path, pid);
    }
    OrderedDepthsGrow(s);
    EndedDepthsMeasure(proc, root, s);
    DepthsGiveOrder(proc, root, s);
  }

  // ----- Roles -----------------------------------------------------------------------------

  datatype ProcessIdentity = ProcessIdentity(pid: int, startTicks: int)

  datatype Roles = Roles(server: ProcessIdentity, helpers: seq<ProcessIdentity>, workloads: seq<ProcessIdentity>)

  function Pids(identities: seq<ProcessIdentity>): set<int> {
    set i | i in identities :: i.pid
  }

  predicate Strict(pids: seq<int>) {
    forall i, j :: 0 <= i < j < |pids| ==> pids[i] < pids[j]
  }

  /** `sorted` of a set of process ids. */
  method SortPids(pids: set<int>) returns (ordered: seq<int>)
    ensures Strict(ordered) && forall p :: p in ordered <==> p in pids
  {
    ordered := [];
    var rest := pids;
    while rest != {}
      invariant Strict(ordered) && rest <= pids
      invariant forall p :: p in pids <==> p in ordered || p in rest
      invariant forall p, q :: p in ordered && q in rest ==> p < q
      decreases rest
    {
      var least := Least(rest);
      assert forall i :: 0 <= i < |ordered| ==> ordered[i] in ordered;
      ordered := ordered + [least];
      rest := rest - {least};
    }
  }

  lemma NonEmpty(pids: set<int>)
    requires pids != {}
    ensures exists p :: p in pids
  {
    assert (forall p :: p !in pids) ==> pids <= {};
  }

  method Least(pids: set<int>) returns (least: int)
    requires pids != {}
    ensures least in pids && forall p :: p in pids ==> least <= p
  {
    NonEmpty(pids);
    least :| least in pids;
    var rest := pids - {least};
    while rest != {}
      invariant least in pids && rest <= pids
      invariant forall p :: p in pids ==> p in rest || least <= p
      decreases rest
    {
      NonEmpty(rest);
      var p :| p in rest;
      rest := rest - {p};
      if p < least {
        least := p;
      }
    }
  }

  method Identities(pids: seq<int>, ticks: map<int, int>) returns (r: Result<seq<ProcessIdentity>, string>)
    ensures r.Success? <==> forall i :: 0 <= i < |pids| ==> pids[i] in ticks
    ensures r.Success? ==> Identified(pids, r.value, ticks)
  {
    var read: seq<ProcessIdentity> := [];
    for k := 0 to |pids|
      invariant |read| == k
      invariant forall i :: 0 <= i < k ==> pids[i] in ticks && read[i] == ProcessIdentity(pids[i], ticks[pids[i]])
    {
      if pids[k] !in ticks {
        return Failure("process disappeared before identity capture");
      }
      read := read + [ProcessIdentity(pids[k], ticks[pids[k]])];
    }
    return Success(read);
  }

  /** The visible processes some chain of children leads to. */
  ghost function Descendants(proc: Proc, root: int): set<int> {
    set pid | pid in proc && exists path :: IsPath(proc, root, path, pid)
  }

  /** When roles can be assigned below `server`: workloads are others' processes in the tree, and
      every process but the server can still be identified. */
  predicate Assignable(server: int, readiness: seq<int>, tree: set<int>, ticks: map<int, int>) {
    && server !in readiness
    && (forall pid :: pid in readiness ==> pid in tree)
    && (forall pid :: pid in tree && pid != server ==> pid in ticks)
  }

  predicate Identified(pids: seq<int>, identities: seq<ProcessIdentity>, ticks: map<int, int>) {
    && |identities| == |pids|
    && forall i :: 0 <= i < |pids| ==> pids[i] in ticks && identities[i] == ProcessIdentity(pids[i], ticks[pids[i]])
  }

  /** Server, helpers and workloads are disjoint, current, and cover the tree. */
  predicate Partitions(roles: Roles, server: ProcessIdentity, readiness: seq<int>, tree: set<int>,
                       ticks: map<int, int>)
  {
    && roles.server == server
    && Identified(readiness, roles.workloads, ticks)
    && (forall h :: h in roles.helpers ==> h.pid in ticks && h.startTicks == ticks[h.pid])
    && (forall i, j :: 0 <= i < j < |roles.helpers| ==> roles.helpers[i].pid < roles.helpers[j].pid)
    && {server.pid} !! Pids(roles.helpers) !! Pids(roles.workloads)
    && (server.pid in tree ==> {server.pid} + Pids(roles.helpers) + Pids(roles.workloads) == tree)
  }

  lemma PidsOf(pids: seq<int>, ticks: map<int, int>, identities: seq<ProcessIdentity>)
    requires Identified(pids, identities, ticks)
    ensures Pids(identities) == set pid | pid in pids
  {
    forall pid | pid in pids
      ensures pid in Pids(identities)
    {
      var i :| 0 <= i < |pids| && pids[i] == pid;
      assert identities[i] in identities;
    }
  }

  /** Succeeds exactly when roles can be assigned, and then partitions the tree below the server. */
  method VerifyRoles(server: ProcessIdentity, readiness: seq<int>, proc: Proc, ticks: map<int, int>)
      returns (r: Result<Roles, string>)
    ensures r.Success? <==> Assignable(server.pid, readiness, Descendants(proc, server.pid), ticks)
    ensures r.Success? ==> Partitions(r.value, server, readiness, Descendants(proc, server.pid), ticks)
  {
    var found := Tree(proc, server.pid);
    var tree := set pid | pid in found;
    TreeIsDescendants(proc, server.pid, found);
    r := AssignRoles(server, readiness, tree, ticks);
  }

  lemma TreeIsDescendants(proc: Proc, root: int, found: seq<int>)
    requires forall pid :: pid in found <==> exists path :: IsPath(proc, root, path, pid)
    ensures (set pid | pid in found) == Descendants(proc, root)
  {
    forall pid
      ensures pid in found <==> pid in Descendants(proc, root)
    {
      if pid in found {
        var path :| IsPath(proc, root, path, pid);
        assert path[|path| - 1] in proc;
      }
    }
  }

  method AssignRoles(server: ProcessIdentity, readiness: seq<int>, tree: set<int>, ticks: map<int, int>)
      returns (r: Result<Roles, string>)
    ensures r.Success? <==> Assignable(server.pid, readiness, tree, ticks)
    ensures r.Success? ==> Partitions(r.value, server, readiness, tree, ticks)
  {
    var workloads := Identities(readiness, ticks);
    if workloads.Failure? {
      var i :| 0 <= i < |readiness| && readiness[i] !in ticks;
      var pid := readiness[i];
      assert pid in readiness;
      assert Assignable(server.pid, readiness, tree, ticks) ==> pid in tree && pid != server.pid;
      return Failure(workloads.error);
    }
    var workloadPids := set pid | pid in readiness;
    if server.pid in workloadPids {
      return Failure("server and workload process roles overlap");
    }
    if !(workloadPids <= tree) {
      return Failure("workload PIDs are not server descendants");
    }
    var helperPids := SortPids(tree - workloadPids - {server.pid});
    var helpers := Identities(helperPids, ticks);
    if helpers.Failure? {
      var i :| 0 <= i < |helperPids| && helperPids[i] !in ticks;
      assert helperPids[i] in helperPids;
      return Failure(helpers.error);
    }
    RolesPartition(server, readiness, workloads.value, helperPids, helpers.value, tree, ticks);
    return Success(Roles(server, helpers.value, workloads.value));
  }

  lemma RolesPartition(server: ProcessIdentity, readiness: seq<int>, workloads: seq<ProcessIdentity>,
                       helperPids: seq<int>, helpers: seq<ProcessIdentity>, tree: set<int>, ticks: map<int, int>)
    requires Identified(readiness, workloads, ticks) && Identified(helperPids, helpers, ticks) && Strict(helperPids)
    requires server.pid !in readiness && forall pid :: pid in readiness ==> pid in tree
    requires forall pid :: pid in helperPids <==> pid in tree && pid !in readiness && pid != server.pid
    ensures Assignable(server.pid, readiness, tree, ticks)
    ensures Partitions(Roles(server, helpers, workloads), server, readiness, tree, ticks)
  {
    PidsOf(readiness, ticks, workloads);
    PidsOf(helperPids, ticks, helpers);
    forall pid | pid in tree && pid != server.pid
      ensures pid in ticks
    {
      assert pid in readiness || pid in helperPids;
    }
    var all := {server.pid} + Pids(helpers) + Pids(workloads);
    assert all <= tree + {server.pid};
    forall pid | pid in tree
      ensures pid in all
    {
      assert pid == server.pid || pid in readiness || pid in helperPids;
    }
  }
}
