/** The recovery-domain topology and the cascade queue (functions/freg/cascade.rs). */
module Cascade {
  import opened Machine

  const MAX_TOPOLOGY_DOMAINS: nat := 16

  datatype Node = Node(id: nat, name: string, parent: Option<nat>, childrenCount: nat)

  datatype Attribution =
    | Service(domainId: nat, recoverable: bool)
    | Tcb
    | CrossLayer
    | Unknown

  datatype Direction = BottomUp | TopDown | Isolated

  // ---- the registered nodes, as a sequence --------------------------------------------

  predicate HasId(ns: seq<Node>, id: nat) {
    exists i :: 0 <= i < |ns| && ns[i].id == id
  }

  predicate IsChild(n: Node, id: nat) {
    n.parent == Some(id)
  }

  /** How many of the nodes name `id` as their parent. */
  function CountChildren(ns: seq<Node>, id: nat): nat {
    if ns == [] then 0
    else CountChildren(ns[..|ns| - 1], id) + if IsChild(ns[|ns| - 1], id) then 1 else 0
  }

  /** The same nodes with one more child credited to `id`, if it is there. */
  function Credit(ns: seq<Node>, id: nat): (out: seq<Node>)
    ensures |out| == |ns|
  {
    seq(|ns|, i requires 0 <= i < |ns| => if ns[i].id == id then ns[i].(childrenCount := ns[i].childrenCount + 1) else ns[i])
  }

  /** `add`; None when the table is full or the id is taken. */
  function Add(ns: seq<Node>, id: nat, name: string, parent: Option<nat>): Option<seq<Node>> {
    if |ns| >= MAX_TOPOLOGY_DOMAINS || HasId(ns, id) then None
    else
      var credited := if parent.Some? then Credit(ns, parent.value) else ns;
      Some(credited + [Node(id, name, parent, 0)])
  }

  ghost predicate DistinctIds(ns: seq<Node>) {
    forall i, j :: 0 <= i < j < |ns| ==> ns[i].id != ns[j].id
  }

  /** Every cached child count is the number of later nodes naming that node. */
  ghost predicate CountsAgree(ns: seq<Node>) {
    forall i :: 0 <= i < |ns| ==> ns[i].childrenCount == CountChildren(ns[i + 1..], ns[i].id)
  }

  ghost predicate Inv(ns: seq<Node>) {
    |ns| <= MAX_TOPOLOGY_DOMAINS && DistinctIds(ns) && CountsAgree(ns)
  }

  lemma CountSnoc(ns: seq<Node>, n: Node, id: nat)
    ensures CountChildren(ns + [n], id) == CountChildren(ns, id) + if IsChild(n, id) then 1 else 0
  {
    assert (ns + [n])[..|ns|] == ns;
  }

  lemma {:induction false} CountCredit(ns: seq<Node>, k: nat, id: nat)
    ensures CountChildren(Credit(ns, k), id) == CountChildren(ns, id)
  {
    if ns != [] {
      assert Credit(ns, k)[..|ns| - 1] == Credit(ns[..|ns| - 1], k);
      CountCredit(ns[..|ns| - 1], k, id);
    }
  }

  lemma CreditSlice(ns: seq<Node>, k: nat, i: nat)
    requires i <= |ns|
    ensures Credit(ns, k)[i..] == Credit(ns[i..], k)
  {
  }

  /** The nodes after `i` once `n` is added: later counts grow by `n` alone. */
  lemma CountAfterAdd(ns: seq<Node>, parent: Option<nat>, n: Node, i: nat, id: nat)
    requires i <= |ns|
    ensures var credited := if parent.Some? then Credit(ns, parent.value) else ns;
            CountChildren((credited + [n])[i..], id) == CountChildren(ns[i..], id) + if IsChild(n, id) then 1 else 0
  {
    hide Credit, CountChildren;
    var credited := if parent.Some? then Credit(ns, parent.value) else ns;
    assert (credited + [n])[i..] == credited[i..] + [n];
    CountSnoc(credited[i..], n, id);
    if parent.Some? {
      CreditSlice(ns, parent.value, i);
      CountCredit(ns[i..], parent.value, id);
    }
  }

  /** A node is added exactly when there is room and its id is new; the others keep their place, id, name and parent. */
  lemma AddEffects(ns: seq<Node>, id: nat, name: string, parent: Option<nat>)
    ensures Add(ns, id, name, parent).Some? <==> |ns| < 16 && forall i :: 0 <= i < |ns| ==> ns[i].id != id
    ensures Add(ns, id, name, parent).Some? ==>
              var out := Add(ns, id, name, parent).value;
              && |out| == |ns| + 1 && out[|ns|] == Node(id, name, parent, 0)
              && forall i :: 0 <= i < |ns| ==>
                   out[i] == ns[i].(childrenCount := ns[i].childrenCount + if parent == Some(ns[i].id) then 1 else 0)
  {
  }

  /** Adding a node keeps ids distinct and every cache equal to its count. */
  lemma AddKeeps(ns: seq<Node>, id: nat, name: string, parent: Option<nat>)
    requires Inv(ns) && Add(ns, id, name, parent).Some?
    ensures Inv(Add(ns, id, name, parent).value)
  {
    hide CountChildren;
    var out := Add(ns, id, name, parent).value;
    assert forall i :: 0 <= i < |ns| ==> out[i].id == ns[i].id;
    forall i | 0 <= i < |out|
      ensures out[i].childrenCount == CountChildren(out[i + 1..], out[i].id)
    {
      if i < |ns| {
        CountAfterAdd(ns, parent, out[|ns|], i + 1, out[i].id);
      } else {
        assert out[i + 1..] == [];
        EmptyCount(out[i].id);
      }
    }
  }

  lemma EmptyCount(id: nat)
    ensures CountChildren([], id) == 0
  {
  }

  datatype Request = Request(id: nat, name: string, parent: Option<nat>)

  /** A topology built by any sequence of adds; refused ones change nothing. */
  function Build(rs: seq<Request>): seq<Node> {
    if rs == [] then []
    else
      var ns, r := Build(rs[..|rs| - 1]), rs[|rs| - 1];
      Add(ns, r.id, r.name, r.parent).UnwrapOr(ns)
  }

  lemma {:induction false} BuildKeeps(rs: seq<Request>)
    ensures Inv(Build(rs))
  {
    if rs != [] {
      BuildKeeps(rs[..|rs| - 1]);
      var ns, r := Build(rs[..|rs| - 1]), rs[|rs| - 1];
      if Add(ns, r.id, r.name, r.parent).Some? {
        AddKeeps(ns, r.id, r.name, r.parent);
      }
    }
  }

  // ---- parents first: the graph is a forest ------------------------------------------------

  ghost predicate ParentsFirst(ns: seq<Node>) {
    forall j :: 0 <= j < |ns| && ns[j].parent.Some? ==> HasId(ns[..j], ns[j].parent.value)
  }

  /** Registering under a present parent, or as a root, keeps parents first. */
  lemma AddKeepsParentsFirst(ns: seq<Node>, id: nat, name: string, parent: Option<nat>)
    requires ParentsFirst(ns) && Add(ns, id, name, parent).Some?
    requires parent.Some? ==> HasId(ns, parent.value)
    ensures ParentsFirst(Add(ns, id, name, parent).value)
  {
    var out := Add(ns, id, name, parent).value;
    forall j | 0 <= j < |out| && out[j].parent.Some?
      ensures HasId(out[..j], out[j].parent.value)
    {
      var pid := out[j].parent.value;
      assert j < |ns| ==> out[j].parent == ns[j].parent;
      assert HasId(ns[..j], pid) by {
        assert j == |ns| ==> ns[..j] == ns;
      }
      var m :| 0 <= m < j && ns[..j][m].id == pid;
      assert out[..j][m].id == ns[m].id;
    }
  }

  /** Requests in which every named parent was requested before. */
  ghost predicate RequestsParentsFirst(rs: seq<Request>) {
    forall i :: 0 <= i < |rs| && rs[i].parent.Some? ==> Requested(rs[..i], rs[i].parent.value)
  }

  predicate Requested(rs: seq<Request>, id: nat) {
    exists j :: 0 <= j < |rs| && rs[j].id == id
  }

  /** A requested id is registered, unless the table filled up first. */
  lemma {:induction false} RequestedIsPresent(rs: seq<Request>, id: nat)
    requires Requested(rs, id)
    ensures HasId(Build(rs), id) || |Build(rs)| >= MAX_TOPOLOGY_DOMAINS
  {
    var last := |rs| - 1;
    var before, r := rs[..last], rs[last];
    var ns := Build(before);
    if r.id == id {
      assert Add(ns, id, r.name, r.parent).Some? ==> Build(rs)[|ns|].id == id;
    } else {
      var j :| 0 <= j < |rs| && rs[j].id == id;
      assert before[j].id == id;
      RequestedIsPresent(before, id);
      if HasId(ns, id) {
        var k :| 0 <= k < |ns| && ns[k].id == id;
        assert Build(rs)[k].id == id;
      }
    }
  }

  /** Requesting parents first registers parents first, whatever was refused on the way. */
  lemma {:induction false} BuildParentsFirst(rs: seq<Request>)
    requires RequestsParentsFirst(rs)
    ensures ParentsFirst(Build(rs))
  {
    if rs != [] {
      var before, r := rs[..|rs| - 1], rs[|rs| - 1];
      forall i | 0 <= i < |before| && before[i].parent.Some?
        ensures Requested(before[..i], before[i].parent.value)
      {
        assert before[..i] == rs[..i] && before[i] == rs[i];
      }
      BuildParentsFirst(before);
      var ns := Build(before);
      if Add(ns, r.id, r.name, r.parent).Some? {
        if r.parent.Some? {
          RequestedIsPresent(before, r.parent.value);
        }
        AddKeepsParentsFirst(ns, r.id, r.name, r.parent);
      }
    }
  }

  /** Climbing parents always ends at a node without one. */
  lemma {:induction false} ReachesRoot(ns: seq<Node>, j: nat) returns (path: seq<nat>)
    requires ParentsFirst(ns) && j < |ns|
    ensures path != [] && path[0] == j
    ensures forall k :: 0 <= k < |path| ==> path[k] < |ns|
    ensures forall k :: 0 <= k < |path| - 1 ==> path[k + 1] < path[k] && ns[path[k]].parent == Some(ns[path[k + 1]].id)
    ensures ns[path[|path| - 1]].parent.None?
    decreases j
  {
    if ns[j].parent.None? {
      path := [j];
    } else {
      assert HasId(ns[..j], ns[j].parent.value);
      var i :| 0 <= i < j && ns[..j][i].id == ns[j].parent.value;
      var up := ReachesRoot(ns, i);
      path := [j] + up;
    }
  }

  /** Every topology whose parents were requested first is a forest. */
  lemma BuiltForest(rs: seq<Request>, j: nat) returns (path: seq<nat>)
    requires RequestsParentsFirst(rs) && j < |Build(rs)|
    ensures var ns := Build(rs);
            && path != [] && path[0] == j
            && (forall k :: 0 <= k < |path| ==> path[k] < |ns|)
            && (forall k :: 0 <= k < |path| - 1 ==> path[k + 1] < path[k] && ns[path[k]].parent == Some(ns[path[k + 1]].id))
            && ns[path[|path| - 1]].parent.None?
  {
    BuildParentsFirst(rs);
    path := ReachesRoot(Build(rs), j);
  }

  // ---- recovery queues -----------------------------------------------------------------

  /** The ids of the nodes that name `id` as parent, in registration order. */
  function ChildIds(ns: seq<Node>, id: nat): seq<nat> {
    if ns == [] then []
    else ChildIds(ns[..|ns| - 1], id) + if IsChild(ns[|ns| - 1], id) then [ns[|ns| - 1].id] else []
  }

  /** Pushing onto the 16-slot queue drops what does not fit. */
  function Truncated(ids: seq<nat>): seq<nat> {
    ids[..Min(|ids|, MAX_TOPOLOGY_DOMAINS)]
  }

  function BottomUpOrder(ns: seq<Node>, id: nat): seq<nat> {
    Truncated((if HasId(ns, id) then [id] else []) + ChildIds(ns, id))
  }

  function TopDownOrder(ns: seq<Node>, id: nat): seq<nat> {
    if HasId(ns, id) then Truncated([id] + ChildIds(ns, id)) else []
  }

  function DomainId(a: Attribution): nat {
    if a.Service? then a.domainId else 0
  }

  function ChildrenCount(ns: seq<Node>, id: nat): nat {
    if ns == [] then 0
    else if ns[0].id == id then ns[0].childrenCount
    else ChildrenCount(ns[1..], id)
  }

  function DirectionFor(a: Attribution, ns: seq<Node>, failed: nat): Direction {
    if a.Tcb? || a.CrossLayer? || (a.Service? && !a.recoverable) then Isolated
    else if !HasId(ns, failed) || ChildrenCount(ns, failed) == 0 then BottomUp
    else TopDown
  }

  function Orchestrate(a: Attribution, ns: seq<Node>): seq<nat> {
    match DirectionFor(a, ns, DomainId(a))
    case BottomUp => BottomUpOrder(ns, DomainId(a))
    case TopDown => TopDownOrder(ns, DomainId(a))
    case Isolated => []
  }

  /**
   * Faults that must not cascade queue nothing, dependents included; a fault of
   * unknown origin is taken for one of domain zero.
   */
  lemma OtherFaults(ns: seq<Node>, id: nat)
    ensures Orchestrate(Tcb, ns) == Orchestrate(CrossLayer, ns) == Orchestrate(Service(id, false), ns) == []
    ensures Orchestrate(Unknown, ns) == Orchestrate(Service(0, true), ns)
  {
  }

  /** A recoverable fault goes top-down exactly when its node is registered and a later one names it. */
  lemma DirectionIff(ns: seq<Node>, id: nat)
    requires Inv(ns)
    ensures DirectionFor(Service(id, true), ns, id) ==
            if exists k, j :: 0 <= k < j < |ns| && ns[k].id == id && ns[j].parent == Some(id) then TopDown else BottomUp
  {
    hide ChildrenCount, CountChildren;
    if HasId(ns, id) {
      var k :| 0 <= k < |ns| && ns[k].id == id;
      FoundCount(ns, k);
      var later := ns[k + 1..];
      ZeroCount(later, id);
      assert forall j :: k < j < |ns| ==> ns[j] == later[j - k - 1];
      forall m | 0 <= m < |ns| && ns[m].id == id
        ensures m == k
      {
        SameIdSamePlace(ns, m, k);
      }
      if i :| 0 <= i < |later| && IsChild(later[i], id) {
        assert ns[k + 1 + i] == later[i];
      }
    }
  }

  /** So isolating a domain recovers its dependents exactly when it has none. */
  lemma IsolationRecoversIff(ns: seq<Node>, id: nat)
    ensures (forall x :: x in ChildIds(ns, id) ==> x in Orchestrate(Service(id, false), ns)) <==>
            forall i :: 0 <= i < |ns| ==> ns[i].parent != Some(id)
  {
    hide ChildIds;
    OtherFaults(ns, id);
    forall i | 0 <= i < |ns|
      ensures ns[i].parent == Some(id) ==> ns[i].id in ChildIds(ns, id)
    {
      ChildIdsAre(ns, id, ns[i].id);
    }
    forall x | x in ChildIds(ns, id)
      ensures exists i :: 0 <= i < |ns| && ns[i].parent == Some(id)
    {
      ChildIdsAre(ns, id, x);
    }
  }

  lemma {:induction false} ChildIdsCount(ns: seq<Node>, id: nat)
    ensures |ChildIds(ns, id)| == CountChildren(ns, id) <= |ns|
  {
    if ns != [] {
      ChildIdsCount(ns[..|ns| - 1], id);
    }
  }

  ghost predicate Distinct(ids: seq<nat>) {
    forall i, j :: 0 <= i < j < |ids| ==> ids[i] != ids[j]
  }

  lemma {:induction false} ChildIdsAre(ns: seq<Node>, id: nat, x: nat)
    ensures x in ChildIds(ns, id) <==> exists i :: 0 <= i < |ns| && ns[i].id == x && IsChild(ns[i], id)
  {
    if ns != [] {
      var last, rest := |ns| - 1, ns[..|ns| - 1];
      ChildIdsAre(rest, id, x);
      if x in ChildIds(rest, id) {
        var i :| 0 <= i < last && rest[i].id == x && IsChild(rest[i], id);
        assert ns[i] == rest[i];
      }
      if i :| 0 <= i < |ns| && ns[i].id == x && IsChild(ns[i], id) {
        if i < last {
          assert rest[i] == ns[i];
        }
      }
    }
  }

  lemma {:induction false} ChildIdsDistinct(ns: seq<Node>, id: nat)
    requires DistinctIds(ns)
    ensures Distinct(ChildIds(ns, id))
  {
    if ns != [] {
      var rest, n := ns[..|ns| - 1], ns[|ns| - 1];
      ChildIdsDistinct(rest, id);
      ChildIdsAre(rest, id, n.id);
    }
  }

  /** A node is its own parent when it was registered with its own id. */
  predicate OwnParent(ns: seq<Node>, id: nat) {
    exists i :: 0 <= i < |ns| && ns[i].id == id && IsChild(ns[i], id)
  }

  lemma FamilyDistinct(ns: seq<Node>, id: nat)
    requires DistinctIds(ns) && HasId(ns, id)
    ensures Distinct([id] + ChildIds(ns, id)) <==> !OwnParent(ns, id)
  {
    var kids := ChildIds(ns, id);
    ChildIdsAre(ns, id, id);
    ChildIdsDistinct(ns, id);
    var all := [id] + kids;
    if id in kids {
      var k :| 0 <= k < |kids| && kids[k] == id;
      assert all[0] == all[k + 1];
    } else {
      forall i, j | 0 <= i < j < |all|
        ensures all[i] != all[j]
      {
        assert all[j] == kids[j - 1];
        assert i > 0 ==> all[i] == kids[i - 1];
      }
    }
  }

  /** Without self-parenting the family of any node fits the queue. */
  lemma FamilyFits(ns: seq<Node>, id: nat)
    requires |ns| <= MAX_TOPOLOGY_DOMAINS && HasId(ns, id) && !OwnParent(ns, id)
    ensures 1 + |ChildIds(ns, id)| <= MAX_TOPOLOGY_DOMAINS
  {
    var k :| 0 <= k < |ns| && ns[k].id == id;
    SkipOne(ns, id, k);
  }

  lemma {:induction false} SkipOne(ns: seq<Node>, id: nat, k: nat)
    requires k < |ns| && !IsChild(ns[k], id)
    ensures |ChildIds(ns, id)| < |ns|
    decreases |ns|
  {
    var rest := ns[..|ns| - 1];
    ChildIdsCount(rest, id);
    if k < |ns| - 1 {
      SkipOne(rest, id, k);
    }
  }

  lemma {:induction false} FoundCount(ns: seq<Node>, k: nat)
    requires DistinctIds(ns) && k < |ns|
    ensures ChildrenCount(ns, ns[k].id) == ns[k].childrenCount
  {
    if k > 0 {
      FoundCount(ns[1..], k - 1);
    }
  }

  /** Nodes up to and including `k` that do not name it contribute nothing, so the cache is the whole count. */
  lemma {:induction false} LaterAreAll(ns: seq<Node>, k: nat, id: nat)
    requires k <= |ns|
    requires forall i :: 0 <= i < k ==> !IsChild(ns[i], id)
    ensures CountChildren(ns[k..], id) == CountChildren(ns, id)
    decreases |ns|
  {
    if k == |ns| {
      NoChildren(ns, id);
    } else {
      var rest := ns[..|ns| - 1];
      LaterAreAll(rest, k, id);
      assert ns[k..][..|ns[k..]| - 1] == rest[k..];
    }
  }

  lemma {:induction false} NoChildren(ns: seq<Node>, id: nat)
    requires forall i :: 0 <= i < |ns| ==> !IsChild(ns[i], id)
    ensures CountChildren(ns, id) == 0
  {
    if ns != [] {
      NoChildren(ns[..|ns| - 1], id);
    }
  }

  /** With parents first, a named parent stands strictly earlier. */
  lemma ParentStandsEarlier(ns: seq<Node>, i: nat) returns (m: nat)
    requires ParentsFirst(ns) && i < |ns| && ns[i].parent.Some?
    ensures m < i && ns[m].id == ns[i].parent.value
  {
    assert HasId(ns[..i], ns[i].parent.value);
    m :| m < i && ns[..i][m].id == ns[i].parent.value;
  }

  lemma NoEarlierChild(ns: seq<Node>, k: nat, i: nat)
    requires DistinctIds(ns) && ParentsFirst(ns) && i <= k < |ns|
    ensures !IsChild(ns[i], ns[k].id)
  {
    if ns[i].parent.Some? {
      var m := ParentStandsEarlier(ns, i);
      assert ns[m].id != ns[k].id;
    }
  }

  lemma NobodyNamesAbsent(ns: seq<Node>, id: nat, i: nat)
    requires ParentsFirst(ns) && !HasId(ns, id) && i < |ns|
    ensures !IsChild(ns[i], id)
  {
    if ns[i].parent.Some? {
      var m := ParentStandsEarlier(ns, i);
      assert ns[m].id != id;
    }
  }

  /** The cached count of a registered node is its number of children. */
  lemma CacheIsFamily(ns: seq<Node>, k: nat)
    requires Inv(ns) && ParentsFirst(ns) && k < |ns|
    ensures ns[k].childrenCount == |ChildIds(ns, ns[k].id)|
    ensures !OwnParent(ns, ns[k].id)
  {
    var id := ns[k].id;
    forall i | 0 <= i <= k
      ensures !IsChild(ns[i], id)
    {
      NoEarlierChild(ns, k, i);
    }
    LaterAreAll(ns, k + 1, id);
    ChildIdsCount(ns, id);
    forall i | 0 <= i < |ns| && ns[i].id == id
      ensures i == k
    {
      SameIdSamePlace(ns, i, k);
    }
  }

  lemma SameIdSamePlace(ns: seq<Node>, i: nat, k: nat)
    requires DistinctIds(ns) && i < |ns| && k < |ns| && ns[i].id == ns[k].id
    ensures i == k
  {
  }

  /**
   * A recoverable service fault, when parents were registered before their
   * children: an unknown domain yields nothing; a known one yields itself first,
   * then each of its children once, with nothing cut off, as many as its cache says.
   */
  lemma RecoveryQueue(ns: seq<Node>, id: nat)
    requires Inv(ns) && ParentsFirst(ns)
    ensures var q := Orchestrate(Service(id, true), ns);
            if HasId(ns, id) then
              && q == [id] + ChildIds(ns, id) && Distinct(q)
              && |q| == 1 + ChildrenCount(ns, id) <= MAX_TOPOLOGY_DOMAINS
            else q == []
  {
    hide ChildIds, ChildrenCount;
    if HasId(ns, id) {
      var k :| 0 <= k < |ns| && ns[k].id == id;
      CacheIsFamily(ns, k);
      FoundCount(ns, k);
      FamilyFits(ns, id);
      FamilyDistinct(ns, id);
    } else {
      forall i | 0 <= i < |ns|
        ensures !IsChild(ns[i], id)
      {
        NobodyNamesAbsent(ns, id, i);
      }
      NoChildren(ns, id);
      ChildIdsCount(ns, id);
      assert ChildIds(ns, id) == [];
    }
  }

  /** The same for every sequence of requests that names parents first. */
  lemma BuiltRecoveryQueue(rs: seq<Request>, id: nat)
    requires RequestsParentsFirst(rs)
    ensures var ns := Build(rs);
            var q := Orchestrate(Service(id, true), ns);
            if HasId(ns, id) then
              && q == [id] + ChildIds(ns, id) && Distinct(q)
              && |q| == 1 + ChildrenCount(ns, id) <= MAX_TOPOLOGY_DOMAINS
            else q == []
  {
    hide Build, Orchestrate, ChildIds, ChildrenCount, Distinct;
    BuildKeeps(rs);
    BuildParentsFirst(rs);
    RecoveryQueue(Build(rs), id);
  }

  // ---- the queue of any topology ----------------------------------------------------------

  predicate AllChildren(ns: seq<Node>, id: nat) {
    forall i :: 0 <= i < |ns| ==> IsChild(ns[i], id)
  }

  /** Every one of the 16 nodes names `id`, which stands last: the queue fills up before it comes round again. */
  predicate CutOff(ns: seq<Node>, id: nat) {
    |ns| == MAX_TOPOLOGY_DOMAINS && AllChildren(ns, id) && ns[|ns| - 1].id == id
  }

  lemma {:induction false} AllChildIds(ns: seq<Node>, id: nat)
    requires AllChildren(ns, id)
    ensures |ChildIds(ns, id)| == |ns| && forall i :: 0 <= i < |ns| ==> ChildIds(ns, id)[i] == ns[i].id
  {
    if ns != [] {
      var rest := ns[..|ns| - 1];
      assert AllChildren(rest, id);
      AllChildIds(rest, id);
    }
  }

  lemma AllOrFewer(ns: seq<Node>, id: nat)
    ensures |ChildIds(ns, id)| == |ns| <==> AllChildren(ns, id)
    ensures |ChildIds(ns, id)| <= |ns|
  {
    ChildIdsCount(ns, id);
    if AllChildren(ns, id) {
      AllChildIds(ns, id);
    } else {
      var k :| 0 <= k < |ns| && !IsChild(ns[k], id);
      SkipOne(ns, id, k);
    }
  }

  lemma ServiceQueue(ns: seq<Node>, id: nat)
    ensures Orchestrate(Service(id, true), ns) == Truncated((if HasId(ns, id) then [id] else []) + ChildIds(ns, id))
  {
  }

  lemma PrefixDistinct(ids: seq<nat>, n: nat)
    requires Distinct(ids) && n <= |ids|
    ensures Distinct(ids[..n])
  {
  }

  lemma OwnParentIsChild(ns: seq<Node>, id: nat)
    ensures OwnParent(ns, id) <==> id in ChildIds(ns, id)
  {
    ChildIdsAre(ns, id, id);
  }

  /** A node among its own children is queued twice, unless it is the sixteenth of sixteen. */
  lemma OwnChildPlace(ns: seq<Node>, id: nat)
    requires Inv(ns) && OwnParent(ns, id)
    ensures Distinct(Truncated([id] + ChildIds(ns, id))) <==> CutOff(ns, id)
  {
    hide CountsAgree, ChildIds, OwnParent;
    var kids := ChildIds(ns, id);
    OwnParentIsChild(ns, id);
    var j :| 0 <= j < |kids| && kids[j] == id;
    ChildIdsDistinct(ns, id);
    AllOrFewer(ns, id);
    var q := Truncated([id] + kids);
    if AllChildren(ns, id) {
      AllChildIds(ns, id);
    }
    if j < MAX_TOPOLOGY_DOMAINS - 1 {
      assert q[0] == q[j + 1] == id;
    } else {
      forall i | 0 < i < |q|
        ensures q[i] != id
      {
        assert q[i] == kids[i - 1];
      }
      assert forall i, k :: 0 < i < k < |q| ==> q[i] == kids[i - 1] && q[k] == kids[k - 1];
    }
  }

  /** In every topology, the queue of a recoverable fault has no duplicates exactly when the node is not its own parent or is cut off. */
  lemma QueueDistinctIff(ns: seq<Node>, id: nat)
    requires Inv(ns)
    ensures Distinct(Orchestrate(Service(id, true), ns)) <==> !OwnParent(ns, id) || CutOff(ns, id)
  {
    hide Orchestrate, ChildIds, Distinct, CountsAgree, CutOff;
    ServiceQueue(ns, id);
    ChildIdsDistinct(ns, id);
    var kids := ChildIds(ns, id);
    if OwnParent(ns, id) {
      OwnChildPlace(ns, id);
    } else if HasId(ns, id) {
      FamilyDistinct(ns, id);
      PrefixDistinct([id] + kids, Min(1 + |kids|, MAX_TOPOLOGY_DOMAINS));
    } else {
      assert [] + kids == kids;
      PrefixDistinct(kids, Min(|kids|, MAX_TOPOLOGY_DOMAINS));
    }
  }

  lemma {:induction false} CountSplit(ns: seq<Node>, m: nat, id: nat)
    requires m <= |ns|
    ensures CountChildren(ns, id) == CountChildren(ns[..m], id) + CountChildren(ns[m..], id)
    decreases |ns|
  {
    if m == |ns| {
      assert ns[..m] == ns;
    } else {
      var rest := ns[..|ns| - 1];
      CountSplit(rest, m, id);
      assert ns[..m] == rest[..m] && ns[m..][..|ns| - 1 - m] == rest[m..];
    }
  }

  lemma {:induction false} ZeroCount(ns: seq<Node>, id: nat)
    ensures CountChildren(ns, id) == 0 <==> forall i :: 0 <= i < |ns| ==> !IsChild(ns[i], id)
  {
    if ns != [] {
      ZeroCount(ns[..|ns| - 1], id);
      assert forall i :: 0 <= i < |ns| - 1 ==> ns[i] == ns[..|ns| - 1][i];
    }
  }

  /**
   * In every topology, the queue of a recoverable fault at the `k`-th node is as
   * long as its cache says exactly when no node up to it names it, or it is the
   * first of sixteen that all name it.
   */
  lemma QueueLengthIff(ns: seq<Node>, k: nat)
    requires Inv(ns) && k < |ns|
    ensures var id := ns[k].id;
            |Orchestrate(Service(id, true), ns)| == 1 + ChildrenCount(ns, id) <==>
            || (forall i :: 0 <= i <= k ==> !IsChild(ns[i], id))
            || (k == 0 && |ns| == MAX_TOPOLOGY_DOMAINS && AllChildren(ns, id))
  {
    hide Orchestrate, ChildIds, ChildrenCount, CountChildren, DistinctIds;
    var id := ns[k].id;
    ServiceQueue(ns, id);
    FoundCount(ns, k);
    CountSplit(ns, k + 1, id);
    ChildIdsCount(ns, id);
    ChildIdsCount(ns[..k + 1], id);
    ChildIdsCount(ns[k + 1..], id);
    ZeroCount(ns[..k + 1], id);
    AllOrFewer(ns, id);
    assert forall i :: 0 <= i <= k ==> ns[i] == ns[..k + 1][i];
  }

  /** A fault in a domain nobody registered queues exactly the nodes that name it. */
  lemma AbsentQueue(ns: seq<Node>, id: nat)
    requires Inv(ns) && !HasId(ns, id)
    ensures Orchestrate(Service(id, true), ns) == ChildIds(ns, id)
  {
    hide ChildIds;
    ServiceQueue(ns, id);
    ChildIdsCount(ns, id);
    assert [] + ChildIds(ns, id) == ChildIds(ns, id);
  }

  /** No child of `id` stands behind it. */
  ghost predicate ChildrenFirst(q: seq<nat>, ns: seq<Node>, id: nat) {
    forall i, j :: 0 <= i < j < |q| && q[i] == id ==> q[j] !in ChildIds(ns, id)
  }

  /**
   * The bottom-up queue of a registered domain is its top-down queue, the domain
   * in front: children come first exactly when there are none, or no domain.
   */
  lemma BottomUpIsTopDown(ns: seq<Node>, id: nat)
    ensures HasId(ns, id) ==> BottomUpOrder(ns, id) == TopDownOrder(ns, id) && BottomUpOrder(ns, id)[0] == id
    ensures ChildrenFirst(BottomUpOrder(ns, id), ns, id) <==> !HasFamily(ns, id)
  {
    hide ChildIds;
    var kids, q := ChildIds(ns, id), BottomUpOrder(ns, id);
    ChildIdsAre(ns, id, id);
    if HasId(ns, id) {
      if kids != [] {
        assert q[0] == id && q[1] == kids[0];
      } else {
        assert q == [id];
      }
    } else {
      assert id !in kids;
      assert forall i :: 0 <= i < |q| ==> q[i] == kids[i];
    }
  }

  /** A registered domain that some node names as parent. */
  predicate HasFamily(ns: seq<Node>, id: nat) {
    HasId(ns, id) && ChildIds(ns, id) != []
  }

  /** A lone node registered as its own parent is queued twice and its cache misses it. */
  lemma OwnParentQueuedTwice(id: nat, name: string)
    ensures var ns := Add([], id, name, Some(id)).value;
            Orchestrate(Service(id, true), ns) == [id, id] && ns[0].childrenCount == 0
  {
    hide Orchestrate;
    var ns := Add([], id, name, Some(id)).value;
    assert ns == [Node(id, name, Some(id), 0)];
    ServiceQueue(ns, id);
    assert ns[0].id == id;
    assert AllChildren(ns, id);
    AllChildIds(ns, id);
    assert ChildIds(ns, id) == [id];
  }

  // ---- the topology as it runs ------------------------------------------------------------

  const EMPTY := Node(0, "", None, 0)

  class DomainTopology {
    const nodes: array<Node>
    var count: nat

    ghost predicate Valid()
      reads this, nodes
    {
      nodes.Length == MAX_TOPOLOGY_DOMAINS && count <= MAX_TOPOLOGY_DOMAINS && Inv(nodes[..count])
    }

    constructor ()
      ensures Valid() && nodes[..count] == [] && fresh(nodes)
    {
      nodes := new Node[MAX_TOPOLOGY_DOMAINS](_ => EMPTY);
      count := 0;
    }

    method Find(id: nat) returns (k: nat)
      requires Valid()
      ensures k <= count
      ensures k < count ==> nodes[k].id == id
      ensures k == count <==> !HasId(nodes[..count], id)
    {
      k := 0;
      while k < count
        invariant k <= count
        invariant forall i :: 0 <= i < k ==> nodes[i].id != id
      {
        if nodes[k].id == id {
          assert nodes[..count][k].id == id;
          return;
        }
        k := k + 1;
      }
    }

    method AddNode(id: nat, name: string, parent: Option<nat>) returns (ok: bool)
      requires Valid()
      modifies this, nodes
      ensures Valid()
      ensures ok <==> Add(old(nodes[..count]), id, name, parent).Some?
      ensures nodes[..count] == Add(old(nodes[..count]), id, name, parent).UnwrapOr(old(nodes[..count]))
    {
      ghost var was := nodes[..count];
      if count >= MAX_TOPOLOGY_DOMAINS {
        return false;
      }
      var k := Find(id);
      if k < count {
        return false;
      }
      assert !HasId(was, id);
      if parent.Some? {
        var p := Find(parent.value);
        if p < count {
          nodes[p] := nodes[p].(childrenCount := nodes[p].childrenCount + 1);
        }
        CreditedOnce(was, parent.value, nodes[..count], p);
      }
      ghost var credited := nodes[..count];
      nodes[count] := Node(id, name, parent, 0);
      count := count + 1;
      assert nodes[..count] == credited + [Node(id, name, parent, 0)];
      AddKeeps(was, id, name, parent);
      ok := true;
    }

    /** The children loop shared by both orders. */
    method CollectChildren(id: nat, head: seq<nat>) returns (q: seq<nat>)
      requires Valid() && |head| <= MAX_TOPOLOGY_DOMAINS
      ensures q == Truncated(head + ChildIds(nodes[..count], id))
    {
      q := head;
      for i := 0 to count
        invariant q == Truncated(head + ChildIds(nodes[..i], id))
      {
        assert nodes[..i + 1][..i] == nodes[..i];
        ghost var before := head + ChildIds(nodes[..i], id);
        if nodes[i].parent == Some(id) {
          assert head + ChildIds(nodes[..i + 1], id) == before + [nodes[i].id];
          if |q| < MAX_TOPOLOGY_DOMAINS {
            q := q + [nodes[i].id];
          }
        } else {
          assert ChildIds(nodes[..i + 1], id) == ChildIds(nodes[..i], id);
        }
      }
    }

    method BottomUpQueue(id: nat) returns (q: seq<nat>)
      requires Valid()
      ensures q == BottomUpOrder(nodes[..count], id)
    {
      var k := Find(id);
      q := CollectChildren(id, if k < count then [id] else []);
    }

    method TopDownQueue(id: nat) returns (q: seq<nat>)
      requires Valid()
      ensures q == TopDownOrder(nodes[..count], id)
    {
      q := [];
      var k := Find(id);
      if k < count {
        q := CollectChildren(id, [id]);
      }
    }
  }

  /** Crediting the first match is crediting every match, since ids are distinct. */
  lemma CreditedOnce(was: seq<Node>, pid: nat, now: seq<Node>, p: nat)
    requires DistinctIds(was) && p <= |was| == |now|
    requires p == |was| <==> !HasId(was, pid)
    requires p < |was| ==> was[p].id == pid && now == was[p := was[p].(childrenCount := was[p].childrenCount + 1)]
    requires p == |was| ==> now == was
    ensures now == Credit(was, pid)
  {
    forall i | 0 <= i < |was|
      ensures now[i] == Credit(was, pid)[i]
    {
      if p < |was| && was[i].id == pid {
        SameIdSamePlace(was, i, p);
      }
    }
  }
}
