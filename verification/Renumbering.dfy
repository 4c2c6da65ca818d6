/**
 The two-pass renumbering of facilities/migrations/0012_unify_loc_codes.py under the unique
 constraints on node codes and device uids. Each update writes one row and fails if another row
 already holds the value; the migration stops at the first failure.
 */
module Renumbering {
  import opened Wrappers
  import opened Codes

  datatype Node = Node(pk: nat, link: Option<nat>)

  datatype Device = Device(isLoc: bool, uid: string, code: string)

  datatype Assignment = Assignment(pk: nat, number: nat)

  const LOC := "LOC"
  const TMP_NODE := "__TMP_LN_"
  const TMP_DEVICE := "__TMP_LOC_"

  function TmpNode(pk: nat): string {
    TMP_NODE + Decimal(pk)
  }

  function TmpDevice(pk: nat): string {
    TMP_DEVICE + Decimal(pk)
  }

  function Final(n: nat): string {
    Code(LOC, n)
  }

  lemma {:induction false} DecimalInjective(m: nat, n: nat)
    ensures Decimal(m) == Decimal(n) <==> m == n
  {
    ParseDecimal(m);
    ParseDecimal(n);
  }

  /** Temporary values are pairwise different and never look like a final code. */
  lemma {:induction false} TemporariesAreApart(m: nat, n: nat)
    ensures TmpNode(m) == TmpNode(n) <==> m == n
    ensures TmpDevice(m) == TmpDevice(n) <==> m == n
    ensures TmpNode(m) != Final(n) && TmpDevice(m) != Final(n)
  {
    DecimalInjective(m, n);
    assert TmpNode(m)[|TMP_NODE|..] == Decimal(m) && TmpNode(n)[|TMP_NODE|..] == Decimal(n);
    assert TmpDevice(m)[|TMP_DEVICE|..] == Decimal(m) && TmpDevice(n)[|TMP_DEVICE|..] == Decimal(n);
    assert TmpNode(m)[0] == '_' && TmpDevice(m)[0] == '_' && Final(n)[0] == 'L';
  }

  predicate DistinctCodes(codes: seq<string>) {
    forall i, j :: 0 <= i < j < |codes| ==> codes[i] != codes[j]
  }

  predicate DistinctUids(devices: map<nat, Device>) {
    forall j, k :: j in devices && k in devices && devices[j].uid == devices[k].uid ==> j == k
  }

  predicate DistinctNodes(nodes: seq<Node>) {
    && (forall i, j :: 0 <= i < j < |nodes| ==> nodes[i].pk != nodes[j].pk)
    && (forall i, j :: 0 <= i < j < |nodes| && nodes[i].link.Some? ==> nodes[i].link != nodes[j].link)
  }

  predicate DistinctKeys(keys: seq<nat>) {
    forall i, j :: 0 <= i < j < |keys| ==> keys[i] != keys[j]
  }

  /** Linked devices in node order, each with its node's number. */
  function Linked(nodes: seq<Node>): seq<Assignment> {
    if nodes == [] then []
    else
      var last := nodes[|nodes| - 1];
      Linked(nodes[..|nodes| - 1]) + if last.link.Some? then [Assignment(last.link.value, |nodes|)] else []
  }

  predicate IsLinked(nodes: seq<Node>, pk: nat) {
    exists i :: 0 <= i < |nodes| && nodes[i].link == Some(pk)
  }

  /** Unlinked location devices in id order, numbered after `first`. */
  function Orphans(nodes: seq<Node>, devices: map<nat, Device>, ids: seq<nat>, first: nat): seq<Assignment> {
    if ids == [] then []
    else
      var front := Orphans(nodes, devices, ids[..|ids| - 1], first);
      var pk := ids[|ids| - 1];
      front + if IsOrphan(nodes, devices, pk) then [Assignment(pk, first + |front|)] else []
  }

  function Plan(nodes: seq<Node>, devices: map<nat, Device>, ids: seq<nat>): seq<Assignment> {
    Linked(nodes) + Orphans(nodes, devices, ids, |nodes| + 1)
  }

  predicate InFirst(plan: seq<Assignment>, k: nat, pk: nat)
    requires k <= |plan|
  {
    exists a :: 0 <= a < k && plan[a].pk == pk
  }

  predicate InPlan(plan: seq<Assignment>, pk: nat) {
    InFirst(plan, |plan|, pk)
  }

  /** One device and one number per entry. */
  predicate GoodPlan(plan: seq<Assignment>, devices: map<nat, Device>) {
    && (forall a :: 0 <= a < |plan| ==> plan[a].pk in devices)
    && (forall a, b :: 0 <= a < b < |plan| ==> plan[a].pk != plan[b].pk && plan[a].number < plan[b].number)
  }

  lemma {:induction false} PlanExtended(plan: seq<Assignment>, x: Assignment, devices: map<nat, Device>)
    requires GoodPlan(plan, devices) && x.pk in devices
    requires forall a :: 0 <= a < |plan| ==> plan[a].pk != x.pk && plan[a].number < x.number
    ensures GoodPlan(plan + [x], devices)
  {
  }

  predicate FollowsNode(nodes: seq<Node>, x: Assignment) {
    1 <= x.number <= |nodes| && nodes[x.number - 1].link == Some(x.pk)
  }

  predicate LinksExist(nodes: seq<Node>, devices: map<nat, Device>) {
    forall i :: 0 <= i < |nodes| && nodes[i].link.Some? ==> nodes[i].link.value in devices
  }

  lemma {:induction false} LinkedIsGood(nodes: seq<Node>, devices: map<nat, Device>)
    requires DistinctNodes(nodes) && LinksExist(nodes, devices)
    ensures GoodPlan(Linked(nodes), devices)
    ensures forall a :: 0 <= a < |Linked(nodes)| ==> FollowsNode(nodes, Linked(nodes)[a])
  {
    if nodes != [] {
      var front, last := nodes[..|nodes| - 1], nodes[|nodes| - 1];
      LinkedIsGood(front, devices);
      var before := Linked(front);
      forall a | 0 <= a < |before|
        ensures FollowsNode(nodes, before[a]) && before[a].number < |nodes| && last.link != Some(before[a].pk)
      {
        assert FollowsNode(front, before[a]);
      }
      if last.link.Some? {
        PlanExtended(before, Assignment(last.link.value, |nodes|), devices);
      }
    }
  }

  /** Every linked device is in the plan under its node's number. */
  lemma {:induction false} LinkedIsComplete(nodes: seq<Node>, i: nat)
    requires i < |nodes| && nodes[i].link.Some?
    ensures Assignment(nodes[i].link.value, i + 1) in Linked(nodes)
  {
    if i < |nodes| - 1 {
      LinkedIsComplete(nodes[..|nodes| - 1], i);
    }
  }

  predicate IsOrphan(nodes: seq<Node>, devices: map<nat, Device>, pk: nat) {
    pk in devices && devices[pk].isLoc && !IsLinked(nodes, pk)
  }

  predicate AreOrphans(nodes: seq<Node>, devices: map<nat, Device>, ids: seq<nat>, first: nat, o: seq<Assignment>) {
    forall a :: 0 <= a < |o| ==> o[a].number == first + a && o[a].pk in ids && IsOrphan(nodes, devices, o[a].pk)
  }

  lemma {:induction false} OrphansAreGood(nodes: seq<Node>, devices: map<nat, Device>, ids: seq<nat>, first: nat)
    requires DistinctKeys(ids)
    ensures GoodPlan(Orphans(nodes, devices, ids, first), devices)
    ensures AreOrphans(nodes, devices, ids, first, Orphans(nodes, devices, ids, first))
  {
    if ids != [] {
      var front, pk := ids[..|ids| - 1], ids[|ids| - 1];
      OrphansAreGood(nodes, devices, front, first);
      var before := Orphans(nodes, devices, front, first);
      assert forall k :: k in front ==> k in ids && k != pk;
      if IsOrphan(nodes, devices, pk) {
        PlanExtended(before, Assignment(pk, first + |before|), devices);
      }
    }
  }

  lemma {:induction false} OrphansAreComplete(nodes: seq<Node>, devices: map<nat, Device>, ids: seq<nat>, first: nat,
                                              pk: nat)
    requires pk in ids && IsOrphan(nodes, devices, pk)
    ensures InPlan(Orphans(nodes, devices, ids, first), pk)
  {
    var front, last := ids[..|ids| - 1], ids[|ids| - 1];
    var o := Orphans(nodes, devices, ids, first);
    if pk == last {
      assert o[|o| - 1].pk == pk;
    } else {
      OrphansAreComplete(nodes, devices, front, first, pk);
      var before := Orphans(nodes, devices, front, first);
      var a :| 0 <= a < |before| && before[a].pk == pk;
      assert o[a].pk == pk;
    }
  }

  /** These are the entries of the plan from position `done` on, with consecutive numbers. */
  predicate NumberedFrom(o: seq<Assignment>, plan: seq<Assignment>, done: nat, first: nat)
    requires done + |o| == |plan|
  {
    forall a :: 0 <= a < |o| ==> o[a] == plan[done + a] && o[a].number == first + a
  }

  lemma {:induction false} OrphanNumber(nodes: seq<Node>, devices: map<nat, Device>, ids: seq<nat>, first: nat, a: nat)
    requires a < |Orphans(nodes, devices, ids, first)|
    ensures Orphans(nodes, devices, ids, first)[a].number == first + a
  {
    var front := Orphans(nodes, devices, ids[..|ids| - 1], first);
    if a < |front| {
      OrphanNumber(nodes, devices, ids[..|ids| - 1], first, a);
    }
  }

  lemma {:induction false} OrphansNumbered(nodes: seq<Node>, devices: map<nat, Device>, ids: seq<nat>,
                                           linked: seq<Assignment>)
    ensures var o := Orphans(nodes, devices, ids, |nodes| + 1);
            NumberedFrom(o, linked + o, |linked|, |nodes| + 1)
  {
    var o := Orphans(nodes, devices, ids, |nodes| + 1);
    forall a | 0 <= a < |o|
      ensures o[a] == (linked + o)[|linked| + a] && o[a].number == |nodes| + 1 + a
    {
      OrphanNumber(nodes, devices, ids, |nodes| + 1, a);
    }
  }

  lemma {:induction false} PlansJoined(l: seq<Assignment>, o: seq<Assignment>, devices: map<nat, Device>)
    requires GoodPlan(l, devices) && GoodPlan(o, devices)
    requires forall a, b :: 0 <= a < |l| && 0 <= b < |o| ==> l[a].pk != o[b].pk && l[a].number < o[b].number
    ensures GoodPlan(l + o, devices)
  {
  }

  lemma {:induction false} PlanIsGood(nodes: seq<Node>, devices: map<nat, Device>, ids: seq<nat>)
    requires DistinctNodes(nodes) && DistinctKeys(ids) && LinksExist(nodes, devices)
    ensures GoodPlan(Plan(nodes, devices, ids), devices)
  {
    LinkedIsGood(nodes, devices);
    OrphansAreGood(nodes, devices, ids, |nodes| + 1);
    var l, o := Linked(nodes), Orphans(nodes, devices, ids, |nodes| + 1);
    forall a, b | 0 <= a < |l| && 0 <= b < |o|
      ensures l[a].pk != o[b].pk && l[a].number < o[b].number
    {
      assert FollowsNode(nodes, l[a]);
      assert IsOrphan(nodes, devices, o[b].pk);
    }
    PlansJoined(l, o, devices);
  }

  // ---------------------------------------------------------------- the tables after a number of updates

  function NodeCodesAfterTmp(nodes: seq<Node>, codes: seq<string>, k: nat): (r: seq<string>)
    requires |codes| == |nodes| && k <= |nodes|
    ensures |r| == |codes|
  {
    seq(|codes|, i requires 0 <= i < |codes| => if i < k then TmpNode(nodes[i].pk) else codes[i])
  }

  function NodeCodesAfterFinal(nodes: seq<Node>, k: nat): (r: seq<string>)
    requires k <= |nodes|
    ensures |r| == |nodes|
  {
    seq(|nodes|, i requires 0 <= i < |nodes| => if i < k then Final(i + 1) else TmpNode(nodes[i].pk))
  }

  /** The first k entries of the plan hold their temporary value, all other rows are as before. */
  predicate TmpUntil(old_: map<nat, Device>, now: map<nat, Device>, plan: seq<Assignment>, k: nat)
    requires k <= |plan| && GoodPlan(plan, old_)
  {
    && now.Keys == old_.Keys
    && (forall a :: 0 <= a < k ==>
          now[plan[a].pk] == old_[plan[a].pk].(uid := TmpDevice(plan[a].pk), code := TmpDevice(plan[a].pk)))
    && (forall pk :: pk in old_ && !InFirst(plan, k, pk) ==> now[pk] == old_[pk])
  }

  /**
   The first k entries hold their final value, the rest of the plan its temporary one, all other rows
   are as before.
   */
  predicate FinalUntil(old_: map<nat, Device>, now: map<nat, Device>, plan: seq<Assignment>, k: nat)
    requires k <= |plan| && GoodPlan(plan, old_)
  {
    && now.Keys == old_.Keys
    && (forall a :: 0 <= a < |plan| ==>
          now[plan[a].pk] ==
            if a < k then old_[plan[a].pk].(uid := Final(plan[a].number), code := Final(plan[a].number))
                             else old_[plan[a].pk].(uid := TmpDevice(plan[a].pk), code := TmpDevice(plan[a].pk)))
    && (forall pk :: pk in old_ && !InPlan(plan, pk) ==> now[pk] == old_[pk])
  }

  /** No node that is still to be visited already holds an earlier node's temporary code. */
  predicate NodesAreSafe(nodes: seq<Node>, codes: seq<string>)
    requires |codes| == |nodes|
  {
    forall i, j :: 0 <= i < j < |nodes| ==> codes[j] != TmpNode(nodes[i].pk)
  }

  predicate TmpIsSafeAt(devices: map<nat, Device>, plan: seq<Assignment>, a: nat)
    requires a < |plan| && GoodPlan(plan, devices)
  {
    forall pk :: pk in devices && !InFirst(plan, a + 1, pk) ==> devices[pk].uid != TmpDevice(plan[a].pk)
  }

  /** The first k temporary values collide with nothing. */
  predicate TmpIsSafeUpTo(devices: map<nat, Device>, plan: seq<Assignment>, k: nat)
    requires k <= |plan| && GoodPlan(plan, devices)
  {
    forall a :: 0 <= a < k ==> TmpIsSafeAt(devices, plan, a)
  }

  lemma {:induction false} SafeOneMore(devices: map<nat, Device>, plan: seq<Assignment>, a: nat)
    requires a < |plan| && GoodPlan(plan, devices)
    ensures TmpIsSafeUpTo(devices, plan, a + 1) <==> TmpIsSafeUpTo(devices, plan, a) && TmpIsSafeAt(devices, plan, a)
    ensures TmpIsSafeUpTo(devices, plan, |plan|) ==> TmpIsSafeAt(devices, plan, a)
  {
  }

  predicate FinalIsSafeAt(devices: map<nat, Device>, plan: seq<Assignment>, a: nat)
    requires a < |plan| && GoodPlan(plan, devices)
  {
    forall pk :: pk in devices && !InPlan(plan, pk) ==> devices[pk].uid != Final(plan[a].number)
  }

  /** No device still to be visited, or never visited, holds a value the migration is about to write. */
  predicate DevicesAreSafe(devices: map<nat, Device>, plan: seq<Assignment>)
    requires GoodPlan(plan, devices)
  {
    forall a :: 0 <= a < |plan| ==> TmpIsSafeAt(devices, plan, a) && FinalIsSafeAt(devices, plan, a)
  }

  lemma {:induction false} PlanMembers(l: seq<Assignment>, o: seq<Assignment>, pk: nat)
    ensures InPlan(l + o, pk) <==> InPlan(l, pk) || InPlan(o, pk)
  {
    if InPlan(l, pk) {
      var a :| 0 <= a < |l| && l[a].pk == pk;
      assert (l + o)[a].pk == pk;
    }
    if InPlan(o, pk) {
      var a :| 0 <= a < |o| && o[a].pk == pk;
      assert (l + o)[|l| + a].pk == pk;
    }
  }

  lemma {:induction false} LinkedMembers(nodes: seq<Node>, devices: map<nat, Device>, pk: nat)
    requires DistinctNodes(nodes) && LinksExist(nodes, devices)
    ensures InPlan(Linked(nodes), pk) <==> IsLinked(nodes, pk)
  {
    var l := Linked(nodes);
    if IsLinked(nodes, pk) {
      var i :| 0 <= i < |nodes| && nodes[i].link == Some(pk);
      LinkedIsComplete(nodes, i);
      var a :| 0 <= a < |l| && l[a] == Assignment(pk, i + 1);
    }
    if InPlan(l, pk) {
      var a :| 0 <= a < |l| && l[a].pk == pk;
      LinkedIsGood(nodes, devices);
      assert FollowsNode(nodes, l[a]);
    }
  }

  lemma {:induction false} OrphanMembers(nodes: seq<Node>, devices: map<nat, Device>, ids: seq<nat>, first: nat,
                                         pk: nat)
    requires DistinctKeys(ids) && pk in ids
    ensures InPlan(Orphans(nodes, devices, ids, first), pk) <==> IsOrphan(nodes, devices, pk)
  {
    var o := Orphans(nodes, devices, ids, first);
    if IsOrphan(nodes, devices, pk) {
      OrphansAreComplete(nodes, devices, ids, first, pk);
    }
    if InPlan(o, pk) {
      var a :| 0 <= a < |o| && o[a].pk == pk;
      OrphansAreGood(nodes, devices, ids, first);
      assert IsOrphan(nodes, devices, o[a].pk);
    }
  }

  /** Every location device is renumbered, linked or not; of the other devices only linked ones are. */
  lemma {:induction false} PlanCovers(nodes: seq<Node>, devices: map<nat, Device>, ids: seq<nat>, pk: nat)
    requires DistinctNodes(nodes) && DistinctKeys(ids) && LinksExist(nodes, devices) && pk in devices && pk in ids
    ensures InPlan(Plan(nodes, devices, ids), pk) <==> devices[pk].isLoc || IsLinked(nodes, pk)
  {
    PlanMembers(Linked(nodes), Orphans(nodes, devices, ids, |nodes| + 1), pk);
    LinkedMembers(nodes, devices, pk);
    OrphanMembers(nodes, devices, ids, |nodes| + 1, pk);
  }

  /** Without `__TMP_` values and without `LOC-` uids on other kinds of devices, the migration is safe. */
  lemma {:induction false} CleanStateIsSafe(nodes: seq<Node>, codes: seq<string>, devices: map<nat, Device>,
                                            ids: seq<nat>)
    requires |codes| == |nodes| && DistinctNodes(nodes) && DistinctKeys(ids) && LinksExist(nodes, devices)
    requires forall pk :: pk in devices <==> pk in ids
    requires forall i :: 0 <= i < |codes| ==> !("__TMP_" <= codes[i])
    requires forall pk :: pk in devices ==> !("__TMP_" <= devices[pk].uid)
    requires forall pk :: pk in devices && !devices[pk].isLoc ==> !("LOC-" <= devices[pk].uid)
    ensures GoodPlan(Plan(nodes, devices, ids), devices)
    ensures NodesAreSafe(nodes, codes) && DevicesAreSafe(devices, Plan(nodes, devices, ids))
  {
    PlanIsGood(nodes, devices, ids);
    forall pk | pk in devices
      ensures InPlan(Plan(nodes, devices, ids), pk) <==> devices[pk].isLoc || IsLinked(nodes, pk)
    {
      PlanCovers(nodes, devices, ids, pk);
    }
    forall pk: nat
      ensures "__TMP_" <= TmpNode(pk) && "__TMP_" <= TmpDevice(pk)
    {
      assert TmpNode(pk) == "__TMP_" + ("LN_" + Decimal(pk));
      assert TmpDevice(pk) == "__TMP_" + ("LOC_" + Decimal(pk));
    }
    forall n: nat
      ensures "LOC-" <= Final(n)
    {
      assert Final(n) == "LOC-" + Padded(n);
    }
  }

  // ---------------------------------------------------------------- what it comes to

  predicate IsUnlinkedLoc(nodes: seq<Node>, devices: map<nat, Device>, pk: nat) {
    pk in devices && devices[pk].isLoc && forall n :: n in nodes ==> n.link != Some(pk)
  }

  /** How many of these devices are location devices without a node. */
  function UnlinkedLocs(nodes: seq<Node>, devices: map<nat, Device>, ids: seq<nat>): nat {
    if ids == [] then 0
    else
      UnlinkedLocs(nodes, devices, ids[..|ids| - 1]) +
      if IsUnlinkedLoc(nodes, devices, ids[|ids| - 1]) then 1 else 0
  }

  function Numbered(d: Device, n: nat): Device {
    d.(uid := Code("LOC", n), code := Code("LOC", n))
  }

  /**
   The i-th node has number i, from one, and so has its device; location devices without a node take the
   numbers after the nodes, in id order; all other devices are as they were.
   */
  predicate Renumbered(nodes: seq<Node>, ids: seq<nat>, codes: seq<string>, was: map<nat, Device>,
                       now: map<nat, Device>)
    requires forall pk :: pk in ids ==> pk in was
  {
    && |codes| == |nodes|
    && (forall i :: 0 <= i < |nodes| ==> codes[i] == Code("LOC", i + 1))
    && now.Keys == was.Keys
    && (forall i :: 0 <= i < |nodes| && nodes[i].link.Some? && nodes[i].link.value in was ==>
          now[nodes[i].link.value] == Numbered(was[nodes[i].link.value], i + 1))
    && (forall k :: 0 <= k < |ids| && IsUnlinkedLoc(nodes, was, ids[k]) ==>
          now[ids[k]] == Numbered(was[ids[k]], |nodes| + 1 + UnlinkedLocs(nodes, was, ids[..k])))
    && (forall pk :: pk in was && !was[pk].isLoc && (forall n :: n in nodes ==> n.link != Some(pk)) ==>
          now[pk] == was[pk])
  }

  lemma {:induction false} UnlinkedIsOrphan(nodes: seq<Node>, devices: map<nat, Device>, pk: nat)
    ensures IsLinked(nodes, pk) <==> exists n :: n in nodes && n.link == Some(pk)
    ensures IsUnlinkedLoc(nodes, devices, pk) <==> IsOrphan(nodes, devices, pk)
  {
    if n :| n in nodes && n.link == Some(pk) {
      var i :| 0 <= i < |nodes| && nodes[i] == n;
    }
  }

  lemma {:induction false} OrphansCounted(nodes: seq<Node>, devices: map<nat, Device>, ids: seq<nat>, first: nat)
    ensures |Orphans(nodes, devices, ids, first)| == UnlinkedLocs(nodes, devices, ids)
  {
    if ids != [] {
      OrphansCounted(nodes, devices, ids[..|ids| - 1], first);
      UnlinkedIsOrphan(nodes, devices, ids[|ids| - 1]);
    }
  }

  lemma {:induction false} OrphanAssigned(nodes: seq<Node>, devices: map<nat, Device>, ids: seq<nat>, first: nat,
                                          k: nat)
    requires k < |ids| && IsUnlinkedLoc(nodes, devices, ids[k])
    ensures Assignment(ids[k], first + UnlinkedLocs(nodes, devices, ids[..k])) in Orphans(nodes, devices, ids, first)
  {
    var n := |ids| - 1;
    if k == n {
      OrphansCounted(nodes, devices, ids[..n], first);
      UnlinkedIsOrphan(nodes, devices, ids[n]);
    } else {
      OrphanAssigned(nodes, devices, ids[..n], first, k);
      assert ids[..n][..k] == ids[..k];
    }
  }

  lemma {:induction false} PlannedIsNumbered(plan: seq<Assignment>, was: map<nat, Device>, now: map<nat, Device>,
                                             pk: nat, number: nat)
    requires GoodPlan(plan, was) && FinalUntil(was, now, plan, |plan|) && Assignment(pk, number) in plan
    ensures pk in was && now[pk] == Numbered(was[pk], number)
  {
    var a :| 0 <= a < |plan| && plan[a] == Assignment(pk, number);
  }

  lemma {:induction false} OthersKeepTheirs(nodes: seq<Node>, ids: seq<nat>, was: map<nat, Device>,
                                            now: map<nat, Device>, pk: nat)
    requires DistinctNodes(nodes) && DistinctKeys(ids) && LinksExist(nodes, was) && pk in was && pk in ids
    requires GoodPlan(Plan(nodes, was, ids), was)
    requires FinalUntil(was, now, Plan(nodes, was, ids), |Plan(nodes, was, ids)|)
    requires !was[pk].isLoc && forall n :: n in nodes ==> n.link != Some(pk)
    ensures pk in now && now[pk] == was[pk]
  {
    PlanCovers(nodes, was, ids, pk);
    UnlinkedIsOrphan(nodes, was, pk);
  }

  lemma {:induction false} LinkedGetTheirs(nodes: seq<Node>, ids: seq<nat>, was: map<nat, Device>,
                                           now: map<nat, Device>, i: nat)
    requires GoodPlan(Plan(nodes, was, ids), was)
    requires FinalUntil(was, now, Plan(nodes, was, ids), |Plan(nodes, was, ids)|)
    requires i < |nodes| && nodes[i].link.Some?
    ensures nodes[i].link.value in was && now[nodes[i].link.value] == Numbered(was[nodes[i].link.value], i + 1)
  {
    LinkedIsComplete(nodes, i);
    PlannedIsNumbered(Plan(nodes, was, ids), was, now, nodes[i].link.value, i + 1);
  }

  lemma {:induction false} OrphansGetTheirs(nodes: seq<Node>, ids: seq<nat>, was: map<nat, Device>,
                                            now: map<nat, Device>, k: nat)
    requires GoodPlan(Plan(nodes, was, ids), was)
    requires FinalUntil(was, now, Plan(nodes, was, ids), |Plan(nodes, was, ids)|)
    requires k < |ids| && IsUnlinkedLoc(nodes, was, ids[k])
    ensures ids[k] in was && now[ids[k]] == Numbered(was[ids[k]], |nodes| + 1 + UnlinkedLocs(nodes, was, ids[..k]))
  {
    OrphanAssigned(nodes, was, ids, |nodes| + 1, k);
    PlannedIsNumbered(Plan(nodes, was, ids), was, now, ids[k], |nodes| + 1 + UnlinkedLocs(nodes, was, ids[..k]));
  }

  lemma {:induction false} PlanIsRenumbered(nodes: seq<Node>, ids: seq<nat>, codes: seq<string>,
                                            was: map<nat, Device>, now: map<nat, Device>)
    requires DistinctNodes(nodes) && DistinctKeys(ids) && LinksExist(nodes, was)
    requires forall pk :: pk in was <==> pk in ids
    requires |codes| == |nodes| && forall i :: 0 <= i < |nodes| ==> codes[i] == Code("LOC", i + 1)
    requires GoodPlan(Plan(nodes, was, ids), was)
    requires FinalUntil(was, now, Plan(nodes, was, ids), |Plan(nodes, was, ids)|)
    ensures Renumbered(nodes, ids, codes, was, now)
  {
    forall i | 0 <= i < |nodes| && nodes[i].link.Some?
      ensures now[nodes[i].link.value] == Numbered(was[nodes[i].link.value], i + 1)
    {
      LinkedGetTheirs(nodes, ids, was, now, i);
    }
    forall k | 0 <= k < |ids| && IsUnlinkedLoc(nodes, was, ids[k])
      ensures now[ids[k]] == Numbered(was[ids[k]], |nodes| + 1 + UnlinkedLocs(nodes, was, ids[..k]))
    {
      OrphansGetTheirs(nodes, ids, was, now, k);
    }
    forall pk | pk in was && !was[pk].isLoc && (forall n :: n in nodes ==> n.link != Some(pk))
      ensures now[pk] == was[pk]
    {
      OthersKeepTheirs(nodes, ids, was, now, pk);
    }
  }

  class Migration {
    const nodes: seq<Node>
    const deviceIds: seq<nat>
    var codes: seq<string>
    var devices: map<nat, Device>

    ghost predicate Valid()
      reads this
    {
      && |codes| == |nodes| && DistinctNodes(nodes) && DistinctKeys(deviceIds)
      && (forall pk :: pk in devices <==> pk in deviceIds)
      && LinksExist(nodes, devices)
      && DistinctCodes(codes) && DistinctUids(devices)
    }

    /** UPDATE of one node row under the unique constraint. */
    method SetNodeCode(i: nat, code: string) returns (ok: bool)
      requires i < |codes|
      modifies this`codes
      ensures ok <==> forall j :: 0 <= j < |old(codes)| && j != i ==> old(codes)[j] != code
      ensures codes == if ok then old(codes)[i := code] else old(codes)
      ensures DistinctCodes(old(codes)) ==> DistinctCodes(codes)
    {
      ok := forall j :: 0 <= j < |codes| && j != i ==> codes[j] != code;
      if ok {
        codes := codes[i := code];
      }
    }

    /** UPDATE of one device row; only the uid is unique. */
    method SetDeviceCode(pk: nat, code: string) returns (ok: bool)
      requires pk in devices
      modifies this`devices
      ensures ok <==> forall k :: k in old(devices) && k != pk ==> old(devices)[k].uid != code
      ensures devices == if ok then old(devices)[pk := old(devices)[pk].(uid := code, code := code)] else old(devices)
      ensures DistinctUids(old(devices)) ==> DistinctUids(devices)
    {
      ok := forall k :: k in devices && k != pk ==> devices[k].uid != code;
      if ok {
        devices := devices[pk := devices[pk].(uid := code, code := code)];
      }
    }

    method RenumberNodes() returns (ok: bool)
      requires Valid()
      modifies this`codes
      ensures Valid() && (ok <==> NodesAreSafe(nodes, old(codes)))
      ensures ok ==> codes == NodeCodesAfterFinal(nodes, |nodes|)
    {
      ghost var before := codes;
      for i := 0 to |nodes|
        invariant |codes| == |nodes| && codes == NodeCodesAfterTmp(nodes, before, i) && DistinctCodes(codes)
        invariant forall a, b :: 0 <= a < i && a < b < |nodes| ==> before[b] != TmpNode(nodes[a].pk)
      {
        forall a, b | 0 <= a < |nodes| && 0 <= b < |nodes| && a != b
          ensures TmpNode(nodes[a].pk) != TmpNode(nodes[b].pk)
        {
          TemporariesAreApart(nodes[a].pk, nodes[b].pk);
        }
        ok := SetNodeCode(i, TmpNode(nodes[i].pk));
        if !ok {
          return;
        }
      }
      assert codes == NodeCodesAfterFinal(nodes, 0);
      for i := 0 to |nodes|
        invariant |codes| == |nodes| && codes == NodeCodesAfterFinal(nodes, i) && DistinctCodes(codes)
      {
        forall j | 0 <= j < |nodes| && j != i
          ensures codes[j] != Final(i + 1)
        {
          CodesAreInjective(LOC, j + 1, i + 1);
          TemporariesAreApart(nodes[j].pk, i + 1);
        }
        ok := SetNodeCode(i, Final(i + 1));
        assert ok;
      }
      ok := true;
    }

    method CollectLinked() returns (linked: seq<Assignment>, seen: set<nat>)
      ensures linked == Linked(nodes)
      ensures forall pk :: pk in seen <==> IsLinked(nodes, pk)
    {
      linked, seen := [], {};
      for i := 0 to |nodes|
        invariant linked == Linked(nodes[..i])
        invariant forall pk :: pk in seen <==> IsLinked(nodes[..i], pk)
      {
        assert nodes[..i + 1][..i] == nodes[..i];
        LinkedOneMore(nodes, i);
        if nodes[i].link.Some? {
          linked := linked + [Assignment(nodes[i].link.value, i + 1)];
          seen := seen + {nodes[i].link.value};
        }
      }
      assert nodes[..|nodes|] == nodes;
    }

    method CollectOrphans(seen: set<nat>) returns (orphans: seq<Assignment>)
      requires Valid() && forall pk :: pk in seen <==> IsLinked(nodes, pk)
      ensures orphans == Orphans(nodes, devices, deviceIds, |nodes| + 1)
    {
      orphans := [];
      for i := 0 to |deviceIds|
        invariant orphans == Orphans(nodes, devices, deviceIds[..i], |nodes| + 1)
      {
        assert deviceIds[..i + 1][..i] == deviceIds[..i];
        if devices[deviceIds[i]].isLoc && deviceIds[i] !in seen {
          orphans := orphans + [Assignment(deviceIds[i], |nodes| + 1 + |orphans|)];
        }
      }
      assert deviceIds[..|deviceIds|] == deviceIds;
    }

    /** One update of pass A. */
    method MarkDevice(pk: nat, ghost start: map<nat, Device>, ghost plan: seq<Assignment>, ghost k: nat)
      returns (ok: bool)
      requires GoodPlan(plan, start) && k < |plan| && plan[k].pk == pk
      requires TmpUntil(start, devices, plan, k) && DistinctUids(devices)
      modifies this`devices
      ensures DistinctUids(devices) && devices.Keys == start.Keys
      ensures ok <==> TmpIsSafeAt(start, plan, k)
      ensures ok ==> TmpUntil(start, devices, plan, k + 1)
    {
      MarkIsSafeIff(start, devices, plan, k);
      MarkedOneMore(start, devices, plan, k);
      ok := SetDeviceCode(pk, TmpDevice(pk));
    }

    /** Pass A over the devices. */
    method MarkDevices(plan: seq<Assignment>) returns (ok: bool)
      requires GoodPlan(plan, devices) && DistinctUids(devices)
      modifies this`devices
      ensures DistinctUids(devices) && devices.Keys == old(devices).Keys
      ensures ok <==> TmpIsSafeUpTo(old(devices), plan, |plan|)
      ensures ok ==> FinalUntil(old(devices), devices, plan, 0)
    {
      ghost var start := devices;
      for a := 0 to |plan|
        invariant GoodPlan(plan, start) && DistinctUids(devices) && TmpUntil(start, devices, plan, a)
        invariant TmpIsSafeUpTo(start, plan, a)
      {
        SafeOneMore(start, plan, a);
        ok := MarkDevice(plan[a].pk, start, plan, a);
        if !ok {
          return;
        }
      }
      AllMarked(start, devices, plan);
      ok := true;
    }

    /** One update of pass B. */
    method FinishDevice(pk: nat, number: nat, ghost start: map<nat, Device>, ghost plan: seq<Assignment>, ghost k: nat)
      returns (ok: bool)
      requires GoodPlan(plan, start) && k < |plan| && plan[k] == Assignment(pk, number)
      requires FinalUntil(start, devices, plan, k) && DistinctUids(devices)
      modifies this`devices
      ensures DistinctUids(devices) && devices.Keys == start.Keys
      ensures ok <==> FinalIsSafeAt(start, plan, k)
      ensures ok ==> FinalUntil(start, devices, plan, k + 1)
    {
      FinishIsSafeIff(start, devices, plan, k);
      FinishedOneMore(start, devices, plan, k);
      ok := SetDeviceCode(pk, Final(number));
    }

    /** Pass B over the linked devices. */
    method FinishLinked(linked: seq<Assignment>, ghost start: map<nat, Device>, ghost plan: seq<Assignment>)
      returns (ok: bool)
      requires GoodPlan(plan, start) && FinalUntil(start, devices, plan, 0) && DistinctUids(devices)
      requires linked <= plan
      modifies this`devices
      ensures DistinctUids(devices) && devices.Keys == start.Keys
      ensures ok <==> forall a :: 0 <= a < |linked| ==> FinalIsSafeAt(start, plan, a)
      ensures ok ==> FinalUntil(start, devices, plan, |linked|)
    {
      for a := 0 to |linked|
        invariant DistinctUids(devices) && FinalUntil(start, devices, plan, a)
        invariant forall b :: 0 <= b < a ==> FinalIsSafeAt(start, plan, b)
      {
        assert linked[a] == plan[a];
        ok := FinishDevice(linked[a].pk, linked[a].number, start, plan, a);
        if !ok {
          return;
        }
      }
      ok := true;
    }

    /** Pass B over the unlinked devices, with the running number. */
    method FinishOrphans(orphans: seq<Assignment>, ghost start: map<nat, Device>, ghost plan: seq<Assignment>,
                         ghost done: nat)
      returns (ok: bool)
      requires GoodPlan(plan, start) && done + |orphans| == |plan|
      requires NumberedFrom(orphans, plan, done, |nodes| + 1)
      requires FinalUntil(start, devices, plan, done) && DistinctUids(devices)
      modifies this`devices
      ensures DistinctUids(devices) && devices.Keys == start.Keys
      ensures ok <==> forall a :: done <= a < |plan| ==> FinalIsSafeAt(start, plan, a)
      ensures ok ==> FinalUntil(start, devices, plan, |plan|)
    {
      var nextIdx := |nodes| + 1;
      ghost var k := done;
      for a := 0 to |orphans|
        invariant nextIdx == |nodes| + 1 + a && k == done + a
        invariant DistinctUids(devices) && FinalUntil(start, devices, plan, k)
        invariant forall b :: done <= b < k ==> FinalIsSafeAt(start, plan, b)
      {
        assert orphans[a] == Assignment(orphans[a].pk, nextIdx);
        assert plan[k] == orphans[a];
        ok := FinishDevice(orphans[a].pk, nextIdx, start, plan, k);
        if !ok {
          return;
        }
        nextIdx := nextIdx + 1;
        k := k + 1;
      }
      ok := true;
    }

    /** The device half of `_forward`. */
    method RenumberDevices() returns (ok: bool)
      requires Valid()
      modifies this`devices
      ensures DistinctUids(devices)
      ensures GoodPlan(Plan(nodes, old(devices), deviceIds), old(devices))
      ensures ok <==> DevicesAreSafe(old(devices), Plan(nodes, old(devices), deviceIds))
      ensures ok ==> FinalUntil(old(devices), devices, Plan(nodes, old(devices), deviceIds),
                                    |Plan(nodes, old(devices), deviceIds)|)
    {
      ghost var start := devices;
      ghost var plan := Plan(nodes, start, deviceIds);
      PlanIsGood(nodes, start, deviceIds);
      var linked, seen := CollectLinked();
      var orphans := CollectOrphans(seen);
      ok := MarkDevices(linked + orphans);
      if !ok {
        return;
      }
      ok := FinishLinked(linked, start, plan);
      if !ok {
        return;
      }
      OrphansNumbered(nodes, start, deviceIds, linked);
      ok := FinishOrphans(orphans, start, plan, |linked|);
    }

    /**
     `_forward`: it gets through iff no row is ever written a value another row holds, and then node i
     holds LOC-(i+1), its device the same, and the orphans the numbers after the nodes.
     */
    method Forward() returns (ok: bool)
      requires Valid()
      modifies this`codes, this`devices
      ensures DistinctCodes(codes) && DistinctUids(devices)
      ensures GoodPlan(Plan(nodes, old(devices), deviceIds), old(devices))
      ensures ok <==>
              NodesAreSafe(nodes, old(codes)) && DevicesAreSafe(old(devices), Plan(nodes, old(devices), deviceIds))
      ensures ok ==> Renumbered(nodes, deviceIds, codes, old(devices), devices)
    {
      PlanIsGood(nodes, devices, deviceIds);
      ghost var was := devices;
      ok := RenumberNodes();
      if ok {
        ok := RenumberDevices();
        if ok {
          assert forall i :: 0 <= i < |nodes| ==> codes[i] == Final(i + 1);
          PlanIsRenumbered(nodes, deviceIds, codes, was, devices);
        }
      }
    }
  }

  lemma {:induction false} AllMarked(start: map<nat, Device>, now: map<nat, Device>, plan: seq<Assignment>)
    requires GoodPlan(plan, start) && TmpUntil(start, now, plan, |plan|)
    ensures FinalUntil(start, now, plan, 0)
  {
  }

  lemma {:induction false} LinkedOneMore(nodes: seq<Node>, i: nat)
    requires i < |nodes|
    ensures forall pk: nat :: IsLinked(nodes[..i + 1], pk) <==> IsLinked(nodes[..i], pk) || nodes[i].link == Some(pk)
  {
    forall pk: nat
      ensures IsLinked(nodes[..i + 1], pk) <==> IsLinked(nodes[..i], pk) || nodes[i].link == Some(pk)
    {
      if IsLinked(nodes[..i], pk) {
        var j :| 0 <= j < i && nodes[..i][j].link == Some(pk);
        assert nodes[..i + 1][j].link == Some(pk);
      }
      if nodes[i].link == Some(pk) {
        assert nodes[..i + 1][i].link == Some(pk);
      }
    }
  }

  lemma {:induction false} MarkIsSafeIff(start: map<nat, Device>, now: map<nat, Device>, plan: seq<Assignment>, k: nat)
    requires GoodPlan(plan, start) && k < |plan| && TmpUntil(start, now, plan, k)
    ensures (forall pk :: pk in now && pk != plan[k].pk ==> now[pk].uid != TmpDevice(plan[k].pk)) <==>
            TmpIsSafeAt(start, plan, k)
  {
    forall pk | pk in now && pk != plan[k].pk
      ensures now[pk].uid != TmpDevice(plan[k].pk) <==>
              InFirst(plan, k + 1, pk) || start[pk].uid != TmpDevice(plan[k].pk)
    {
      if InFirst(plan, k, pk) {
        var a :| 0 <= a < k && plan[a].pk == pk;
        TemporariesAreApart(plan[a].pk, plan[k].pk);
      }
    }
  }

  lemma {:induction false} FirstOneMore(plan: seq<Assignment>, k: nat, pk: nat)
    requires k < |plan|
    ensures InFirst(plan, k + 1, pk) <==> InFirst(plan, k, pk) || pk == plan[k].pk
  {
  }

  lemma {:induction false} MarkedOneMore(start: map<nat, Device>, now: map<nat, Device>, plan: seq<Assignment>, k: nat)
    requires GoodPlan(plan, start) && k < |plan| && TmpUntil(start, now, plan, k)
    ensures plan[k].pk in now
    ensures var pk := plan[k].pk;
            TmpUntil(start, now[pk := now[pk].(uid := TmpDevice(pk), code := TmpDevice(pk))], plan, k + 1)
  {
    var x := plan[k].pk;
    var after := now[x := now[x].(uid := TmpDevice(x), code := TmpDevice(x))];
    FirstOneMore(plan, k, x);
    assert !InFirst(plan, k, x);
    forall a | 0 <= a < k + 1
      ensures after[plan[a].pk] == start[plan[a].pk].(uid := TmpDevice(plan[a].pk), code := TmpDevice(plan[a].pk))
    {
      assert a < k ==> plan[a].pk != x;
    }
    forall pk | pk in start && !InFirst(plan, k + 1, pk)
      ensures after[pk] == start[pk]
    {
      FirstOneMore(plan, k, pk);
    }
  }

  lemma {:induction false} FinishIsSafeIff(start: map<nat, Device>, now: map<nat, Device>, plan: seq<Assignment>,
                                           k: nat)
    requires GoodPlan(plan, start) && k < |plan| && FinalUntil(start, now, plan, k)
    ensures (forall pk :: pk in now && pk != plan[k].pk ==> now[pk].uid != Final(plan[k].number)) <==>
            FinalIsSafeAt(start, plan, k)
  {
    forall pk | pk in now && pk != plan[k].pk
      ensures now[pk].uid != Final(plan[k].number) <==> InPlan(plan, pk) || start[pk].uid != Final(plan[k].number)
    {
      if InPlan(plan, pk) {
        var a :| 0 <= a < |plan| && plan[a].pk == pk;
        TemporariesAreApart(plan[a].pk, plan[k].number);
        CodesAreInjective(LOC, plan[a].number, plan[k].number);
      }
    }
  }

  lemma {:induction false} FinishedOneMore(start: map<nat, Device>, now: map<nat, Device>, plan: seq<Assignment>,
                                           k: nat)
    requires GoodPlan(plan, start) && k < |plan| && FinalUntil(start, now, plan, k)
    ensures plan[k].pk in now
    ensures var Assignment(pk, number) := plan[k];
            FinalUntil(start, now[pk := now[pk].(uid := Final(number), code := Final(number))], plan, k + 1)
  {
  }
}
