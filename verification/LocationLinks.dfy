/**
 LocationNode rows and Device rows that mirror each other (facilities/signals.py). This module gives
 each outside operation its effect on the two tables and proves what every run of them keeps. A link
 is the node's `device` column. Whether a row is protected by foreign keys is a fact at deletion time.
 */
module LocationLinks {
  import opened Wrappers

  datatype Kind = Loc | OtherKind

  datatype Node = Node(code: string, name: string, floor: Option<nat>, active: bool, device: Option<nat>)

  datatype Device = Device(kind: Kind, code: string, uid: string, name: string, floor: Option<nat>, active: bool)

  datatype Tables = Tables(nodes: map<nat, Node>, devices: map<nat, Device>)

  datatype Outcome = Done | IntegrityError | ProtectedError

  /** `newKey` is the primary key the database will hand out if the handler creates the other side. */
  datatype Op =
    | SaveNode(pk: nat, node: Node, facility: bool, newKey: nat)
    | SaveDevice(pk: nat, device: Device, newKey: nat)
    | DeleteNode(pk: nat, nodeProtected: bool, deviceProtected: bool)
    | DeleteDevice(pk: nat, deviceProtected: bool, nodeProtected: bool)

  predicate CodeTaken(t: Tables, pk: nat, code: string) {
    exists k :: k in t.nodes && k != pk && t.nodes[k].code == code
  }

  predicate UidTaken(t: Tables, pk: nat, uid: string) {
    exists k :: k in t.devices && k != pk && t.devices[k].uid == uid
  }

  predicate LinkTaken(t: Tables, pk: nat, device: nat) {
    exists k :: k in t.nodes && k != pk && t.nodes[k].device == Some(device)
  }

  predicate HasNode(t: Tables, device: nat) {
    exists k :: k in t.nodes && t.nodes[k].device == Some(device)
  }

  ghost function NodeOf(t: Tables, device: nat): (k: nat)
    requires HasNode(t, device)
    ensures k in t.nodes && t.nodes[k].device == Some(device)
  {
    var k :| k in t.nodes && t.nodes[k].device == Some(device);
    k
  }

  predicate NodeRowRefused(t: Tables, pk: nat, node: Node) {
    CodeTaken(t, pk, node.code) ||
    (node.device.Some? && (node.device.value !in t.devices || LinkTaken(t, pk, node.device.value)))
  }

  function DeviceFor(node: Node): Device {
    Device(Loc, node.code, node.code, node.name, node.floor, node.active)
  }

  function NodeFor(device: Device, pk: nat): Node {
    Node(device.code, device.name, device.floor, device.active, Some(pk))
  }

  function Mirrored(device: Device, node: Node): Device {
    device.(name := node.name, floor := node.floor, active := node.active)
  }

  function Reflected(node: Node, device: Device): Node {
    node.(name := device.name, floor := device.floor, active := device.active)
  }

  /** ON DELETE SET NULL on the link column. */
  function Unlink(nodes: map<nat, Node>, device: nat): (r: map<nat, Node>)
    ensures r.Keys == nodes.Keys
  {
    map k | k in nodes :: if nodes[k].device == Some(device) then nodes[k].(device := None) else nodes[k]
  }

  /** What follows a saved node: create the missing device, or carry the shared fields over to the linked one. */
  ghost function NodeFollowUp(t: Tables, pk: nat, facility: bool, newKey: nat): (Outcome, Tables)
    requires pk in t.nodes
  {
    var node := t.nodes[pk];
    if node.device.Some? then
      if node.device.value !in t.devices then (Done, t)
      else (Done, t.(devices := t.devices[node.device.value := Mirrored(t.devices[node.device.value], node)]))
    else if !facility then (Done, t)
    else if UidTaken(t, newKey, node.code) then (IntegrityError, t)
    else (Done, Tables(t.nodes[pk := node.(device := Some(newKey))], t.devices[newKey := DeviceFor(node)]))
  }

  /** What follows a saved device: only location devices have a node, and only a new one gets one made. */
  ghost function DeviceFollowUp(t: Tables, pk: nat, created: bool, newKey: nat): (Outcome, Tables)
    requires pk in t.devices
  {
    var device := t.devices[pk];
    if device.kind != Loc then (Done, t)
    else if HasNode(t, pk) then
      (Done, t.(nodes := t.nodes[NodeOf(t, pk) := Reflected(t.nodes[NodeOf(t, pk)], device)]))
    else if !created then (Done, t)
    else if CodeTaken(t, newKey, device.code) then (IntegrityError, t)
    else (Done, t.(nodes := t.nodes[newKey := NodeFor(device, pk)]))
  }

  /** Removing a device row clears the link column of any node that still points at it. */
  function DropDevice(t: Tables, pk: nat): Tables {
    Tables(Unlink(t.nodes, pk), t.devices - {pk})
  }

  function DropNode(t: Tables, pk: nat): Tables {
    t.(nodes := t.nodes - {pk})
  }

  ghost function DeviceFarewell(t: Tables, pk: nat, nodeProtected: bool): Tables {
    if pk in t.devices && t.devices[pk].kind == Loc && HasNode(t, pk) && !nodeProtected
    then DropNode(t, NodeOf(t, pk)) else t
  }

  /** A failed side effect leaves the outer row saved: the handlers run outside any transaction of their own. */
  ghost function Apply(t: Tables, op: Op): (Outcome, Tables) {
    match op
    case SaveNode(pk, node, facility, newKey) =>
      if NodeRowRefused(t, pk, node) then (IntegrityError, t)
      else NodeFollowUp(t.(nodes := t.nodes[pk := node]), pk, facility, newKey)
    case SaveDevice(pk, device, newKey) =>
      if UidTaken(t, pk, device.uid) then (IntegrityError, t)
      else DeviceFollowUp(t.(devices := t.devices[pk := device]), pk, pk !in t.devices, newKey)
    case DeleteNode(pk, nodeProtected, deviceProtected) =>
      if pk !in t.nodes then (Done, t)
      else if nodeProtected then (ProtectedError, t)
      else
        var link := t.nodes[pk].device;
        (Done, if link.None? || deviceProtected then DropNode(t, pk) else DropDevice(DropNode(t, pk), link.value))
    case DeleteDevice(pk, deviceProtected, nodeProtected) =>
      if pk !in t.devices then (Done, t)
      else if deviceProtected then (ProtectedError, t)
      else (Done, DropDevice(DeviceFarewell(t, pk, nodeProtected), pk))
  }

  /** Keys handed out for new rows are new. */
  predicate Allowed(t: Tables, op: Op) {
    (op.SaveNode? ==> op.newKey !in t.devices) && (op.SaveDevice? ==> op.newKey !in t.nodes)
  }

  predicate Agrees(node: Node, device: Device) {
    node.name == device.name && node.floor == device.floor && node.active == device.active
  }

  ghost predicate LinksAreOneToOne(t: Tables) {
    && (forall k :: k in t.nodes && t.nodes[k].device.Some? ==> t.nodes[k].device.value in t.devices)
    && (forall j, k ::
          j in t.nodes && k in t.nodes && t.nodes[j].device.Some? && t.nodes[j].device == t.nodes[k].device ==> j == k)
  }

  /** A linked location device shows what its node shows. */
  predicate PairAgrees(t: Tables, k: nat)
    requires k in t.nodes
  {
    var link := t.nodes[k].device;
    link.Some? && link.value in t.devices && t.devices[link.value].kind == Loc ==>
      Agrees(t.nodes[k], t.devices[link.value])
  }

  ghost predicate LinkedPairsAgree(t: Tables) {
    forall k :: k in t.nodes ==> PairAgrees(t, k)
  }

  ghost predicate KeysAreUnique(t: Tables) {
    && (forall j, k :: j in t.nodes && k in t.nodes && t.nodes[j].code == t.nodes[k].code ==> j == k)
    && (forall j, k :: j in t.devices && k in t.devices && t.devices[j].uid == t.devices[k].uid ==> j == k)
  }

  ghost predicate Consistent(t: Tables) {
    LinksAreOneToOne(t) && LinkedPairsAgree(t) && KeysAreUnique(t)
  }

  /** Writing both ends of one link, new or old. */
  lemma {:induction false} PairWritten(t: Tables, k: nat, node: Node, d: nat, device: Device)
    requires Consistent(t) && node.device == Some(d) && (device.kind == Loc ==> Agrees(node, device))
    requires !CodeTaken(t, k, node.code) && !LinkTaken(t, k, d) && !UidTaken(t, d, device.uid)
    ensures Consistent(Tables(t.nodes[k := node], t.devices[d := device]))
  {
    var u := Tables(t.nodes[k := node], t.devices[d := device]);
    assert LinksAreOneToOne(u);
    forall j | j in u.nodes
      ensures PairAgrees(u, j)
    {
      if j != k {
        assert PairAgrees(t, j);
      }
    }
  }

  lemma {:induction false} LooseNodeWritten(t: Tables, k: nat, node: Node)
    requires Consistent(t) && node.device == None && !CodeTaken(t, k, node.code)
    ensures Consistent(t.(nodes := t.nodes[k := node]))
  {
    var u := t.(nodes := t.nodes[k := node]);
    forall j | j in u.nodes
      ensures PairAgrees(u, j)
    {
      if j != k {
        assert PairAgrees(t, j);
      }
    }
  }

  lemma {:induction false} LooseDeviceWritten(t: Tables, d: nat, device: Device)
    requires Consistent(t) && !UidTaken(t, d, device.uid) && (device.kind == Loc ==> !HasNode(t, d))
    ensures Consistent(t.(devices := t.devices[d := device]))
  {
    var u := t.(devices := t.devices[d := device]);
    forall j | j in u.nodes
      ensures PairAgrees(u, j)
    {
      assert PairAgrees(t, j);
    }
  }

  lemma {:induction false} SaveNodeKeeps(t: Tables, op: Op)
    requires op.SaveNode? && Consistent(t) && Allowed(t, op)
    ensures Consistent(Apply(t, op).1)
  {
    var SaveNode(pk, node, facility, newKey) := op;
    if !NodeRowRefused(t, pk, node) {
      if node.device.Some? {
        var d := node.device.value;
        assert !UidTaken(t, d, t.devices[d].uid);
        PairWritten(t, pk, node, d, Mirrored(t.devices[d], node));
      } else if !facility || UidTaken(t, newKey, node.code) {
        LooseNodeWritten(t, pk, node);
      } else {
        var linked := node.(device := Some(newKey));
        PairWritten(t, pk, linked, newKey, DeviceFor(node));
        assert t.nodes[pk := node][pk := linked] == t.nodes[pk := linked];
      }
    }
  }

  lemma {:induction false} SaveDeviceKeeps(t: Tables, op: Op)
    requires op.SaveDevice? && Consistent(t) && Allowed(t, op)
    ensures Consistent(Apply(t, op).1)
  {
    var SaveDevice(pk, device, newKey) := op;
    if !UidTaken(t, pk, device.uid) {
      if device.kind != Loc || !HasNode(t, pk) {
        LooseDeviceWritten(t, pk, device);
        if device.kind == Loc && pk !in t.devices && !CodeTaken(t, newKey, device.code) {
          PairWritten(t, newKey, NodeFor(device, pk), pk, device);
        }
      } else {
        var k := NodeOf(t, pk);
        assert !CodeTaken(t, k, t.nodes[k].code) && !LinkTaken(t, k, pk);
        PairWritten(t, k, Reflected(t.nodes[k], device), pk, device);
      }
    }
  }

  lemma {:induction false} DeviceRemoved(t: Tables, d: nat)
    requires Consistent(t)
    ensures Consistent(DropDevice(t, d))
  {
    var u := DropDevice(t, d);
    assert forall k :: k in u.nodes ==> u.nodes[k].code == t.nodes[k].code;
    assert forall k :: k in u.devices ==> u.devices[k] == t.devices[k];
    assert KeysAreUnique(u);
    assert forall k :: k in u.nodes && u.nodes[k].device.Some? ==>
             u.nodes[k] == t.nodes[k] && u.nodes[k].device.value != d;
    assert LinksAreOneToOne(u);
    forall j | j in u.nodes
      ensures PairAgrees(u, j)
    {
      assert PairAgrees(t, j);
    }
  }

  lemma {:induction false} NodeRemoved(t: Tables, k: nat)
    requires Consistent(t)
    ensures Consistent(DropNode(t, k))
  {
    var u := DropNode(t, k);
    forall j | j in u.nodes
      ensures PairAgrees(u, j)
    {
      assert PairAgrees(t, j);
    }
  }

  lemma {:induction false} DeletesKeep(t: Tables, op: Op)
    requires (op.DeleteNode? || op.DeleteDevice?) && Consistent(t)
    ensures Consistent(Apply(t, op).1)
  {
    match op
    case DeleteNode(pk, _, _) =>
      NodeRemoved(t, pk);
      if pk in t.nodes && t.nodes[pk].device.Some? {
        DeviceRemoved(DropNode(t, pk), t.nodes[pk].device.value);
      }
    case DeleteDevice(pk, _, _) =>
      DeviceRemoved(t, pk);
      if HasNode(t, pk) {
        NodeRemoved(t, NodeOf(t, pk));
        DeviceRemoved(DropNode(t, NodeOf(t, pk)), pk);
      }
    case _ =>
  }

  ghost function Run(t: Tables, ops: seq<Op>): Option<Tables> {
    if ops == [] then Some(t)
    else
      var before := Run(t, ops[..|ops| - 1]);
      if before.Some? && Allowed(before.value, ops[|ops| - 1])
      then Some(Apply(before.value, ops[|ops| - 1]).1) else None
  }

  /** Main result: links stay one-to-one and every linked location pair agrees, whatever happens on either side. */
  lemma {:induction false} EveryRunIsConsistent(ops: seq<Op>)
    requires Run(Tables(map[], map[]), ops).Some?
    ensures Consistent(Run(Tables(map[], map[]), ops).value)
  {
    if ops != [] {
      var op := ops[|ops| - 1];
      EveryRunIsConsistent(ops[..|ops| - 1]);
      var before := Run(Tables(map[], map[]), ops[..|ops| - 1]).value;
      match op
      case SaveNode(_, _, _, _) => SaveNodeKeeps(before, op);
      case SaveDevice(_, _, _) => SaveDeviceKeeps(before, op);
      case DeleteNode(_, _, _) => DeletesKeep(before, op);
      case DeleteDevice(_, _, _) => DeletesKeep(before, op);
    }
  }

  /** Saving a node again as stored changes nothing on either side. */
  lemma {:induction false} SecondNodeSaveIsIdle(t: Tables, pk: nat, node: Node, facility: bool, key: nat, laterKey: nat)
    requires Consistent(t) && key !in t.devices && Apply(t, SaveNode(pk, node, facility, key)).0 == Done
    ensures var u := Apply(t, SaveNode(pk, node, facility, key)).1;
            Apply(u, SaveNode(pk, u.nodes[pk], facility, laterKey)) == (Done, u)
  {
    var u := Apply(t, SaveNode(pk, node, facility, key)).1;
    SaveNodeKeeps(t, SaveNode(pk, node, facility, key));
    assert u.nodes[pk := u.nodes[pk]] == u.nodes;
    if u.nodes[pk].device.Some? {
      var d := u.nodes[pk].device.value;
      assert Mirrored(u.devices[d], u.nodes[pk]) == u.devices[d];
      assert u.devices[d := u.devices[d]] == u.devices;
    }
  }

  /** Saving a device again as stored changes nothing on either side. */
  lemma {:induction false} SecondDeviceSaveIsIdle(t: Tables, pk: nat, device: Device, key: nat, laterKey: nat)
    requires Consistent(t) && key !in t.nodes && Apply(t, SaveDevice(pk, device, key)).0 == Done
    ensures var u := Apply(t, SaveDevice(pk, device, key)).1;
            Apply(u, SaveDevice(pk, device, laterKey)) == (Done, u)
  {
    var u := Apply(t, SaveDevice(pk, device, key)).1;
    SaveDeviceKeeps(t, SaveDevice(pk, device, key));
    assert u.devices[pk := device] == u.devices;
    if device.kind == Loc && HasNode(u, pk) {
      var k := NodeOf(u, pk);
      assert PairAgrees(u, k);
      assert Reflected(u.nodes[k], device) == u.nodes[k];
      assert u.nodes[k := u.nodes[k]] == u.nodes;
    }
  }

  // ---------------------------------------------------------------- pairs of other kinds

  /** The node shows what its device shows, whatever the device's kind. */
  predicate ShowsDevice(t: Tables, k: nat)
    requires k in t.nodes
  {
    var link := t.nodes[k].device;
    link.Some? && link.value in t.devices ==> Agrees(t.nodes[k], t.devices[link.value])
  }

  ghost predicate AllPairsAgree(t: Tables) {
    forall k :: k in t.nodes ==> ShowsDevice(t, k)
  }

  /** A device of another kind is saved with something its node does not show; nothing is reflected. */
  predicate Drifts(t: Tables, op: Op) {
    && op.SaveDevice? && op.device.kind != Loc && !UidTaken(t, op.pk, op.device.uid)
    && exists k :: k in t.nodes && t.nodes[k].device == Some(op.pk) && !Agrees(t.nodes[k], op.device)
  }

  lemma {:induction false} NodeSaveAligns(t: Tables, op: Op)
    requires op.SaveNode? && Consistent(t) && AllPairsAgree(t) && Allowed(t, op)
    ensures AllPairsAgree(Apply(t, op).1)
  {
    var u := Apply(t, op).1;
    forall j | j in u.nodes
      ensures ShowsDevice(u, j)
    {
      assert j in t.nodes ==> ShowsDevice(t, j);
    }
  }

  lemma {:induction false} DeviceSaveAlignsIff(t: Tables, op: Op)
    requires op.SaveDevice? && Consistent(t) && AllPairsAgree(t) && Allowed(t, op)
    ensures AllPairsAgree(Apply(t, op).1) <==> !Drifts(t, op)
  {
    var u := Apply(t, op).1;
    forall j | j in u.nodes && !Drifts(t, op)
      ensures ShowsDevice(u, j)
    {
      assert j in t.nodes ==> ShowsDevice(t, j);
    }
    if Drifts(t, op) {
      var k :| k in t.nodes && t.nodes[k].device == Some(op.pk) && !Agrees(t.nodes[k], op.device);
      assert !ShowsDevice(u, k);
    }
  }

  lemma {:induction false} DeletesAlign(t: Tables, op: Op)
    requires (op.DeleteNode? || op.DeleteDevice?) && Consistent(t) && AllPairsAgree(t)
    ensures AllPairsAgree(Apply(t, op).1)
  {
    var u := Apply(t, op).1;
    forall j | j in u.nodes
      ensures ShowsDevice(u, j)
    {
      assert ShowsDevice(t, j);
    }
  }

  /** One step, from tables whose pairs all agree: they all agree again iff the step does not drift. */
  lemma {:induction false} StepAlignsIff(t: Tables, op: Op)
    requires Consistent(t) && AllPairsAgree(t) && Allowed(t, op)
    ensures AllPairsAgree(Apply(t, op).1) <==> !Drifts(t, op)
  {
    match op
    case SaveNode(_, _, _, _) => NodeSaveAligns(t, op);
    case SaveDevice(_, _, _) => DeviceSaveAlignsIff(t, op);
    case DeleteNode(_, _, _) => DeletesAlign(t, op);
    case DeleteDevice(_, _, _) => DeletesAlign(t, op);
  }

  ghost predicate AgreesThroughout(ops: seq<Op>)
    requires Run(Tables(map[], map[]), ops).Some?
  {
    AllPairsAgree(Run(Tables(map[], map[]), ops).value) && (ops == [] || AgreesThroughout(ops[..|ops| - 1]))
  }

  ghost predicate NeverDrifts(ops: seq<Op>)
    requires Run(Tables(map[], map[]), ops).Some?
  {
    if ops == [] then true
    else NeverDrifts(ops[..|ops| - 1]) && !Drifts(Run(Tables(map[], map[]), ops[..|ops| - 1]).value, ops[|ops| - 1])
  }

  /**
   Over every run: all linked pairs, of whatever kind, agree at every step iff no device of another
   kind is ever saved with something its node does not show.
   */
  lemma {:induction false} OtherKindsAgreeIff(ops: seq<Op>)
    requires Run(Tables(map[], map[]), ops).Some?
    ensures AgreesThroughout(ops) <==> NeverDrifts(ops)
  {
    if ops != [] {
      var front := ops[..|ops| - 1];
      OtherKindsAgreeIff(front);
      if AgreesThroughout(front) {
        EveryRunIsConsistent(front);
        StepAlignsIff(Run(Tables(map[], map[]), front).value, ops[|ops| - 1]);
      }
    }
  }

  const METER := Device(OtherKind, "PWR-001", "PWR-001", "Meter", None, true)
  const METER_NODE := Node("LOC-001", "Meter", None, true, Some(1))
  const DRIFTING_RUN :=
    [SaveDevice(1, METER, 9), SaveNode(2, METER_NODE, true, 9), SaveDevice(1, METER.(name := "Spare"), 9)]

  /** It happens: a node linked to a power device goes on showing the name the device no longer has. */
  lemma {:induction false} RenamedMeterDrifts()
    ensures var t := Run(Tables(map[], map[]), DRIFTING_RUN);
            t.Some? && 1 in t.value.devices && 2 in t.value.nodes && t.value.nodes[2].device == Some(1)
            && !Agrees(t.value.nodes[2], t.value.devices[1])
  {
    var t1 := Tables(map[], map[1 := METER]);
    var t2 := Tables(map[2 := METER_NODE], map[1 := METER]);
    assert DRIFTING_RUN[..2][..1][..0] == [] && DRIFTING_RUN[..2][..1] == [SaveDevice(1, METER, 9)];
    assert Run(Tables(map[], map[]), DRIFTING_RUN[..1]) == Some(t1) by {
      assert DRIFTING_RUN[..1][..0] == [];
      assert (map[])[1 := METER] == map[1 := METER];
    }
    assert Apply(t1, SaveNode(2, METER_NODE, true, 9)).1 == t2 by {
      assert Mirrored(METER, METER_NODE) == METER;
      assert (map[])[2 := METER_NODE] == map[2 := METER_NODE] && (map[1 := METER])[1 := METER] == map[1 := METER];
    }
    assert DRIFTING_RUN[..2][..1] == DRIFTING_RUN[..1];
    assert Run(Tables(map[], map[]), DRIFTING_RUN[..2]) == Some(t2);
    assert DRIFTING_RUN[..|DRIFTING_RUN| - 1] == DRIFTING_RUN[..2];
  }
}
