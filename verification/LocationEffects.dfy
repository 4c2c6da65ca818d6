/**
 What the four outside operations do to the two tables, field by field and error by error, said
 without the handlers: the rows written, the partner created, changed or removed, and when it stays.
 */
module LocationEffects {
  import opened Wrappers
  import opened LocationLinks

  /**
   Saving a node. It is refused, with nothing written, for a code or link of another node or a link to
   no device. A linked device then shows the node's name, floor and activity. A node without a link
   gets a new location device under its own code, unless no facility is found, or the uid is taken: then
   the node stays saved and the caller sees the error.
   */
  ghost predicate NodeSaveEffect(t: Tables, pk: nat, node: Node, facility: bool, newKey: nat, r: Outcome, u: Tables) {
    var refused :=
      || (exists k :: k in t.nodes && k != pk && t.nodes[k].code == node.code)
      || (node.device.Some? && node.device.value !in t.devices)
      || (node.device.Some? && exists k :: k in t.nodes && k != pk && t.nodes[k].device == node.device);
    var uidTaken := exists d :: d in t.devices && t.devices[d].uid == node.code;
    if refused then r == IntegrityError && u == t
    else if node.device.Some? then
      var d := node.device.value;
      && r == Done
      && u.nodes == t.nodes[pk := node]
      && u.devices == t.devices[d := t.devices[d].(name := node.name, floor := node.floor, active := node.active)]
    else if facility && !uidTaken then
      && r == Done
      && u.nodes == t.nodes[pk := node.(device := Some(newKey))]
      && u.devices == t.devices[newKey := Device(Loc, node.code, node.code, node.name, node.floor, node.active)]
    else
      && (r == if facility then IntegrityError else Done)
      && u == Tables(t.nodes[pk := node], t.devices)
  }

  /**
   Saving a device. It is refused, with nothing written, for a uid of another device. A location device
   then shows on its node; a new one without a node gets one under its own code, unless that code is
   taken: then the device stays saved and the caller sees the error. Other kinds touch no node.
   */
  ghost predicate DeviceSaveEffect(t: Tables, pk: nat, device: Device, newKey: nat, r: Outcome, u: Tables) {
    if exists d :: d in t.devices && d != pk && t.devices[d].uid == device.uid then r == IntegrityError && u == t
    else
      && u.devices == t.devices[pk := device]
      && if device.kind != Loc then r == Done && u.nodes == t.nodes
         else if exists k :: k in t.nodes && t.nodes[k].device == Some(pk) then
           && r == Done
           && forall k :: k in t.nodes && t.nodes[k].device == Some(pk) ==>
                u.nodes ==
                t.nodes[k := t.nodes[k].(name := device.name, floor := device.floor, active := device.active)]
         else if pk in t.devices then r == Done && u.nodes == t.nodes
         else if exists k :: k in t.nodes && t.nodes[k].code == device.code then
           r == IntegrityError && u.nodes == t.nodes
         else
           && r == Done
           && u.nodes == t.nodes[newKey := Node(device.code, device.name, device.floor, device.active, Some(pk))]
  }

  /** Deleting a node takes the linked device along, of whatever kind, unless that is protected. */
  predicate NodeDeleteEffect(t: Tables, pk: nat, nodeProtected: bool, deviceProtected: bool, r: Outcome, u: Tables) {
    if pk !in t.nodes then r == Done && u == t
    else if nodeProtected then r == ProtectedError && u == t
    else
      && r == Done
      && u.nodes == t.nodes - {pk}
      && u.devices == if t.nodes[pk].device.Some? && !deviceProtected then t.devices - {t.nodes[pk].device.value}
                      else t.devices
  }

  /** Deleting a location device takes its node along unless that is protected; a node that stays loses its link. */
  predicate DeviceDeleteEffect(t: Tables, pk: nat, deviceProtected: bool, nodeProtected: bool, r: Outcome, u: Tables) {
    if pk !in t.devices then r == Done && u == t
    else if deviceProtected then r == ProtectedError && u == t
    else
      && r == Done
      && u.devices == t.devices - {pk}
      && ((forall k :: k in t.nodes ==> t.nodes[k].device != Some(pk)) ==> u.nodes == t.nodes)
      && forall k :: k in t.nodes && t.nodes[k].device == Some(pk) ==>
           u.nodes == if t.devices[pk].kind == Loc && !nodeProtected then t.nodes - {k}
                      else t.nodes[k := t.nodes[k].(device := None)]
  }

  ghost predicate Effect(t: Tables, op: Op, r: Outcome, u: Tables) {
    match op
    case SaveNode(pk, node, facility, newKey) => NodeSaveEffect(t, pk, node, facility, newKey, r, u)
    case SaveDevice(pk, device, newKey) => DeviceSaveEffect(t, pk, device, newKey, r, u)
    case DeleteNode(pk, nodeProtected, deviceProtected) => NodeDeleteEffect(t, pk, nodeProtected, deviceProtected, r, u)
    case DeleteDevice(pk, deviceProtected, nodeProtected) =>
      DeviceDeleteEffect(t, pk, deviceProtected, nodeProtected, r, u)
  }

  lemma {:induction false} NodeSaveHasEffect(t: Tables, pk: nat, node: Node, facility: bool, newKey: nat)
    requires Consistent(t) && newKey !in t.devices
    ensures var (r, u) := Apply(t, SaveNode(pk, node, facility, newKey));
            NodeSaveEffect(t, pk, node, facility, newKey, r, u)
  {
    var linked := node.(device := Some(newKey));
    assert t.nodes[pk := node][pk := linked] == t.nodes[pk := linked];
  }

  lemma {:induction false} DeviceSaveHasEffect(t: Tables, pk: nat, device: Device, newKey: nat)
    requires Consistent(t) && newKey !in t.nodes
    ensures var (r, u) := Apply(t, SaveDevice(pk, device, newKey));
            DeviceSaveEffect(t, pk, device, newKey, r, u)
  {
  }

  lemma {:induction false} NothingToUnlink(nodes: map<nat, Node>, d: nat)
    requires forall k :: k in nodes ==> nodes[k].device != Some(d)
    ensures Unlink(nodes, d) == nodes
  {
  }

  lemma {:induction false} NodeDeleteHasEffect(t: Tables, pk: nat, nodeProtected: bool, deviceProtected: bool)
    requires Consistent(t)
    ensures var (r, u) := Apply(t, DeleteNode(pk, nodeProtected, deviceProtected));
            NodeDeleteEffect(t, pk, nodeProtected, deviceProtected, r, u)
  {
    if pk in t.nodes && t.nodes[pk].device.Some? {
      NothingToUnlink(t.nodes - {pk}, t.nodes[pk].device.value);
    }
  }

  lemma {:induction false} DeviceDeleteHasEffect(t: Tables, pk: nat, deviceProtected: bool, nodeProtected: bool)
    requires Consistent(t)
    ensures var (r, u) := Apply(t, DeleteDevice(pk, deviceProtected, nodeProtected));
            DeviceDeleteEffect(t, pk, deviceProtected, nodeProtected, r, u)
  {
    if HasNode(t, pk) {
      var k := NodeOf(t, pk);
      NothingToUnlink(t.nodes - {k}, pk);
      assert Unlink(t.nodes, pk) == t.nodes[k := t.nodes[k].(device := None)];
    } else {
      NothingToUnlink(t.nodes, pk);
    }
  }

  /** Main result: after any run, the next operation has exactly this effect. */
  lemma {:induction false} EveryStepHasEffect(ops: seq<Op>, t: Tables, op: Op)
    requires Run(Tables(map[], map[]), ops) == Some(t) && Allowed(t, op)
    ensures Effect(t, op, Apply(t, op).0, Apply(t, op).1)
  {
    EveryRunIsConsistent(ops);
    match op
    case SaveNode(pk, node, facility, newKey) => NodeSaveHasEffect(t, pk, node, facility, newKey);
    case SaveDevice(pk, device, newKey) => DeviceSaveHasEffect(t, pk, device, newKey);
    case DeleteNode(pk, nodeProtected, deviceProtected) =>
      NodeDeleteHasEffect(t, pk, nodeProtected, deviceProtected);
    case DeleteDevice(pk, deviceProtected, nodeProtected) =>
      DeviceDeleteHasEffect(t, pk, deviceProtected, nodeProtected);
  }
}
