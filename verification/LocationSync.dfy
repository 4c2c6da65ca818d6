/**
 The signal handlers as they run. Every row write fires its handler; a handler that writes the other
 table does so with the guard up, so the inner handler returns at once. That the methods below
 terminate is the guard's purpose: each nested write is only reached with `syncing` raised.
 */
module LocationSync {
  import opened Wrappers
  import opened LocationLinks
  import opened LocationEffects

  class Registry {
    var nodes: map<nat, Node>
    var devices: map<nat, Device>
    var syncing: bool
    /** How many handler calls the guard has cut short. */
    ghost var suppressed: nat

    ghost function Current(): Tables
      reads this
    {
      Tables(nodes, devices)
    }

    ghost predicate Valid()
      reads this
    {
      !syncing && Consistent(Current())
    }

    constructor ()
      ensures Valid() && Current() == Tables(map[], map[])
    {
      nodes, devices, syncing, suppressed := map[], map[], false, 0;
    }

    method FindNode(device: nat) returns (k: Option<nat>)
      requires LinksAreOneToOne(Current())
      ensures k.None? <==> !HasNode(Current(), device)
      ensures k.Some? ==> k.value == NodeOf(Current(), device)
    {
      if pk :| pk in nodes && nodes[pk].device == Some(device) {
        k := Some(pk);
      } else {
        k := None;
      }
    }

    /** `LocationNode.save()`. With the guard up only the row is written. */
    method SaveNodeRow(pk: nat, node: Node, facility: bool, newKey: nat) returns (r: Outcome)
      requires syncing || (Valid() && newKey !in devices)
      modifies this
      ensures syncing == old(syncing) && suppressed <= old(suppressed) + 1
      ensures !old(syncing) ==> (r, Current()) == Apply(old(Current()), SaveNode(pk, node, facility, newKey)) && Valid()
      ensures !old(syncing) ==> NodeSaveEffect(old(Current()), pk, node, facility, newKey, r, Current())
      ensures old(syncing) ==> (r, Current()) ==
                                  if NodeRowRefused(old(Current()), pk, node) then (IntegrityError, old(Current()))
                                                else (Done, old(Current()).(nodes := old(nodes)[pk := node]))
      decreases if syncing then 0 else 1, 2
    {
      if NodeRowRefused(Tables(nodes, devices), pk, node) {
        return IntegrityError;
      }
      if !syncing {
        SaveNodeKeeps(Current(), SaveNode(pk, node, facility, newKey));
        NodeSaveHasEffect(Current(), pk, node, facility, newKey);
      }
      nodes := nodes[pk := node];
      r := NodeSaved(pk, facility, newKey);
    }

    /** `_ln_to_device_sync` */
    method NodeSaved(pk: nat, facility: bool, newKey: nat) returns (r: Outcome)
      requires pk in nodes && (!syncing ==> newKey !in devices)
      requires !syncing && nodes[pk].device.Some? ==> nodes[pk].device.value in devices && UidsUnique(devices)
      modifies this
      ensures syncing == old(syncing) && suppressed <= old(suppressed) + 1
      ensures (r, Current()) ==
                if old(syncing) then (Done, old(Current())) else NodeFollowUp(old(Current()), pk, facility, newKey)
      decreases if syncing then 0 else 1, 1
    {
      if syncing {
        suppressed := suppressed + 1;
        return Done;
      }
      var node := nodes[pk];
      if node.device.None? {
        if !facility {
          return Done;
        }
        syncing := true;
        r := SaveDeviceRow(newKey, DeviceFor(node), 0);
        if r == Done {
          nodes := nodes[pk := node.(device := Some(newKey))];
        }
        syncing := false;
        return r;
      }
      var device := devices[node.device.value];
      var target := Mirrored(device, node);
      if target != device {
        syncing := true;
        r := SaveDeviceRow(node.device.value, target, 0);
        syncing := false;
        return r;
      }
      assert devices[node.device.value := target] == devices;
      return Done;
    }

    /** `Device.save()`. With the guard up only the row is written. */
    method SaveDeviceRow(pk: nat, device: Device, newKey: nat) returns (r: Outcome)
      requires syncing || (Valid() && newKey !in nodes)
      modifies this
      ensures syncing == old(syncing) && suppressed <= old(suppressed) + 1
      ensures !old(syncing) ==> (r, Current()) == Apply(old(Current()), SaveDevice(pk, device, newKey)) && Valid()
      ensures !old(syncing) ==> DeviceSaveEffect(old(Current()), pk, device, newKey, r, Current())
      ensures old(syncing) ==> (r, Current()) ==
                                  if UidTaken(old(Current()), pk, device.uid) then (IntegrityError, old(Current()))
                                                else (Done, old(Current()).(devices := old(devices)[pk := device]))
      decreases if syncing then 0 else 1, 2
    {
      if UidTaken(Tables(nodes, devices), pk, device.uid) {
        return IntegrityError;
      }
      if !syncing {
        SaveDeviceKeeps(Current(), SaveDevice(pk, device, newKey));
        DeviceSaveHasEffect(Current(), pk, device, newKey);
      }
      var created := pk !in devices;
      devices := devices[pk := device];
      r := DeviceSaved(pk, created, newKey);
    }

    /** `_device_to_ln_sync` */
    method DeviceSaved(pk: nat, created: bool, newKey: nat) returns (r: Outcome)
      requires pk in devices && (!syncing ==> newKey !in nodes && LinksAreOneToOne(Current()) && CodesUnique(nodes))
      modifies this
      ensures syncing == old(syncing) && suppressed <= old(suppressed) + 1
      ensures (r, Current()) ==
                if old(syncing) then (Done, old(Current())) else DeviceFollowUp(old(Current()), pk, created, newKey)
      decreases if syncing then 0 else 1, 1
    {
      if syncing {
        suppressed := suppressed + 1;
        return Done;
      }
      var device := devices[pk];
      if device.kind != Loc {
        return Done;
      }
      var k := FindNode(pk);
      if k.None? {
        if !created {
          return Done;
        }
        syncing := true;
        r := SaveNodeRow(newKey, NodeFor(device, pk), false, 0);
        syncing := false;
        return r;
      }
      var node := nodes[k.value];
      var target := Reflected(node, device);
      if target != node {
        syncing := true;
        r := SaveNodeRow(k.value, target, false, 0);
        syncing := false;
        return r;
      }
      assert nodes[k.value := target] == nodes;
      return Done;
    }

    /** `LocationNode.delete()`: protection is checked before any row or signal. */
    method DeleteNodeRow(pk: nat, nodeProtected: bool, deviceProtected: bool) returns (r: Outcome)
      requires syncing || Valid()
      modifies this
      ensures syncing == old(syncing) && suppressed <= old(suppressed) + 1
      ensures !old(syncing) ==>
                (r, Current()) == Apply(old(Current()), DeleteNode(pk, nodeProtected, deviceProtected)) && Valid()
      ensures !old(syncing) ==> NodeDeleteEffect(old(Current()), pk, nodeProtected, deviceProtected, r, Current())
      ensures old(syncing) ==> (r, Current()) ==
                                  if pk in old(nodes) && nodeProtected then (ProtectedError, old(Current()))
                                                else (Done, DropNode(old(Current()), pk))
      decreases if syncing then 0 else 1, 2
    {
      if pk !in nodes {
        assert DropNode(Current(), pk) == Current();
        return Done;
      }
      if nodeProtected {
        return ProtectedError;
      }
      var node := nodes[pk];
      if !syncing {
        DeletesKeep(Current(), DeleteNode(pk, nodeProtected, deviceProtected));
        NodeDeleteHasEffect(Current(), pk, nodeProtected, deviceProtected);
      }
      nodes := nodes - {pk};
      NodeDeleted(node, deviceProtected);
      r := Done;
    }

    /** `_ln_to_device_delete`: a protected device survives with a warning. */
    method NodeDeleted(node: Node, deviceProtected: bool)
      requires !syncing && node.device.Some? ==> node.device.value in devices
      modifies this
      ensures syncing == old(syncing) && suppressed <= old(suppressed) + 1
      ensures Current() == if old(syncing) || node.device.None? || deviceProtected then old(Current())
                           else DropDevice(old(Current()), node.device.value)
      decreases if syncing then 0 else 1, 1
    {
      if syncing {
        suppressed := suppressed + 1;
        return;
      }
      if node.device.None? {
        return;
      }
      syncing := true;
      var r := DeleteDeviceRow(node.device.value, deviceProtected, false);
      syncing := false;
    }

    /** `Device.delete()`: the pre-delete handler runs while the link is still there. */
    method DeleteDeviceRow(pk: nat, deviceProtected: bool, nodeProtected: bool) returns (r: Outcome)
      requires syncing || Valid()
      modifies this
      ensures syncing == old(syncing) && suppressed <= old(suppressed) + 1
      ensures !old(syncing) ==>
                (r, Current()) == Apply(old(Current()), DeleteDevice(pk, deviceProtected, nodeProtected)) && Valid()
      ensures !old(syncing) ==> DeviceDeleteEffect(old(Current()), pk, deviceProtected, nodeProtected, r, Current())
      ensures old(syncing) && pk in old(devices) ==>
                (r, Current()) ==
                  if deviceProtected then (ProtectedError, old(Current())) else (Done, DropDevice(old(Current()), pk))
      decreases if syncing then 0 else 1, 2
    {
      if pk !in devices {
        return Done;
      }
      if deviceProtected {
        return ProtectedError;
      }
      if !syncing {
        DeletesKeep(Current(), DeleteDevice(pk, deviceProtected, nodeProtected));
        DeviceDeleteHasEffect(Current(), pk, deviceProtected, nodeProtected);
      }
      DeviceDeleting(pk, nodeProtected);
      nodes, devices := Unlink(nodes, pk), devices - {pk};
      r := Done;
    }

    /** `_device_to_ln_delete`: a protected node survives with a warning. */
    method DeviceDeleting(pk: nat, nodeProtected: bool)
      requires pk in devices && (!syncing ==> LinksAreOneToOne(Current()))
      modifies this
      ensures syncing == old(syncing) && suppressed <= old(suppressed) + 1
      ensures Current() == if old(syncing) then old(Current()) else DeviceFarewell(old(Current()), pk, nodeProtected)
      decreases if syncing then 0 else 1, 1
    {
      if syncing {
        suppressed := suppressed + 1;
        return;
      }
      if devices[pk].kind != Loc {
        return;
      }
      var k := FindNode(pk);
      if k.None? {
        return;
      }
      syncing := true;
      var r := DeleteNodeRow(k.value, nodeProtected, false);
      syncing := false;
    }
  }

  ghost predicate UidsUnique(devices: map<nat, Device>) {
    forall j, k :: j in devices && k in devices && devices[j].uid == devices[k].uid ==> j == k
  }

  ghost predicate CodesUnique(nodes: map<nat, Node>) {
    forall j, k :: j in nodes && k in nodes && nodes[j].code == nodes[k].code ==> j == k
  }
}
