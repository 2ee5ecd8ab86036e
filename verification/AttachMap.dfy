/** EBS volumes being attached to nodes: the in-flight map shared by all concurrent attach calls. */
module AttachMap {
  import opened Wrappers
  import opened DeviceAllocator

  type NodeName = string
  type VolumeID = string

  datatype BlockDevice = BlockDevice(name: string, volume: VolumeID)

  datatype Assignment =
    | Existing(device: MountDevice) // already attached, or an attach is in progress
    | Unassigned // not attached, and no device was asked for
    | Assigned(device: MountDevice)
    | TooMany

  /** The state behind the attaching mutex: the attaches in flight, and each node's ring position. */
  datatype Shared = Shared(attaching: map<NodeName, map<MountDevice, VolumeID>>, last: map<NodeName, nat>)

  function InFlight(s: Shared, node: NodeName): map<MountDevice, VolumeID> {
    if node in s.attaching then s.attaching[node] else map[]
  }

  function Position(s: Shared, node: NodeName): nat {
    if node in s.last then s.last[node] else 0
  }

  ghost predicate Holds(s: Shared, node: NodeName, device: MountDevice, volume: VolumeID) {
    device in InFlight(s, node) && InFlight(s, node)[device] == volume
  }

  ghost predicate PositionsOk(s: Shared) {
    forall node :: node in s.last ==> s.last[node] < 2 * LETTERS
  }

  // ---- the reported mapping ----

  function Suffix(name: string): MountDevice {
    var name := if "/dev/sd" <= name then name[7..] else name;
    if "/dev/xvd" <= name then name[8..] else name
  }

  /** Later block devices win. */
  function Reported(blocks: seq<BlockDevice>): map<MountDevice, VolumeID> {
    if blocks == [] then map[]
    else Reported(blocks[..|blocks| - 1])[Suffix(blocks[|blocks| - 1].name) := blocks[|blocks| - 1].volume]
  }

  /** Both ways of writing a device's path come to its name. */
  lemma SuffixOfPath(d: MountDevice)
    ensures Suffix("/dev/xvd" + d) == d
    ensures !("/dev/xvd" <= d) ==> Suffix("/dev/sd" + d) == d
  {
    var xvd, sd := "/dev/xvd" + d, "/dev/sd" + d;
    assert xvd[5] == 'x' && sd[5] == 's';
    assert "/dev/xvd" <= xvd && xvd[8..] == d && "/dev/sd" <= sd && sd[7..] == d;
    assert xvd[5] != "/dev/sd"[5];
  }

  function Devices(blocks: seq<BlockDevice>): seq<MountDevice> {
    seq(|blocks|, i requires 0 <= i < |blocks| => Suffix(blocks[i].name))
  }

  ghost predicate LastAt(devices: seq<MountDevice>, i: nat, d: MountDevice) {
    i < |devices| && devices[i] == d && forall j :: i < j < |devices| ==> devices[j] != d
  }

  /** The last block on d holds the volume. */
  ghost predicate LastHolds(blocks: seq<BlockDevice>, d: MountDevice, volume: VolumeID) {
    exists i: nat :: i < |blocks| && LastAt(Devices(blocks), i, d) && blocks[i].volume == volume
  }

  /** A name other than d at the end changes nothing for d. */
  lemma LastInFront(devices: seq<MountDevice>, i: nat, d: MountDevice)
    requires devices != [] && devices[|devices| - 1] != d
    ensures LastAt(devices, i, d) <==> LastAt(devices[..|devices| - 1], i, d)
  {
  }

  lemma LastHoldsInFront(blocks: seq<BlockDevice>, d: MountDevice, volume: VolumeID)
    requires blocks != [] && Suffix(blocks[|blocks| - 1].name) != d
    ensures LastHolds(blocks, d, volume) <==> LastHolds(blocks[..|blocks| - 1], d, volume)
  {
    var n, front := |blocks| - 1, blocks[..|blocks| - 1];
    assert Devices(front) == Devices(blocks)[..n];
    forall i: nat ensures LastAt(Devices(blocks), i, d) <==> LastAt(Devices(front), i, d) {
      LastInFront(Devices(blocks), i, d);
    }
  }

  lemma {:induction false} ReportedExactly(blocks: seq<BlockDevice>, d: MountDevice, volume: VolumeID)
    ensures d in Reported(blocks) && Reported(blocks)[d] == volume <==> LastHolds(blocks, d, volume)
  {
    if blocks != [] {
      var n := |blocks| - 1;
      if Suffix(blocks[n].name) == d {
        assert LastAt(Devices(blocks), n, d);
      } else {
        ReportedExactly(blocks[..n], d, volume);
        LastHoldsInFront(blocks, d, volume);
      }
    }
  }

  lemma {:induction false} NamedIsReported(blocks: seq<BlockDevice>, i: nat)
    requires i < |blocks|
    ensures Suffix(blocks[i].name) in Reported(blocks)
  {
    var n := |blocks| - 1;
    if i < n {
      NamedIsReported(blocks[..n], i);
      assert blocks[..n][i] == blocks[i];
    }
  }

  // ---- the two critical sections as relations on the shared state ----

  ghost predicate MountStep(s: Shared, node: NodeName, reported: map<MountDevice, VolumeID>, volume: VolumeID,
                            assign: bool,
                            r: Assignment, s': Shared)
    requires PositionsOk(s)
  {
    var mappings := reported + InFlight(s, node);
    match r
    case Existing(d) => d in mappings && mappings[d] == volume && s' == s
    case Unassigned => NotMapped(mappings, volume) && !assign && s' == s
    case _ => NotMapped(mappings, volume) && assign && GrantStep(s, node, mappings.Keys, volume, r, s')
  }

  /** A device is granted, or none is free. */
  ghost predicate GrantStep(s: Shared, node: NodeName, existing: set<MountDevice>, volume: VolumeID, r: Assignment,
                            s': Shared)
    requires PositionsOk(s)
  {
    match r
    case Assigned(d) => AssignStep(s, node, existing, volume, d, Position(s', node), s')
    case TooMany =>
      var last := Position(s, node);
      GetNextStep(DeviceNames(), last, existing, None, last) && s' == s.(last := s.last[node := last])
    case _ => false
  }

  /** Device d, at ring position q, is the first free one after the node's position. */
  ghost predicate AssignStep(s: Shared, node: NodeName, existing: set<MountDevice>, volume: VolumeID,
                             d: MountDevice, q: nat, s': Shared)
    requires PositionsOk(s)
  {
    && GetNextStep(DeviceNames(), Position(s, node), existing, Some(q), q) && d == DeviceNames()[q]
    && s' == Shared(s.attaching[node := InFlight(s, node)[d := volume]], s.last[node := q])
  }

  ghost predicate NotMapped(mappings: map<MountDevice, VolumeID>, volume: VolumeID) {
    forall d :: d in mappings ==> mappings[d] != volume
  }

  ghost predicate EndStep(s: Shared, node: NodeName, volume: VolumeID, device: MountDevice, ended: bool, s': Shared) {
    && ended == Holds(s, node, device, volume)
    && s' == if ended then s.(attaching := s.attaching[node := InFlight(s, node) - {device}]) else s
  }

  /** Creating the node's allocator first makes no difference. */
  lemma SameGrant(s: Shared, s1: Shared, node: NodeName, existing: set<MountDevice>, volume: VolumeID, r: Assignment,
                  s': Shared)
    requires PositionsOk(s) && s1 == s.(last := s.last[node := Position(s, node)])
    requires PositionsOk(s1) && GrantStep(s1, node, existing, volume, r, s')
    ensures GrantStep(s, node, existing, volume, r, s')
  {
    assert s1.last[node := Position(s', node)] == s.last[node := Position(s', node)];
  }

  // ---- in the terms of EC2's report ----

  /** No reported block is on the device that is granted, under either path. */
  lemma GrantedIsUnused(s: Shared, node: NodeName, blocks: seq<BlockDevice>, volume: VolumeID, d: MountDevice,
                        s': Shared, i: nat)
    requires PositionsOk(s) && MountStep(s, node, Reported(blocks), volume, true, Assigned(d), s') && i < |blocks|
    ensures blocks[i].name != "/dev/xvd" + d && blocks[i].name != "/dev/sd" + d
    ensures d in DeviceNames() && blocks[i].name != d && d !in InFlight(s, node)
  {
    GrantedIsFree(s, node, Reported(blocks), volume, d, s');
    NamedIsReported(blocks, i);
    SuffixOfName(d);
    SuffixOfPath(d);
  }

  lemma GrantedIsFree(s: Shared, node: NodeName, reported: map<MountDevice, VolumeID>, volume: VolumeID,
                      d: MountDevice, s': Shared)
    requires PositionsOk(s) && MountStep(s, node, reported, volume, true, Assigned(d), s')
    ensures d in DeviceNames() && d !in reported && d !in InFlight(s, node)
  {
    var mappings := reported + InFlight(s, node);
    assert GrantStep(s, node, mappings.Keys, volume, Assigned(d), s');
    assert d !in mappings.Keys;
  }

  lemma SuffixOfName(d: MountDevice)
    requires d in DeviceNames()
    ensures Suffix(d) == d && !("/dev/xvd" <= d)
  {
    assert |d| == 2;
  }

  /** A volume has a device exactly when an attach of it is in flight, or the last block on some device
      that no attach in flight has holds it; and the answer is such a device. */
  ghost predicate HasAt(s: Shared, node: NodeName, blocks: seq<BlockDevice>, volume: VolumeID, d: MountDevice) {
    || Holds(s, node, d, volume)
    || (d !in InFlight(s, node) && LastHolds(blocks, d, volume))
  }

  lemma ExistingExactly(s: Shared, node: NodeName, blocks: seq<BlockDevice>, volume: VolumeID, assign: bool,
                        r: Assignment, s': Shared)
    requires PositionsOk(s) && MountStep(s, node, Reported(blocks), volume, assign, r, s')
    ensures r.Existing? <==> exists d :: HasAt(s, node, blocks, volume, d)
    ensures r.Existing? ==> HasAt(s, node, blocks, volume, r.device)
  {
    var mappings := Reported(blocks) + InFlight(s, node);
    forall d ensures HasAt(s, node, blocks, volume, d) <==> d in mappings && mappings[d] == volume {
      ReportedExactly(blocks, d, volume);
    }
    assert r.Existing? ==> r.device in mappings && mappings[r.device] == volume;
  }

  // ---- a whole AttachDisk ----

  datatype Attachment = Attachment(device: string, instance: string)

  predicate HasDevice(r: Assignment) { r.Assigned? || r.Existing? }

  /** Whether AttachDisk ends the attach: accepted says that AttachVolume was, which is only called
      for a device just granted, and waited that the wait for the attachment status succeeded. */
  predicate AttachEnds(r: Assignment, accepted: bool, waited: bool) {
    HasDevice(r) && (if r.Assigned? && !accepted then true else waited)
  }

  class Cloud {
    var attaching: map<NodeName, map<MountDevice, VolumeID>>
    var deviceAllocators: map<NodeName, Allocator>
    ghost var last: map<NodeName, nat> // the positions of the allocators

    ghost predicate Valid()
      reads this, deviceAllocators.Values
    {
      && last.Keys == deviceAllocators.Keys
      && (forall n :: n in deviceAllocators ==> deviceAllocators[n].Valid() && deviceAllocators[n].lastIndex == last[n])
      && (forall m, n :: m in deviceAllocators && n in deviceAllocators && m != n ==>
           deviceAllocators[m] != deviceAllocators[n])
    }

    ghost function View(): (s: Shared)
      requires Valid()
      reads this, deviceAllocators.Values
      ensures PositionsOk(s)
    {
      Shared(attaching, last)
    }

    constructor ()
      ensures Valid() && View() == Shared(map[], map[])
      ensures deviceAllocators == map[]
    {
      attaching := map[];
      deviceAllocators := map[];
      last := map[];
    }

    method GetMountDevice(node: NodeName, blocks: seq<BlockDevice>, volume: VolumeID, assign: bool)
      returns (r: Assignment)
      requires Valid()
      modifies this, deviceAllocators.Values
      ensures Valid() && fresh(deviceAllocators.Values - old(deviceAllocators.Values))
      ensures MountStep(old(View()), node, Reported(blocks), volume, assign, r, View())
    {
      var mappings: map<MountDevice, VolumeID> := map[];
      for i := 0 to |blocks|
        invariant mappings == Reported(blocks[..i])
      {
        assert blocks[..i + 1][..i] == blocks[..i];
        mappings := mappings[Suffix(blocks[i].name) := blocks[i].volume];
      }
      assert blocks[..|blocks|] == blocks;
      mappings := mappings + if node in attaching then attaching[node] else map[];
      if d :| d in mappings && mappings[d] == volume {
        return Existing(d);
      }
      if !assign {
        return Unassigned;
      }
      r := TakeDevice(node, mappings, volume);
    }

    /** The last part of GetMountDevice, for a volume that has no device yet. */
    method TakeDevice(node: NodeName, mappings: map<MountDevice, VolumeID>, volume: VolumeID) returns (r: Assignment)
      requires Valid()
      modifies this, deviceAllocators.Values
      ensures Valid() && fresh(deviceAllocators.Values - old(deviceAllocators.Values))
      ensures GrantStep(old(View()), node, mappings.Keys, volume, r, View())
    {
      ghost var s := View();
      EnsureAllocator(node);
      ghost var s1 := View();
      r := AssignDevice(node, mappings, volume);
      SameGrant(s, s1, node, mappings.Keys, volume, r, View());
    }

    method AssignDevice(node: NodeName, mappings: map<MountDevice, VolumeID>, volume: VolumeID) returns (r: Assignment)
      requires Valid() && node in deviceAllocators
      modifies this`attaching, this`last, deviceAllocators[node]
      ensures Valid()
      ensures GrantStep(old(View()), node, mappings.Keys, volume, r, View())
    {
      var chosen := NextDevice(node, mappings.Keys);
      if chosen.None? {
        return TooMany;
      }
      var current := if node in attaching then attaching[node] else map[];
      attaching := attaching[node := current[chosen.value := volume]];
      return Assigned(chosen.value);
    }

    method NextDevice(node: NodeName, existing: set<MountDevice>) returns (chosen: Option<MountDevice>)
      requires Valid() && node in deviceAllocators
      modifies this`last, deviceAllocators[node]
      ensures Valid()
      ensures View() == old(View()).(last := old(View()).last[node := Position(View(), node)])
      ensures GetNextStep(DeviceNames(), old(last)[node], existing, if chosen.Some? then Some(last[node]) else None,
                last[node])
      ensures chosen.Some? ==> chosen.value == DeviceNames()[last[node]]
    {
      chosen := deviceAllocators[node].GetNext(existing);
      last := last[node := deviceAllocators[node].lastIndex];
    }

    method EnsureAllocator(node: NodeName)
      requires Valid()
      modifies this`deviceAllocators, this`last
      ensures Valid() && fresh(deviceAllocators.Values - old(deviceAllocators.Values))
      ensures node in deviceAllocators
      ensures View() == old(View()).(last := old(View()).last[node := Position(old(View()), node)])
    {
      if node !in deviceAllocators {
        ghost var before := deviceAllocators;
        var allocator := new Allocator(0);
        deviceAllocators := deviceAllocators[node := allocator];
        last := last[node := 0];
        assert forall n :: n in before ==> before[n] in before.Values;
      }
    }

    method EndAttaching(node: NodeName, volume: VolumeID, device: MountDevice) returns (ended: bool)
      requires Valid()
      modifies this`attaching
      ensures Valid() && EndStep(old(View()), node, volume, device, ended, View())
    {
      if !(node in attaching && device in attaching[node]) { return false; }
      if attaching[node][device] != volume { return false; }
      attaching := attaching[node := attaching[node] - {device}];
      return true;
    }

    /** AttachDisk without interference. waited is None when the wait for the attachment status fails,
        or else the attachment it found, if any. The entry of a device it was granted stays in flight
        exactly when AttachVolume was accepted and the wait failed. */
    method AttachDisk(node: NodeName, blocks: seq<BlockDevice>, volume: VolumeID, readOnly: bool, instance: string,
                      accepted: bool, waited: Option<Option<Attachment>>)
      returns (r: Option<string>, given: Assignment, ghost mid: Shared)
      requires Valid()
      modifies this, deviceAllocators.Values
      ensures Valid() && fresh(deviceAllocators.Values - old(deviceAllocators.Values))
      ensures readOnly ==> given == Unassigned && View() == old(View())
      ensures !readOnly ==> MountStep(old(View()), node, Reported(blocks), volume, true, given, mid)
      ensures !readOnly ==> HasDevice(given) || given.TooMany?
      ensures !readOnly && !AttachEnds(given, accepted, waited.Some?) ==> View() == mid
      ensures AttachEnds(given, accepted, waited.Some?) ==>
                EndStep(mid, node, volume, given.device, Holds(mid, node, given.device, volume), View())
      ensures given.Assigned? ==> (Holds(View(), node, given.device, volume) <==> accepted && waited.None?)
      ensures r.Some? <==>
              HasDevice(given) && (given.Assigned? ==> accepted)
              && waited == Some(Some(Attachment("/dev/xvd" + given.device, instance)))
      ensures r.Some? ==> r.value == "/dev/xvd" + given.device
    {
      mid := View();
      if readOnly { return None, Unassigned, mid; }
      given := GetMountDevice(node, blocks, volume, true);
      mid := View();
      if given.TooMany? { return None, given, mid; }
      var ended;
      if given.Assigned? && !accepted {
        ended := EndAttaching(node, volume, given.device);
        return None, given, mid;
      }
      if waited.None? { return None, given, mid; }
      ended := EndAttaching(node, volume, given.device);
      var path := "/dev/xvd" + given.device;
      if waited.value.None? || waited.value.value.device != path || waited.value.value.instance != instance {
        return None, given, mid;
      }
      return Some(path), given, mid;
    }

    /** DetachDisk without interference. The entry of the device it was told, if an attach of the volume
        is in flight there, goes exactly when DetachVolume was accepted and the wait succeeded. */
    method DetachDisk(node: NodeName, blocks: seq<BlockDevice>, volume: VolumeID, accepted: bool, waited: bool)
      returns (r: Option<string>, given: Assignment)
      requires Valid()
      modifies this, deviceAllocators.Values
      ensures Valid() && fresh(deviceAllocators.Values - old(deviceAllocators.Values))
      ensures MountStep(old(View()), node, Reported(blocks), volume, false, given, old(View()))
      ensures given.Existing? || given.Unassigned?
      ensures !(given.Existing? && given.device != "" && accepted && waited) ==> View() == old(View())
      ensures given.Existing? && given.device != "" && accepted && waited ==>
                EndStep(old(View()), node, volume, given.device, Holds(old(View()), node, given.device, volume), View())
      ensures given.Existing? && given.device != "" ==>
                (Holds(View(), node, given.device, volume) <==>
                 Holds(old(View()), node, given.device, volume) && !(accepted && waited))
      ensures r.Some? <==> accepted && waited
      ensures r.Some? ==> r.value == "/dev/xvd" + if given.Existing? then given.device else ""
    {
      given := GetMountDevice(node, blocks, volume, false);
      if !accepted || !waited { return None, given; }
      var device := if given.Existing? then given.device else "";
      if device != "" {
        var ended := EndAttaching(node, volume, device);
      }
      return Some("/dev/xvd" + device), given;
    }
  }
}
