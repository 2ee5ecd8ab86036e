/** What holds over every interleaving of attach calls, on any number of nodes. */
module AttachRuns {
  import opened Wrappers
  import opened DeviceAllocator
  import opened AttachMap

  /** One critical section. Block devices are reported by EC2 as it pleases. */
  datatype Event =
    | Mount(node: NodeName, reported: map<MountDevice, VolumeID>, volume: VolumeID, assign: bool, result: Assignment)
    | End(node: NodeName, volume: VolumeID, device: MountDevice, ended: bool)

  ghost predicate Step(s: Shared, e: Event, s': Shared) {
    && PositionsOk(s)
    && match e
       case Mount(node, reported, volume, assign, result) => MountStep(s, node, reported, volume, assign, result, s')
       case End(node, volume, device, ended) => EndStep(s, node, volume, device, ended, s')
  }

  ghost predicate StepAt(states: seq<Shared>, events: seq<Event>, t: nat)
    requires |states| == |events| + 1 && t < |events|
  {
    Step(states[t], events[t], states[t + 1])
  }

  ghost predicate Run(states: seq<Shared>, events: seq<Event>) {
    && |states| == |events| + 1
    && states[0] == Shared(map[], map[])
    && forall t {:trigger StepAt(states, events, t)} :: 0 <= t < |events| ==> StepAt(states, events, t)
  }

  /** The event that put an entry in flight, and the event that takes it out. */
  ghost predicate Grants(e: Event, node: NodeName, device: MountDevice, volume: VolumeID) {
    e.Mount? && e.node == node && e.volume == volume && e.assign && e.result == Assigned(device)
  }

  ghost predicate Releases(e: Event, node: NodeName, device: MountDevice, volume: VolumeID) {
    e == End(node, volume, device, true)
  }

  /** The names taken at a call on a node. */
  function Taken(s: Shared, e: Event): set<MountDevice>
    requires e.Mount?
  {
    e.reported.Keys + InFlight(s, e.node).Keys
  }

  // ---- entries ----

  lemma StepEntry(s: Shared, e: Event, s': Shared, node: NodeName, d: MountDevice, v: VolumeID)
    requires Step(s, e, s')
    ensures Holds(s', node, d, v) <==> Grants(e, node, d, v) || (Holds(s, node, d, v) && !Releases(e, node, d, v))
    ensures Grants(e, node, d, v) ==> d !in Taken(s, e) && NotMapped(e.reported + InFlight(s, node), v)
  {
  }

  ghost predicate HeldSince(events: seq<Event>, t: nat, j: nat, node: NodeName, d: MountDevice, v: VolumeID) {
    t < j <= |events| && Grants(events[t], node, d, v) && forall u :: t < u < j ==> !Releases(events[u], node, d, v)
  }

  /** An attach is in flight exactly from the call that was granted its device until the
      endAttaching for that same volume and device: nothing overwrites or drops it in between. */
  lemma {:induction false} InFlightExactly(states: seq<Shared>, events: seq<Event>, j: nat, node: NodeName,
                                           d: MountDevice, v: VolumeID)
    requires Run(states, events) && j <= |events|
    ensures Holds(states[j], node, d, v) <==> exists t :: HeldSince(events, t, j, node, d, v)
    decreases j
  {
    if j > 0 {
      InFlightExactly(states, events, j - 1, node, d, v);
      assert StepAt(states, events, j - 1);
      StepEntry(states[j - 1], events[j - 1], states[j], node, d, v);
      if Holds(states[j], node, d, v) {
        if Grants(events[j - 1], node, d, v) {
          assert HeldSince(events, j - 1, j, node, d, v);
        } else {
          var t :| HeldSince(events, t, j - 1, node, d, v);
          assert HeldSince(events, t, j, node, d, v);
        }
      } else if t: nat :| HeldSince(events, t, j, node, d, v) {
        assert t < j - 1;
        assert HeldSince(events, t, j - 1, node, d, v);
      }
    }
  }

  /** At every moment each in-flight volume has one device on its node. */
  lemma {:induction false} OneDevicePerVolume(states: seq<Shared>, events: seq<Event>, j: nat, node: NodeName,
                                              d: MountDevice, d': MountDevice, v: VolumeID)
    requires Run(states, events) && j <= |events|
    requires Holds(states[j], node, d, v) && Holds(states[j], node, d', v)
    ensures d == d'
    decreases j
  {
    assert j > 0;
    assert StepAt(states, events, j - 1);
    StepEntry(states[j - 1], events[j - 1], states[j], node, d, v);
    StepEntry(states[j - 1], events[j - 1], states[j], node, d', v);
    if !Grants(events[j - 1], node, d, v) && !Grants(events[j - 1], node, d', v) {
      OneDevicePerVolume(states, events, j - 1, node, d, d', v);
    }
  }

  /** The volume is reported on no other device. */
  ghost predicate OnlyOn(reported: map<MountDevice, VolumeID>, d: MountDevice, v: VolumeID) {
    forall d' :: d' in reported && d' != d ==> reported[d'] != v
  }

  /** While an attach is in flight no call grants its device again, and every call for its volume
      on that node is answered with a device already mapped to it: its own, unless EC2 reports the
      volume on another one. */
  lemma ExclusiveWhileInFlight(states: seq<Shared>, events: seq<Event>, i: nat, j: nat, node: NodeName,
                               d: MountDevice, v: VolumeID)
    requires Run(states, events) && HeldSince(events, i, j, node, d, v) && j < |events|
    requires events[j].Mount? && events[j].node == node
    ensures events[j].result != Assigned(d)
    ensures events[j].volume == v ==> events[j].result.Existing?
    ensures events[j].volume == v && OnlyOn(events[j].reported, d, v) ==>
              events[j].result == Existing(d)
  {
    InFlightExactly(states, events, j, node, d, v);
    assert StepAt(states, events, j);
    var mappings := events[j].reported + InFlight(states[j], node);
    assert d in mappings && mappings[d] == v;
    if events[j].volume == v && events[j].result.Existing? && events[j].result.device != d
       && OnlyOn(events[j].reported, d, v)
    {
      OneDevicePerVolume(states, events, j, node, d, events[j].result.device, v);
      assert false;
    }
  }

  // ---- reuse of names ----

  lemma PositionMoves(s: Shared, e: Event, s': Shared, node: NodeName)
    requires Step(s, e, s')
    ensures PositionsOk(s')
    ensures !(e.node == node && e.Mount? && e.result.Assigned?) ==> Position(s', node) == Position(s, node)
    ensures e.node == node && e.Mount? && e.result.Assigned? ==>
              && GetNextStep(DeviceNames(), Position(s, node), Taken(s, e), Some(Position(s', node)),
                   Position(s', node))
              && e.result.device == DeviceName(Position(s', node))
  {
    if e.Mount? {
      assert (e.reported + InFlight(s, e.node)).Keys == Taken(s, e);
    }
  }

  ghost predicate GrantsName(e: Event, node: NodeName, x: nat)
    requires x < 2 * LETTERS
  {
    e.Mount? && e.node == node && e.result == Assigned(DeviceName(x))
  }

  /** Name y is free at every granting call on the node from event i (exclusive) to j (exclusive). */
  ghost predicate FreeBetween(states: seq<Shared>, events: seq<Event>, i: nat, j: nat, node: NodeName, y: nat)
    requires y < 2 * LETTERS && j <= |events| <= |states|
  {
    forall t :: i < t < j && events[t].Mount? && events[t].node == node && events[t].result.Assigned? ==>
      DeviceName(y) !in Taken(states[t], events[t])
  }

  /** As long as y is free and not handed out, the node's position stays short of y as seen from x. */
  lemma {:induction false} StaysShort(states: seq<Shared>, events: seq<Event>, i: nat, t: nat, node: NodeName, x: nat,
                                      y: nat)
    requires Run(states, events) && i < t <= |events|
    requires x < 2 * LETTERS && y < 2 * LETTERS && x != y && GrantsName(events[i], node, x)
    requires FreeBetween(states, events, i, t, node, y) && forall s :: i < s < t ==> !GrantsName(events[s], node, y)
    ensures PositionsOk(states[t])
    ensures Offset(2 * LETTERS, x, Position(states[t], node)) < Offset(2 * LETTERS, x, y)
    decreases t
  {
    assert StepAt(states, events, t - 1);
    PositionMoves(states[t - 1], events[t - 1], states[t], node);
    var e := events[t - 1];
    if t - 1 > i {
      StaysShort(states, events, i, t - 1, node, x, y);
      if e.node == node && e.Mount? && e.result.Assigned? {
        var p := Position(states[t], node);
        StopsAtFree(DeviceNames(), x, y, Position(states[t - 1], node), Taken(states[t - 1], e), Some(p), p);
      }
    } else {
      NamesDistinct(x, Position(states[t], node));
    }
  }

  /** Names are reused as late as possible: between two grants of x on a node, every other name
      that was free at each granting call there in between has been granted. */
  lemma LateReuse(states: seq<Shared>, events: seq<Event>, i: nat, j: nat, node: NodeName, x: nat, y: nat)
    requires Run(states, events) && i < j < |events|
    requires x < 2 * LETTERS && y < 2 * LETTERS && x != y && GrantsName(events[i], node, x) &&
               GrantsName(events[j], node, x)
    requires FreeBetween(states, events, i, j + 1, node, y)
    ensures exists t :: i < t < j && GrantsName(events[t], node, y)
  {
    if forall t :: i < t < j ==> !GrantsName(events[t], node, y) {
      StaysShort(states, events, i, j, node, x, y);
      assert StepAt(states, events, j);
      PositionMoves(states[j], events[j], states[j + 1], node);
      var p := Position(states[j + 1], node);
      NamesDistinct(x, p);
      StopsAtFree(DeviceNames(), x, y, Position(states[j], node), Taken(states[j], events[j]), Some(p), p);
      assert false;
    }
  }
}
