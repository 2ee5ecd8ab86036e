/** Whole AttachDisk and DetachDisk calls, over every interleaving of their critical sections. */
module AttachCalls {
  import opened Wrappers
  import opened DeviceAllocator
  import opened AttachMap
  import opened AttachRuns

  /** A finished call: the event at which it asked for the device, what it was given, whether EC2
      accepted its request, whether its wait for the attachment status succeeded, and the event at
      which it ended the attach, if it did. */
  datatype Call =
    | AttachDisk(node: NodeName, volume: VolumeID, at: nat, given: Assignment, accepted: bool, waited: bool,
                 ended: Option<nat>)
    | DetachDisk(node: NodeName, volume: VolumeID, at: nat, given: Assignment, accepted: bool, waited: bool,
                 ended: Option<nat>)

  /** DetachDisk ends an attach that was in flight once the volume is detached. */
  predicate Ends(c: Call) {
    if c.AttachDisk? then AttachEnds(c.given, c.accepted, c.waited)
    else c.given.Existing? && c.given.device != "" && c.accepted && c.waited
  }

  ghost predicate IsCall(events: seq<Event>, c: Call) {
    && c.at < |events| && events[c.at].Mount?
    && events[c.at] == Mount(c.node, events[c.at].reported, c.volume, c.AttachDisk?, c.given)
    && (c.ended.Some? <==> Ends(c))
    && (c.ended.Some? ==>
         && c.at < c.ended.value < |events| && events[c.ended.value].End?
         && events[c.ended.value] == End(c.node, c.volume, c.given.device, events[c.ended.value].ended))
  }

  /** Every endAttaching is part of a call. Calls that are still running need not be listed. */
  ghost predicate MadeBy(events: seq<Event>, calls: set<Call>) {
    && (forall c :: c in calls ==> IsCall(events, c))
    && forall u :: 0 <= u < |events| && events[u].End? ==> exists c :: c in calls && c.ended == Some(u)
  }

  /** Call x ended, between its grant and t, the attach that call c was granted. */
  ghost predicate EndsFor(x: Call, c: Call, t: nat)
    requires c.given.Assigned?
  {
    && x.ended.Some? && c.at < x.ended.value < t
    && x.node == c.node && x.volume == c.volume && HasDevice(x.given) && x.given.device == c.given.device
  }

  /** An endAttaching for the attach ends it, or finds that it has been ended. */
  lemma EndedIsOver(states: seq<Shared>, events: seq<Event>, i: nat, u: nat, t: nat, node: NodeName, d: MountDevice,
                    v: VolumeID)
    requires Run(states, events) && i < u < t <= |events|
    requires events[u].End? && events[u] == End(node, v, d, events[u].ended)
    ensures !HeldSince(events, i, t, node, d, v)
  {
    if HeldSince(events, i, t, node, d, v) {
      assert HeldSince(events, i, u, node, d, v);
      InFlightExactly(states, events, u, node, d, v);
      assert StepAt(states, events, u);
      assert Releases(events[u], node, d, v);
    }
  }

  /** The entry of an AttachDisk that was granted a device is still in flight at a time t after the
      call exactly when AttachVolume was accepted, the wait for the attachment status failed, and no
      other call for the same volume and device has ended the attach. */
  lemma OutlivesExactly(states: seq<Shared>, events: seq<Event>, calls: set<Call>, c: Call, t: nat)
    requires Run(states, events) && MadeBy(events, calls)
    requires c in calls && c.AttachDisk? && c.given.Assigned?
    requires c.at < t <= |events| && (c.ended.Some? ==> c.ended.value < t)
    ensures HeldSince(events, c.at, t, c.node, c.given.device, c.volume) <==>
            c.accepted && !c.waited && forall x :: x in calls && x != c ==> !EndsFor(x, c, t)
  {
    var d := c.given.device;
    assert Grants(events[c.at], c.node, d, c.volume);
    forall x | x in calls && EndsFor(x, c, t) ensures !HeldSince(events, c.at, t, c.node, d, c.volume) {
      EndedIsOver(states, events, c.at, x.ended.value, t, c.node, d, c.volume);
    }
    assert Ends(c) ==> EndsFor(c, c, t);
    if !HeldSince(events, c.at, t, c.node, d, c.volume) {
      var u :| c.at < u < t && Releases(events[u], c.node, d, c.volume);
      var x :| x in calls && x.ended == Some(u);
      assert EndsFor(x, c, t);
    }
  }

  /** So a call that is alone with its volume leaves its entry behind exactly when waiting failed: the
      entry is then in flight at every later time. */
  lemma AloneOutlivesExactly(states: seq<Shared>, events: seq<Event>, calls: set<Call>, c: Call, t: nat)
    requires Run(states, events) && MadeBy(events, calls)
    requires c in calls && c.AttachDisk? && c.given.Assigned?
    requires c.at < t <= |events| && (c.ended.Some? ==> c.ended.value < t)
    requires forall x :: x in calls && x != c ==> x.node != c.node || x.volume != c.volume
    ensures HeldSince(events, c.at, t, c.node, c.given.device, c.volume) <==> c.accepted && !c.waited
    ensures c.accepted && !c.waited ==> Holds(states[t], c.node, c.given.device, c.volume)
  {
    OutlivesExactly(states, events, calls, c, t);
    InFlightExactly(states, events, t, c.node, c.given.device, c.volume);
  }
}
