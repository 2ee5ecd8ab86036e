/** The ring allocator of EBS device names, whose position only moves forward to the next free name. */
module DeviceAllocator {
  import opened Wrappers

  type MountDevice = string

  const LETTERS: nat := 26

  /** ba..bz, ca..cz */
  function DeviceName(i: nat): MountDevice
    requires i < 2 * LETTERS
  {
    [if i < LETTERS then 'b' else 'c', 'a' + (i % LETTERS) as char]
  }

  function DeviceNames(): seq<MountDevice> {
    seq(2 * LETTERS, i requires 0 <= i < 2 * LETTERS => DeviceName(i))
  }

  /** The names are the two-letter ones from ba to bz and from ca to cz, in this order. */
  lemma NamesExactly(d: MountDevice)
    ensures d in DeviceNames() <==> |d| == 2 && (d[0] == 'b' || d[0] == 'c') && 'a' <= d[1] <= 'z'
    ensures DeviceNames()[0] == "ba" && DeviceNames()[25] == "bz"
    ensures DeviceNames()[26] == "ca" && DeviceNames()[51] == "cz"
  {
    if |d| == 2 && (d[0] == 'b' || d[0] == 'c') && 'a' <= d[1] <= 'z' {
      var i := (if d[0] == 'b' then 0 else 26) + (d[1] as int - 'a' as int);
      assert DeviceNames()[i] == DeviceName(i) == d;
    }
  }

  /** The ring position k places after p, for at most one lap. */
  function Forward(n: nat, p: nat, k: nat): nat
    requires p < n && k <= n
    ensures Forward(n, p, k) < n
  {
    if p + k < n then p + k else p + k - n
  }

  /** The k names after position p are all taken. */
  ghost predicate TakenAfter(names: seq<MountDevice>, p: nat, k: nat, existing: set<MountDevice>)
    requires p < |names| && k <= |names|
  {
    forall i :: 1 <= i <= k ==> names[Forward(|names|, p, i)] in existing
  }

  /** GetNext from position last: the first free name after it within one lap, or nothing when
      every name is taken. */
  ghost predicate GetNextStep(names: seq<MountDevice>, last: nat, existing: set<MountDevice>,
                              found: Option<nat>, last': nat)
    requires last < |names|
  {
    match found
    case None => TakenAfter(names, last, |names|, existing) && last' == last
    case Some(q) =>
      && last' == q && q < |names| && names[q] !in existing
      && exists k :: 1 <= k <= |names| && q == Forward(|names|, last, k) && TakenAfter(names, last, k - 1, existing)
  }

  class Allocator {
    const possibleDevices: seq<MountDevice>
    var lastIndex: int

    /** Outside this range GetNext would read out of bounds or never see its starting point again. */
    ghost predicate Valid()
      reads this
    {
      0 <= lastIndex < |possibleDevices| && possibleDevices == DeviceNames()
    }

    constructor (lastIndex: nat)
      requires lastIndex < 2 * LETTERS
      ensures Valid() && this.lastIndex == lastIndex
    {
      var devices: seq<MountDevice> := [];
      for first := 0 to 2
        invariant |devices| == first * LETTERS
        invariant forall i :: 0 <= i < |devices| ==> i < 2 * LETTERS && devices[i] == DeviceName(i)
      {
        for i := 0 to LETTERS
          invariant |devices| == first * LETTERS + i
          invariant forall i :: 0 <= i < |devices| ==> i < 2 * LETTERS && devices[i] == DeviceName(i)
        {
          devices := devices + [[if first == 0 then 'b' else 'c', 'a' + i as char]];
        }
      }
      possibleDevices := devices;
      this.lastIndex := lastIndex;
    }

    /** The loop ends within one lap. */
    method GetNext(existing: set<MountDevice>) returns (device: Option<MountDevice>)
      requires Valid()
      modifies this
      ensures Valid()
      ensures GetNextStep(DeviceNames(), old(lastIndex), existing, if device.Some? then Some(lastIndex) else None,
                lastIndex)
      ensures device.Some? ==> device.value == DeviceNames()[lastIndex]
    {
      var n := |possibleDevices|;
      var foundIndex := lastIndex;
      ghost var k := 0;
      while true
        invariant Valid() && lastIndex == old(lastIndex) && 0 <= k < n
        invariant foundIndex == Forward(n, lastIndex, k)
        invariant TakenAfter(possibleDevices, lastIndex, k, existing)
        decreases n - k
      {
        var candidate;
        candidate, foundIndex := NextDevice(foundIndex + 1);
        k := k + 1;
        assert foundIndex == Forward(n, lastIndex, k);
        if candidate !in existing {
          assert TakenAfter(possibleDevices, lastIndex, k - 1, existing);
          lastIndex := foundIndex;
          return Some(candidate);
        }
        if foundIndex == lastIndex {
          assert k == n;
          return None;
        }
      }
    }

    method NextDevice(nextIndex: int) returns (device: MountDevice, index: int)
      requires Valid() && 0 < nextIndex <= |possibleDevices|
      ensures index == (if nextIndex < |possibleDevices| then nextIndex else 0) && device == possibleDevices[index]
    {
      if nextIndex < |possibleDevices| { return possibleDevices[nextIndex], nextIndex; }
      return possibleDevices[0], 0;
    }
  }

  lemma NamesDistinct(i: nat, j: nat)
    requires i < 2 * LETTERS && j < 2 * LETTERS && DeviceName(i) == DeviceName(j)
    ensures i == j
  {
    assert DeviceName(i)[0] == DeviceName(j)[0] && DeviceName(i)[1] == DeviceName(j)[1];
    assert i % LETTERS == j % LETTERS;
  }

  /** A call fails exactly when every name is taken. */
  lemma FailsIffAllTaken(names: seq<MountDevice>, last: nat, existing: set<MountDevice>, found: Option<nat>, last': nat)
    requires last < |names| && GetNextStep(names, last, existing, found, last')
    ensures found.None? <==> forall i :: 0 <= i < |names| ==> names[i] in existing
  {
    if found.None? {
      forall i | 0 <= i < |names| ensures names[i] in existing {
        var k := if i > last then i - last else i - last + |names|;
        assert i == Forward(|names|, last, k);
      }
    }
  }

  /** How far p lies after x on the ring. */
  function Offset(n: nat, x: nat, p: nat): nat
    requires x < n && p < n
  {
    if p >= x then p - x else p - x + n
  }

  /** While y is free and ahead of the position, a call does not get past it. */
  lemma StopsAtFree(names: seq<MountDevice>, x: nat, y: nat, last: nat, existing: set<MountDevice>,
                    found: Option<nat>, last': nat)
    requires x < |names| && y < |names| && last < |names| && GetNextStep(names, last, existing, found, last')
    requires names[y] !in existing && Offset(|names|, x, last) < Offset(|names|, x, y)
    ensures found.Some? && found.value < |names|
    ensures 0 < Offset(|names|, x, found.value) <= Offset(|names|, x, y)
    ensures found != Some(y) ==> Offset(|names|, x, found.value) < Offset(|names|, x, y)
  {
    var n := |names|;
    var d := Offset(n, x, y) - Offset(n, x, last);
    assert Forward(n, last, d) == y;
    FailsIffAllTaken(names, last, existing, found, last');
    var q := found.value;
    var k :| 1 <= k <= n && q == Forward(n, last, k) && TakenAfter(names, last, k - 1, existing);
    assert k <= d;
  }
}
