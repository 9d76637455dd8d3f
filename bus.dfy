/** The system bus of the sx64 emulator (core/bus.cpp): the attached devices in
    attachment order. A read is answered by the first enabled device; a write
    goes to every enabled device. */
module SystemBus {
  import opened Words
  import opened Devices

  class Bus {
    var devices: seq<Device>

    /** The memory arrays of the attached devices. */
    ghost function Memories(): set<array<u8>>
      reads this
    {
      set i | 0 <= i < |devices| :: devices[i].memory
    }

    /** Every device is well formed, and two different devices never share
        their bytes (each MemoryDevice owns its own vector). */
    ghost predicate Valid()
      reads this, devices
    {
      (forall i :: 0 <= i < |devices| ==> devices[i].Valid())
      && (forall i, j :: 0 <= i < |devices| && 0 <= j < |devices| && devices[i] != devices[j] ==>
            devices[i].memory != devices[j].memory)
    }

    constructor ()
      ensures Valid() && devices == []
    {
      devices := [];
    }

    /** The position of the first enabled device, or |devices| if none is. */
    ghost function FirstEnabled(from: nat): (k: nat)
      requires from <= |devices|
      reads this, devices
      ensures from <= k <= |devices|
      ensures forall j :: from <= j < k ==> !devices[j].enabled
      ensures k < |devices| ==> devices[k].enabled
      decreases |devices| - from
    {
      if from == |devices| || devices[from].enabled then from else FirstEnabled(from + 1)
    }

    /** What a read at an address gives: the first enabled device's answer,
        or 0 when no device is enabled. */
    ghost function Peek(address: u64): (v: u64)
      requires Valid()
      reads this, devices, Memories()
      ensures v < 0x100
    {
      ghost var k := FirstEnabled(0);
      if k < |devices| then devices[k].Read(address) else 0
    }

    /** bus.attachDevice: the device goes at the end of the list. */
    method AttachDevice(device: Device)
      requires Valid() && device.Valid()
      requires forall i :: 0 <= i < |devices| && devices[i] != device ==> devices[i].memory != device.memory
      modifies this`devices
      ensures Valid() && devices == old(devices) + [device]
    {
      devices := devices + [device];
    }

    /** The first enabled device answers; with none enabled the read gives 0. */
    method Read(address: u64) returns (v: u64)
      requires Valid()
      ensures v == Peek(address)
      ensures v < 0x100
      ensures (forall i :: 0 <= i < |devices| ==> !devices[i].enabled) ==> v == 0
    {
      var i := 0;
      while i < |devices|
        invariant 0 <= i <= |devices|
        invariant FirstEnabled(i) == FirstEnabled(0)
      {
        if devices[i].enabled {
          return devices[i].Read(address);
        }
        i := i + 1;
      }
      return 0;
    }

    /** Every enabled device takes the write; disabled ones are left alone. A
        device attached twice takes it twice, which changes nothing more. */
    method Write(address: u64, data: u64)
      requires Valid()
      modifies Memories()
      ensures Valid()
      ensures forall d | d in devices ::
                d.memory[..] == if d.enabled then AfterWrite(d.kind, old(d.memory[..]), address, data)
                                else old(d.memory[..])
      ensures var k := FirstEnabled(0);
              k < |devices| && devices[k].kind == Memory(false) && address < devices[k].size ==>
                Peek(address) == data % 0x100
    {
      ghost var seen: set<Device> := {};
      var i := 0;
      while i < |devices|
        invariant 0 <= i <= |devices|
        invariant forall j :: 0 <= j < i ==> devices[j] in seen
        invariant forall d | d in devices ::
                    d.memory[..] == if d.enabled && d in seen then AfterWrite(d.kind, old(d.memory[..]), address, data)
                                    else old(d.memory[..])
      {
        var d := devices[i];
        if d.enabled {
          AfterWriteTwice(d.kind, old(d.memory[..]), address, data);
          WriteTo(d, address, data);
        }
        seen := seen + {d};
        i := i + 1;
      }
      ghost var k := FirstEnabled(0);
      if k < |devices| && devices[k].kind == Memory(false) && address < devices[k].size {
        StoreThenLoad(old(devices[k].memory[..]), address, data);
      }
    }

    /** One attached device takes a write; every other device keeps its bytes. */
    method WriteTo(d: Device, address: u64, data: u64)
      requires Valid() && d in devices
      modifies d.memory
      ensures forall e | e in devices ::
                e.memory[..] == if e == d then AfterWrite(d.kind, old(d.memory[..]), address, data)
                                else old(e.memory[..])
    {
      d.Write(address, data);
      forall e | e in devices && e != d
        ensures e.memory[..] == old(e.memory[..])
      {
        assert e.memory != d.memory;
      }
    }
  }
}
