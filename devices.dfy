/** The devices of the sx64 emulator (core/device.cpp, devices/memory.cpp): a
    named device that can be switched on and off, and a memory device that
    holds `size` bytes and may be read-only. */
module Devices {
  import opened Words

  /** Which read/write behaviour a device has: the base Device's (reads give 0,
      writes are ignored) or a MemoryDevice's. */
  datatype Kind = Plain | Memory(readOnly: bool)

  /** The byte a memory holds at an address, and 0 outside it. */
  function Load(mem: seq<u8>, address: u64): (v: u64)
    ensures v < 0x100
    ensures address as int < |mem| ==> v == mem[address] as u64
    ensures address as int >= |mem| ==> v == 0
  {
    if address as int < |mem| then mem[address] as u64 else 0
  }

  /** The memory after writing `data` at an address: the low byte of `data`
      lands there if the memory is writable and the address is inside it. */
  function Store(mem: seq<u8>, readOnly: bool, address: u64, data: u64): (m: seq<u8>)
    ensures |m| == |mem|
  {
    if !readOnly && address as int < |mem| then mem[address := Mask8(data)] else mem
  }

  /** A store to writable memory reads back as the low byte of the data. */
  lemma StoreThenLoad(mem: seq<u8>, address: u64, data: u64)
    requires address as int < |mem|
    ensures Load(Store(mem, false, address, data), address) == data % 0x100
  {
  }

  /** A store changes no other address, and a read-only memory not at all. */
  lemma StoreElsewhere(mem: seq<u8>, readOnly: bool, address: u64, data: u64, other: u64)
    requires other != address || readOnly
    ensures Load(Store(mem, readOnly, address, data), other) == Load(mem, other)
  {
  }

  /** Writing the same data twice leaves the memory as writing it once. */
  lemma StoreTwice(mem: seq<u8>, readOnly: bool, address: u64, data: u64)
    ensures Store(Store(mem, readOnly, address, data), readOnly, address, data)
            == Store(mem, readOnly, address, data)
  {
  }

  /** A device's bytes after a write: Store for a memory device, unchanged for
      the base behaviour. */
  function AfterWrite(kind: Kind, mem: seq<u8>, address: u64, data: u64): (m: seq<u8>)
    ensures |m| == |mem|
  {
    if kind.Memory? then Store(mem, kind.readOnly, address, data) else mem
  }

  /** Writing twice is writing once, for every kind of device. */
  lemma AfterWriteTwice(kind: Kind, mem: seq<u8>, address: u64, data: u64)
    ensures AfterWrite(kind, AfterWrite(kind, mem, address, data), address, data)
            == AfterWrite(kind, mem, address, data)
  {
    if kind.Memory? {
      StoreTwice(mem, kind.readOnly, address, data);
    }
  }

  class Device {
    const name: string
    var enabled: bool
    const kind: Kind
    /** The bytes of a memory device; empty for any other device. */
    const memory: array<u8>
    const size: u64

    ghost predicate Valid()
      reads this
    {
      memory.Length == size as int && (kind.Plain? ==> size == 0)
    }

    /** Device(name): a device with the base behaviour, enabled. */
    constructor Base(name: string := "Unnamed Device")
      ensures Valid() && this.name == name && enabled && kind == Plain
      ensures fresh(memory)
    {
      this.name := name;
      enabled := true;
      kind := Plain;
      memory := new u8[0];
      size := 0;
    }

    /** MemoryDevice(name, size, readOnly): `size` zero bytes, enabled. */
    constructor MemoryDevice(name: string, size: u64, readOnly: bool)
      ensures Valid() && this.name == name && enabled && kind == Memory(readOnly)
      ensures this.size == size && fresh(memory)
      ensures forall a :: 0 <= a < memory.Length ==> memory[a] == 0
    {
      this.name := name;
      enabled := true;
      kind := Memory(readOnly);
      memory := new u8[size](_ => 0);
      this.size := size;
    }

    /** A memory device clears every byte; every device is enabled afterwards. */
    method Initialize()
      requires Valid()
      modifies this`enabled, memory
      ensures Valid() && enabled
      ensures kind.Memory? ==> forall a :: 0 <= a < memory.Length ==> memory[a] == 0
      ensures kind.Plain? ==> unchanged(memory)
    {
      if kind.Memory? {
        var i := 0;
        while i < memory.Length
          invariant 0 <= i <= memory.Length
          invariant forall a :: 0 <= a < i ==> memory[a] == 0
        {
          memory[i] := 0;
          i := i + 1;
        }
      }
      enabled := true;
    }

    /** Reset disables the device; a memory device keeps its bytes. */
    method Reset()
      modifies this`enabled
      ensures !enabled
    {
      enabled := false;
    }

    /** The base update does nothing. */
    method Update()
      ensures unchanged(this) && unchanged(memory)
    {
    }

    /** The byte at an address for a memory device (0 past its end), and 0
        for a device with the base behaviour. */
    function Read(address: u64): (v: u64)
      requires Valid()
      reads this, memory
      ensures v < 0x100
      ensures kind.Plain? ==> v == 0
      ensures kind.Memory? ==> v == Load(memory[..], address)
    {
      if kind.Memory? && address < size then memory[address] as u64 else 0
    }

    /** A memory device stores the low byte of `data` when it is writable and
        the address is inside it; otherwise nothing changes. */
    method Write(address: u64, data: u64)
      requires Valid()
      modifies memory
      ensures Valid()
      ensures memory[..] == AfterWrite(kind, old(memory[..]), address, data)
      ensures kind == Memory(false) && address < size ==> Read(address) == data % 0x100
    {
      if kind.Memory? && !kind.readOnly && address < size {
        memory[address] := Mask8(data);
      }
    }

    method GetName() returns (n: string)
      ensures n == name
    {
      return name;
    }

    method IsEnabled() returns (b: bool)
      ensures b == enabled
    {
      return enabled;
    }

    method Enable()
      modifies this`enabled
      ensures enabled
    {
      enabled := true;
    }

    method Disable()
      modifies this`enabled
      ensures !enabled
    {
      enabled := false;
    }
  }
}
