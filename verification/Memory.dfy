/** The machine's byte-addressed memory: a growing list of allocations, each
    address an allocation's number above 32 bits of offset. */
module Memories {
  import opened Bits

  datatype Allocation = Allocation(bytes: seq<Byte>, freed: bool, fixed: bool)

  datatype Fault = Invalid | OutOfBounds | NotAllocated

  datatype Result<+T> = Ok(value: T) | Err(fault: Fault)

  const Offsets := 0x1_0000_0000
  const Addresses := 0x1_0000_0000_0000_0000

  // ---------------------------------------------------------------
  // what the operations mean
  // ---------------------------------------------------------------

  /** The address of the start of allocation `i`; numbers wrap in 64 bits. */
  function Base(i: nat): nat {
    (i + 1) * Offsets % Addresses
  }

  function Locate(mem: seq<Allocation>, address: nat, len: nat): (r: Result<(nat, nat)>)
    ensures r.Ok? ==> r.value.0 < |mem| && !mem[r.value.0].freed && r.value.1 + len <= |mem[r.value.0].bytes|
  {
    var index, offset := address / Offsets, address % Offsets;
    if index == 0 || index - 1 >= |mem| || mem[index - 1].freed then Err(Invalid)
    else if offset + len > |mem[index - 1].bytes| then Err(OutOfBounds)
    else Ok((index - 1, offset))
  }

  function ReadAt(mem: seq<Allocation>, address: nat, len: nat): Result<seq<Byte>> {
    if len == 0 then Ok([])
    else match Locate(mem, address, len)
      case Err(f) => Err(f)
      case Ok((i, offset)) => Ok(mem[i].bytes[offset..offset + len])
  }

  function Patched(bytes: seq<Byte>, offset: nat, patch: seq<Byte>): (r: seq<Byte>)
    requires offset + |patch| <= |bytes|
    ensures |r| == |bytes|
  {
    bytes[..offset] + patch + bytes[offset + |patch|..]
  }

  datatype Op = Alloc(size: nat, fixed: bool) | Write(address: nat, bytes: seq<Byte>) | Free(address: nat)

  /** The memory after an operation; one that fails changes nothing. */
  function Apply(mem: seq<Allocation>, op: Op): Result<seq<Allocation>> {
    match op
    case Alloc(size, fixed) => Ok(mem + [Allocation(seq(size, _ => 0), false, fixed)])
    case Write(address, bytes) =>
      if bytes == [] then Ok(mem)
      else (match Locate(mem, address, |bytes|)
        case Err(f) => Err(f)
        case Ok((i, offset)) => Ok(mem[i := mem[i].(bytes := Patched(mem[i].bytes, offset, bytes))]))
    case Free(address) =>
      if address == 0 then Ok(mem)
      else match Locate(mem, address, 0)
        case Err(f) => Err(f)
        case Ok((i, offset)) =>
          if offset != 0 || mem[i].fixed then Err(NotAllocated) else Ok(mem[i := mem[i].(freed := true, bytes := [])])
  }

  // ---------------------------------------------------------------
  // the memory
  // ---------------------------------------------------------------

  class Memory {
    var allocations: seq<Allocation>

    constructor ()
      ensures allocations == []
    {
      allocations := [];
    }

    method AllocBlock(size: nat, fixed: bool) returns (address: nat)
      modifies this
      ensures Apply(old(allocations), Alloc(size, fixed)) == Ok(allocations)
      ensures address == Base(|old(allocations)|)
    {
      allocations := allocations + [Allocation(seq(size, _ => 0), false, fixed)];
      address := |allocations| * Offsets % Addresses;
    }

    method Read(address: nat, len: nat) returns (r: Result<seq<Byte>>)
      ensures r == ReadAt(allocations, address, len)
      ensures r.Ok? ==> |r.value| == len
    {
      if len == 0 {
        return Ok([]);
      }
      var at := Locate(allocations, address, len);
      if at.Err? {
        return Err(at.fault);
      }
      var (i, offset) := at.value;
      r := Ok(allocations[i].bytes[offset..offset + len]);
    }

    method WriteBytes(address: nat, bytes: seq<Byte>) returns (r: Result<()>)
      modifies this
      ensures r.Ok? ==> Apply(old(allocations), Write(address, bytes)) == Ok(allocations)
      ensures r.Err? ==> Apply(old(allocations), Write(address, bytes)) == Err(r.fault) && allocations == old(allocations)
      ensures r.Ok? ==> ReadAt(allocations, address, |bytes|) == Ok(bytes)
    {
      if bytes == [] {
        return Ok(());
      }
      var at := Locate(allocations, address, |bytes|);
      if at.Err? {
        return Err(at.fault);
      }
      var (i, offset) := at.value;
      ReadAfterWrite(allocations, address, bytes);
      allocations := allocations[i := allocations[i].(bytes := Patched(allocations[i].bytes, offset, bytes))];
      r := Ok(());
    }

    method ReadU64(address: nat) returns (r: Result<nat>)
      ensures r.Ok? <==> ReadAt(allocations, address, 8).Ok?
      ensures r.Ok? ==> r.value < Addresses && ReadAt(allocations, address, 8) == Ok(ToLe(r.value, 8))
    {
      var bytes := Read(address, 8);
      if bytes.Err? {
        return Err(bytes.fault);
      }
      r := Ok(FromLe(bytes.value));
      FromLeBound(bytes.value);
      BytesRoundTrip(bytes.value);
      Pow2Values();
    }

    method WriteU64(address: nat, value: nat) returns (r: Result<()>)
      requires value < Addresses
      modifies this
      ensures r.Ok? ==> Apply(old(allocations), Write(address, ToLe(value, 8))) == Ok(allocations)
      ensures r.Ok? ==> ReadAt(allocations, address, 8) == Ok(ToLe(value, 8)) && FromLe(ToLe(value, 8)) == value
      ensures r.Err? ==> allocations == old(allocations)
    {
      hide ToLe, FromLe, Apply, ReadAt;
      ValueRoundTrip(value, 8);
      Pow2Values();
      r := WriteBytes(address, ToLe(value, 8));
    }

    method FreeBlock(address: nat) returns (r: Result<()>)
      modifies this
      ensures r.Ok? ==> Apply(old(allocations), Free(address)) == Ok(allocations)
      ensures r.Err? ==> Apply(old(allocations), Free(address)) == Err(r.fault) && allocations == old(allocations)
    {
      if address == 0 {
        return Ok(());
      }
      var at := Locate(allocations, address, 0);
      if at.Err? {
        return Err(at.fault);
      }
      var (i, offset) := at.value;
      if offset != 0 || allocations[i].fixed {
        return Err(NotAllocated);
      }
      allocations := allocations[i := allocations[i].(freed := true, bytes := [])];
      r := Ok(());
    }
  }

  // ---------------------------------------------------------------
  // one access
  // ---------------------------------------------------------------

  /** Below 2^32 allocations, a base plus an offset below 2^32 is an address in
      that allocation. */
  lemma BasePlus(i: nat, offset: nat)
    requires i + 1 < Offsets && offset < Offsets
    ensures Base(i) + offset < Addresses && (Base(i) + offset) / Offsets == i + 1 && (Base(i) + offset) % Offsets == offset
  {
    assert (i + 1) * Offsets < Addresses;
    Quotient((i + 1) * Offsets, Addresses, 0, (i + 1) * Offsets);
    Quotient((i + 1) * Offsets + offset, Offsets, i + 1, offset);
  }

  /** Access through a base reaches exactly the bytes of its allocation: it works
      if and only if the allocation is live and the range lies inside it. */
  lemma AccessInside(mem: seq<Allocation>, i: nat, offset: nat, len: nat)
    requires i < |mem| && i + 1 < Offsets && offset < Offsets && len > 0
    ensures ReadAt(mem, Base(i) + offset, len) ==
      if mem[i].freed then Err(Invalid)
      else if offset + len > |mem[i].bytes| then Err(OutOfBounds)
      else Ok(mem[i].bytes[offset..offset + len])
  {
    BasePlus(i, offset);
  }

  lemma ReadAfterWrite(mem: seq<Allocation>, address: nat, bytes: seq<Byte>)
    ensures Apply(mem, Write(address, bytes)).Ok? ==> ReadAt(Apply(mem, Write(address, bytes)).value, address, |bytes|) == Ok(bytes)
  {
    var at := Locate(mem, address, |bytes|);
    if bytes != [] && at.Ok? {
      var (i, offset) := at.value;
      assert Patched(mem[i].bytes, offset, bytes)[offset..offset + |bytes|] == bytes;
    }
  }

  /** A write leaves every other allocation and every byte outside its range. */
  lemma WriteElsewhere(mem: seq<Allocation>, address: nat, bytes: seq<Byte>, i: nat, k: nat)
    requires Apply(mem, Write(address, bytes)).Ok? && i < |mem| && k < |mem[i].bytes|
    requires !(address / Offsets == i + 1 && address % Offsets <= k < address % Offsets + |bytes|)
    ensures var mem' := Apply(mem, Write(address, bytes)).value;
      |mem'| == |mem| && mem'[i].freed == mem[i].freed && |mem'[i].bytes| == |mem[i].bytes| && mem'[i].bytes[k] == mem[i].bytes[k]
  {
  }

  // ---------------------------------------------------------------
  // whole runs
  // ---------------------------------------------------------------

  /** Runs operations; the machine stops at the first that fails. */
  function Run(mem: seq<Allocation>, ops: seq<Op>): Result<seq<Allocation>>
    decreases |ops|
  {
    if ops == [] then Ok(mem)
    else match Apply(mem, ops[0])
      case Err(f) => Err(f)
      case Ok(mem') => Run(mem', ops[1..])
  }

  /** How an allocation may change: it keeps its kind, stays freed once it is, is
      never freed if it is fixed, and keeps its size while it is live. */
  predicate Ages(a: Allocation, b: Allocation) {
    && b.fixed == a.fixed
    && (a.freed ==> b.freed && b.bytes == a.bytes)
    && (a.fixed && !a.freed ==> !b.freed)
    && (!b.freed ==> |b.bytes| == |a.bytes|)
    && (b.freed && !a.freed ==> b.bytes == [])
  }

  lemma ApplyAges(mem: seq<Allocation>, op: Op, i: nat)
    requires Apply(mem, op).Ok? && i < |mem|
    ensures i < |Apply(mem, op).value| && Ages(mem[i], Apply(mem, op).value[i])
  {
  }

  lemma {:induction false} RunAges(mem: seq<Allocation>, ops: seq<Op>, i: nat)
    requires Run(mem, ops).Ok? && i < |mem|
    ensures i < |Run(mem, ops).value| && Ages(mem[i], Run(mem, ops).value[i])
    decreases |ops|
  {
    hide Apply;
    if ops != [] {
      ApplyAges(mem, ops[0], i);
      RunAges(Apply(mem, ops[0]).value, ops[1..], i);
    }
  }

  /** Whatever runs after it was freed, an allocation is not read, written or
      freed again. */
  lemma FreedForGood(mem: seq<Allocation>, ops: seq<Op>, i: nat, offset: nat, bytes: seq<Byte>)
    requires i < |mem| && i + 1 < Offsets && offset < Offsets && mem[i].freed && Run(mem, ops).Ok? && bytes != []
    ensures var now := Run(mem, ops).value;
      && i < |now| && now[i].freed
      && ReadAt(now, Base(i) + offset, |bytes|) == Err(Invalid)
      && Apply(now, Write(Base(i) + offset, bytes)) == Err(Invalid)
      && Apply(now, Free(Base(i) + offset)) == Err(Invalid)
  {
    RunAges(mem, ops, i);
    BasePlus(i, offset);
    hide Run;
  }

  /** A fixed allocation that is live stays so, with its size. */
  lemma FixedForGood(mem: seq<Allocation>, ops: seq<Op>, i: nat)
    requires i < |mem| && mem[i].fixed && !mem[i].freed && Run(mem, ops).Ok?
    ensures var now := Run(mem, ops).value; i < |now| && !now[i].freed && now[i].fixed && |now[i].bytes| == |mem[i].bytes|
  {
    RunAges(mem, ops, i);
  }

  /** A block is freed exactly by its own base, once, and not if it is fixed. */
  lemma FreeWorks(mem: seq<Allocation>, i: nat, offset: nat)
    requires i < |mem| && i + 1 < Offsets && offset < Offsets && offset <= |mem[i].bytes|
    ensures Apply(mem, Free(Base(i) + offset)).Ok? <==> !mem[i].freed && !mem[i].fixed && offset == 0
    ensures Apply(mem, Free(Base(i) + offset)).Ok? ==>
      Apply(Apply(mem, Free(Base(i) + offset)).value, Free(Base(i) + offset)) == Err(Invalid)
  {
    BasePlus(i, offset);
  }

  /** An address built from an allocation's base and an offset inside it leads back
      there if and only if both fit in 32 bits. After 2^32 - 1 allocations bases
      wrap: the next one's is null, and later ones lead to older allocations. */
  lemma AddressesWrap(mem: seq<Allocation>, i: nat, offset: nat, len: nat)
    requires i < |mem| && !mem[i].freed && offset + len <= |mem[i].bytes|
    ensures Locate(mem, (Base(i) + offset) % Addresses, len) == Ok((i, offset)) <==> i + 1 < Offsets && offset < Offsets
    ensures i + 1 == Offsets ==> Base(i) == 0
  {
    if i + 1 < Offsets && offset < Offsets {
      BasePlus(i, offset);
    }
  }
}
