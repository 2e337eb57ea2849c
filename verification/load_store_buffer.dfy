/** The load/store buffer: one entry per memory instruction in flight, in issue order, and the
    address-disambiguation checks that keep loads and stores to overlapping bytes in order. */
module LoadStoreBuffers {
  import opened Wrappers
  import opened Opcodes
  import opened Instructions
  import opened Stations
  import opened JavaInt

  const LOAD_STORE_BUFFER_SIZE: int := 4

  datatype Access = LoadAccess | StoreAccess

  /** One entry. `kind` is absent for an instruction that is neither load nor store. */
  datatype Entry = Entry(
    station: StationId,
    kind: Option<Access>,
    address: int,
    addressValid: bool,
    value: int,
    issueCycle: int,
    cycles: int,
    size: int,
    completed: bool,
    loadData: Option<seq<JavaInt.Byte>>)

  datatype Buffer = Buffer(entries: seq<Entry>, maxSize: int)

  function New(maxSize: int): (b: Buffer)
    ensures IsEmpty(b) && b.maxSize == maxSize
  {
    Buffer([], maxSize)
  }

  predicate IsFull(b: Buffer) { |b.entries| >= b.maxSize }

  predicate IsEmpty(b: Buffer) { |b.entries| == 0 }

  /** `getSizeForInstruction`: doubles and 64-bit integers move eight bytes, singles and words four. */
  function AccessSize(op: Opcode): (r: int)
    ensures CategoryOf(op) == Load || CategoryOf(op) == Store ==> r == 4 || r == 8
    ensures !(CategoryOf(op) == Load || CategoryOf(op) == Store) ==> r == 0
  {
    match op
    case L_D | S_D | LD | SD => 8
    case L_S | S_S | LW | SW => 4
    case _ => 0
  }

  function KindOf(op: Opcode): Option<Access> {
    match CategoryOf(op)
    case Load => Some(LoadAccess)
    case Store => Some(StoreAccess)
    case _ => None
  }

  /** `reserveEntry` (at issue): an entry whose address is not yet known, appended without any
      capacity check. */
  function ReserveEntry(b: Buffer, inst: Instruction, station: StationId): (r: Buffer)
    ensures r.maxSize == b.maxSize && |r.entries| == |b.entries| + 1
    ensures r.entries[..|b.entries|] == b.entries
    ensures var e := r.entries[|b.entries|];
      && e.station == station && e.kind == KindOf(inst.op) && !e.addressValid && !e.completed
      && e.issueCycle == inst.issueCycle && e.size == AccessSize(inst.op) && e.loadData.None?
  {
    b.(entries := b.entries + [Entry(station, KindOf(inst.op), 0, false, 0, inst.issueCycle, 0, AccessSize(inst.op), false, None)])
  }

  /** `getEntryByStation`: the first entry belonging to the station. */
  function EntryOf(b: Buffer, station: StationId): (r: Option<nat>)
    ensures r.Some? ==> r.value < |b.entries| && b.entries[r.value].station == station
    ensures r.Some? ==> forall i :: 0 <= i < r.value ==> b.entries[i].station != station
    ensures r.None? ==> forall i :: 0 <= i < |b.entries| ==> b.entries[i].station != station
  {
    EntryFrom(b.entries, station, 0)
  }

  function EntryFrom(entries: seq<Entry>, station: StationId, i: nat): (r: Option<nat>)
    requires i <= |entries|
    ensures r.Some? ==> i <= r.value < |entries| && entries[r.value].station == station
    ensures r.Some? ==> forall k :: i <= k < r.value ==> entries[k].station != station
    ensures r.None? ==> forall k :: i <= k < |entries| ==> entries[k].station != station
    decreases |entries| - i
  {
    if i == |entries| then None
    else if entries[i].station == station then Some(i)
    else EntryFrom(entries, station, i + 1)
  }

  /** `updateLoadAddress`: the station's entry learns its address; absent when it has none. */
  function UpdateLoadAddress(b: Buffer, station: StationId, address: int): (out: (Buffer, Option<nat>))
    ensures out.1 == EntryOf(b, station)
    ensures out.1.None? ==> out.0 == b
    ensures out.1.Some? ==> out.0 == b.(entries := b.entries[out.1.value := b.entries[out.1.value].(address := address, addressValid := true)])
  {
    match EntryOf(b, station)
    case None => (b, None)
    case Some(i) => (b.(entries := b.entries[i := b.entries[i].(address := address, addressValid := true)]), Some(i))
  }

  /** `updateStoreAddressAndValue`: as for a load, and the value to be stored is recorded too. */
  function UpdateStoreAddressAndValue(b: Buffer, station: StationId, address: int, value: int): (out: (Buffer, Option<nat>))
    ensures out.1 == EntryOf(b, station)
    ensures out.1.None? ==> out.0 == b
    ensures out.1.Some? ==> out.0 == b.(entries := b.entries[out.1.value := b.entries[out.1.value].(address := address, value := value, addressValid := true)])
  {
    match EntryOf(b, station)
    case None => (b, None)
    case Some(i) => (b.(entries := b.entries[i := b.entries[i].(address := address, value := value, addressValid := true)]), Some(i))
  }

  /** `addLoad`: refused when full; otherwise a load entry with a known address is appended. */
  function AddLoad(b: Buffer, inst: Instruction, address: int, station: StationId): (out: (Buffer, Option<nat>))
    ensures IsFull(b) <==> out.1.None?
    ensures out.1.None? ==> out.0 == b
    ensures out.1.Some? ==>
      && out.1.value == |b.entries|
      && out.0 == b.(entries := b.entries + [Entry(station, Some(LoadAccess), address, true, 0, inst.issueCycle, 0, AccessSize(inst.op), false, None)])
  {
    if IsFull(b) then (b, None)
    else (b.(entries := b.entries + [Entry(station, Some(LoadAccess), address, true, 0, inst.issueCycle, 0, AccessSize(inst.op), false, None)]), Some(|b.entries|))
  }

  /** `addStore`: refused when full; otherwise a store entry with a known address and value is appended. */
  function AddStore(b: Buffer, inst: Instruction, address: int, station: StationId, value: int): (out: (Buffer, Option<nat>))
    ensures IsFull(b) <==> out.1.None?
    ensures out.1.None? ==> out.0 == b
    ensures out.1.Some? ==>
      && out.1.value == |b.entries|
      && out.0 == b.(entries := b.entries + [Entry(station, Some(StoreAccess), address, true, value, inst.issueCycle, 0, AccessSize(inst.op), false, None)])
  {
    if IsFull(b) then (b, None)
    else (b.(entries := b.entries + [Entry(station, Some(StoreAccess), address, true, value, inst.issueCycle, 0, AccessSize(inst.op), false, None)]), Some(|b.entries|))
  }

  /** `removeEntry`: that entry leaves; the others keep their order. */
  function RemoveAt(b: Buffer, i: nat): (r: Buffer)
    requires i < |b.entries|
    ensures r.maxSize == b.maxSize && |r.entries| == |b.entries| - 1
    ensures forall k :: 0 <= k < |r.entries| ==> r.entries[k] == b.entries[if k < i then k else k + 1]
  {
    b.(entries := b.entries[..i] + b.entries[i + 1..])
  }

  /** The overlap test both checks write out: four cases over the two byte ranges. */
  predicate Overlaps(checkStart: int, checkEnd: int, entryStart: int, entryEnd: int) {
    || (checkStart >= entryStart && checkStart < entryEnd)
    || (checkEnd > entryStart && checkEnd <= entryEnd)
    || (checkStart <= entryStart && checkEnd >= entryEnd)
    || (entryStart >= checkStart && entryStart < checkEnd)
  }

  /** For accesses of at least one byte the four cases are exactly "the half-open byte ranges intersect". */
  lemma OverlapsIsIntersection(address: int, size: int, entryAddress: int, entrySize: int)
    requires size > 0 && entrySize > 0
    ensures Overlaps(address, address + size, entryAddress, entryAddress + entrySize)
        <==> address < entryAddress + entrySize && entryAddress < address + size
  {}

  /** The overlap test as the source evaluates it: each range's end is a 32-bit `int` sum. */
  predicate OverlapsEntry(address: int, size: int, e: Entry) {
    Overlaps(address, Wrap32(address + size), e.address, Wrap32(e.address + e.size))
  }

  /** Whether an earlier, still incomplete entry stands in the way of an access of the given kind:
      an unknown address blocks a store always and a load only when it belongs to a store;
      a known address blocks when the byte ranges overlap. */
  predicate Blocks(e: Entry, address: int, size: int, kind: Access) {
    && !e.completed
    && if !e.addressValid then kind == StoreAccess || e.kind == Some(StoreAccess)
       else OverlapsEntry(address, size, e)
  }

  /** `hasAddressClashAtIssue`: some entry issued strictly before `issueCycle` blocks the access. */
  function HasAddressClashAtIssue(b: Buffer, address: int, size: int, kind: Access, issueCycle: int): (r: bool)
    ensures r <==> exists i :: 0 <= i < |b.entries| && b.entries[i].issueCycle < issueCycle && Blocks(b.entries[i], address, size, kind)
  {
    ScanAtIssue(b.entries, address, size, kind, issueCycle, 0)
  }

  /** The source's loop from position `i`: skip later entries and completed ones, decide on the first
      blocking entry. */
  function ScanAtIssue(entries: seq<Entry>, address: int, size: int, kind: Access, issueCycle: int, i: nat): (r: bool)
    requires i <= |entries|
    ensures r <==> exists k :: i <= k < |entries| && entries[k].issueCycle < issueCycle && Blocks(entries[k], address, size, kind)
    decreases |entries| - i
  {
    if i == |entries| then false
    else
      var e := entries[i];
      if e.issueCycle >= issueCycle then ScanAtIssue(entries, address, size, kind, issueCycle, i + 1)
      else if e.completed then ScanAtIssue(entries, address, size, kind, issueCycle, i + 1)
      else if !e.addressValid then
        if kind == StoreAccess then true
        else if e.kind == Some(StoreAccess) then true
        else ScanAtIssue(entries, address, size, kind, issueCycle, i + 1)
      else if OverlapsEntry(address, size, e) then true
      else ScanAtIssue(entries, address, size, kind, issueCycle, i + 1)
  }

  /** `hasAddressClash` for the entry at `self`: some other entry issued no later blocks the access. */
  function HasAddressClash(b: Buffer, address: int, size: int, self: nat, kind: Access): (r: bool)
    requires self < |b.entries|
    ensures r <==> (exists i :: 0 <= i < |b.entries| && i != self &&
                     b.entries[i].issueCycle <= b.entries[self].issueCycle && Blocks(b.entries[i], address, size, kind))
  {
    ScanExcluding(b.entries, address, size, self, kind, 0)
  }

  function ScanExcluding(entries: seq<Entry>, address: int, size: int, self: nat, kind: Access, i: nat): (r: bool)
    requires self < |entries| && i <= |entries|
    ensures r <==> (exists k :: i <= k < |entries| && k != self &&
                     entries[k].issueCycle <= entries[self].issueCycle && Blocks(entries[k], address, size, kind))
    decreases |entries| - i
  {
    if i == |entries| then false
    else
      var e := entries[i];
      if i == self then ScanExcluding(entries, address, size, self, kind, i + 1)
      else if e.issueCycle > entries[self].issueCycle then ScanExcluding(entries, address, size, self, kind, i + 1)
      else if e.completed then ScanExcluding(entries, address, size, self, kind, i + 1)
      else if !e.addressValid then
        if kind == StoreAccess then true
        else if e.kind == Some(StoreAccess) then true
        else ScanExcluding(entries, address, size, self, kind, i + 1)
      else if OverlapsEntry(address, size, e) then true
      else ScanExcluding(entries, address, size, self, kind, i + 1)
  }

  /** When the issue-time check lets an access through, every earlier incomplete entry either is
      a load of unknown address while the access is a load, or has a known range disjoint from
      the access, unless one of the two range ends does not fit in an `int`. */
  lemma {:induction false} NoClashAtIssueMeansSafe(b: Buffer, address: int, size: int, kind: Access, issueCycle: int)
    requires size > 0 && !HasAddressClashAtIssue(b, address, size, kind, issueCycle)
    ensures forall i :: 0 <= i < |b.entries| && b.entries[i].issueCycle < issueCycle && !b.entries[i].completed ==>
      var e := b.entries[i];
      if e.addressValid then
        || e.size <= 0 || !IsInt32(address + size) || !IsInt32(e.address + e.size)
        || address + size <= e.address || e.address + e.size <= address
      else kind == LoadAccess && e.kind != Some(StoreAccess)
  {
    forall i | 0 <= i < |b.entries| && b.entries[i].issueCycle < issueCycle && !b.entries[i].completed
      ensures var e := b.entries[i];
        if e.addressValid then
          || e.size <= 0 || !IsInt32(address + size) || !IsInt32(e.address + e.size)
          || address + size <= e.address || e.address + e.size <= address
        else kind == LoadAccess && e.kind != Some(StoreAccess)
    {
      var e := b.entries[i];
      assert !Blocks(e, address, size, kind);
      if e.addressValid && e.size > 0 && IsInt32(address + size) && IsInt32(e.address + e.size) {
        OverlapsIsIntersection(address, size, e.address, e.size);
      }
    }
  }

  /** Near `INT_MAX` the wrapped ends hide a real overlap: an unfinished store of 8 bytes at
      2147483644 does not hold back a 4-byte load at 2147483646, although both cover the bytes
      from 2147483646 on. */
  lemma WrappedEndsHideOverlap(e: Entry)
    requires e.addressValid && !e.completed && e.kind == Some(StoreAccess)
    requires e.address == 2147483644 && e.size == 8
    ensures !Blocks(e, 2147483646, 4, LoadAccess)
    ensures 2147483646 < e.address + e.size && e.address < 2147483646 + 4
  {
    WrapAbove(e.address + e.size);
    WrapAbove(2147483646 + 4);
  }

  /** `decrementCycles` of an entry. */
  function DecrementCycles(e: Entry): (r: Entry)
    ensures r == e.(cycles := r.cycles)
    ensures r.cycles == if e.cycles > 0 then e.cycles - 1 else e.cycles
  {
    if e.cycles > 0 then e.(cycles := e.cycles - 1) else e
  }

  /** `tickLoadStoreBuffer`: every entry counts one cycle down. */
  function Tick(b: Buffer): (r: Buffer)
    ensures r.maxSize == b.maxSize && |r.entries| == |b.entries|
    ensures forall i :: 0 <= i < |b.entries| ==> r.entries[i] == DecrementCycles(b.entries[i])
  {
    b.(entries := seq(|b.entries|, i requires 0 <= i < |b.entries| => DecrementCycles(b.entries[i])))
  }

  /** `reset`: the buffer empties; its capacity stays. */
  function Reset(b: Buffer): (r: Buffer)
    ensures IsEmpty(r) && r.maxSize == b.maxSize
  {
    b.(entries := [])
  }
}
