/** The reservation station manager: the five station pools in their fixed order, and the
    per-mnemonic latency table. */
module StationPools {
  import opened Wrappers
  import opened JavaInt
  import opened Opcodes
  import opened Instructions
  import opened Stations
  import Text

  const DEFAULT_FP_ADD_SUB_STATIONS: int := 3
  const DEFAULT_FP_MUL_DIV_STATIONS: int := 2
  const DEFAULT_INTEGER_ALU_STATIONS: int := 2
  const DEFAULT_LOAD_STATIONS: int := 2
  const DEFAULT_STORE_STATIONS: int := 2

  /** `stations` is `getAllStations()`: the FP add/sub pool, then FP mul/div, integer, load and
      store pools, each in creation order. A station's category tells which pool it is in. */
  datatype Pool = Pool(stations: seq<Station>, latencies: map<string, int>)

  /** `n` fresh stations named `prefix` + 1, 2, ... (none for a non-positive `n`). */
  function Bank(prefix: string, category: Category, n: int): (r: seq<Station>)
    ensures |r| == Max(n, 0)
    ensures forall i :: 0 <= i < |r| ==> r[i] == New(prefix + Text.NatToString(i + 1), category)
  {
    seq(Max(n, 0), i requires 0 <= i < Max(n, 0) => New(prefix + Text.NatToString(i + 1), category))
  }

  /** `initializeStations`: the pools are replaced by fresh ones of the given sizes. */
  function InitializeStations(p: Pool, fpAddSub: int, fpMulDiv: int, integerAlu: int, load: int, store: int): (r: Pool)
    ensures r.latencies == p.latencies
    ensures forall i :: 0 <= i < |r.stations| ==> !r.stations[i].busy && r.stations[i].held.None?
    ensures CountIn(r.stations, FpAddSub) == Max(fpAddSub, 0)
    ensures CountIn(r.stations, FpMulDiv) == Max(fpMulDiv, 0)
    ensures CountIn(r.stations, IntegerAlu) == Max(integerAlu, 0)
    ensures CountIn(r.stations, Load) == Max(load, 0)
    ensures CountIn(r.stations, Store) == Max(store, 0)
    ensures CountIn(r.stations, Branch) == 0
  {
    var a := Bank("Add", FpAddSub, fpAddSub);
    var m := Bank("Mult", FpMulDiv, fpMulDiv);
    var n := Bank("Int", IntegerAlu, integerAlu);
    var l := Bank("Load", Load, load);
    var s := Bank("Store", Store, store);
    CountBank("Add", FpAddSub, fpAddSub);
    CountBank("Mult", FpMulDiv, fpMulDiv);
    CountBank("Int", IntegerAlu, integerAlu);
    CountBank("Load", Load, load);
    CountBank("Store", Store, store);
    CountAppend(a, m); CountAppend(a + m, n); CountAppend(a + m + n, l); CountAppend(a + m + n + l, s);
    p.(stations := a + m + n + l + s)
  }

  /** How many stations of a category a list holds. */
  function CountIn(stations: seq<Station>, category: Category): nat {
    if |stations| == 0 then 0
    else CountIn(stations[..|stations| - 1], category) + (if stations[|stations| - 1].category == category then 1 else 0)
  }

  lemma {:induction false} CountAppend(a: seq<Station>, b: seq<Station>)
    ensures forall c :: CountIn(a + b, c) == CountIn(a, c) + CountIn(b, c)
    decreases |b|
  {
    if |b| > 0 {
      assert (a + b)[..|a + b| - 1] == a + b[..|b| - 1];
      CountAppend(a, b[..|b| - 1]);
    } else {
      assert a + b == a;
    }
  }

  lemma {:induction false} CountBank(prefix: string, category: Category, n: int)
    ensures forall c :: CountIn(Bank(prefix, category, n), c) == if c == category then Max(n, 0) else 0
    decreases Max(n, 0)
  {
    if n > 0 {
      var b := Bank(prefix, category, n);
      assert b[..|b| - 1] == Bank(prefix, category, n - 1);
      CountBank(prefix, category, n - 1);
    }
  }

  /** The latency table the manager starts with: every mnemonic at its default latency. */
  function DefaultLatencies(): map<string, int> {
    MnemonicsDistinct();
    map op | op in AllOpcodes :: Mnemonic(op) := DefaultLatency(op)
  }

  /** The manager's constructor: the default pool sizes and default latencies. */
  function Initial(): (r: Pool)
    ensures |r.stations| == 11
    ensures forall op :: Latency(r, op) == DefaultLatency(op)
  {
    var p := InitializeStations(Pool([], DefaultLatencies()), DEFAULT_FP_ADD_SUB_STATIONS, DEFAULT_FP_MUL_DIV_STATIONS,
                                DEFAULT_INTEGER_ALU_STATIONS, DEFAULT_LOAD_STATIONS, DEFAULT_STORE_STATIONS);
    DefaultLatencyTable();
    p
  }

  lemma DefaultLatencyTable()
    ensures forall op :: Mnemonic(op) in DefaultLatencies() && DefaultLatencies()[Mnemonic(op)] == DefaultLatency(op)
  {
    forall op
      ensures Mnemonic(op) in DefaultLatencies() && DefaultLatencies()[Mnemonic(op)] == DefaultLatency(op)
    {
      EveryOpcodeListed(op);
      var m := DefaultLatencies();
      assert Mnemonic(op) in m;
      var op' :| op' in AllOpcodes && Mnemonic(op') == Mnemonic(op) && m[Mnemonic(op)] == DefaultLatency(op');
      MnemonicInjective(op, op');
    }
  }

  /** `getInstructionLatency`: the configured latency for the mnemonic, else the opcode's default. */
  function Latency(p: Pool, op: Opcode): int {
    if Mnemonic(op) in p.latencies then p.latencies[Mnemonic(op)] else DefaultLatency(op)
  }

  /** `setInstructionLatency`: only the named mnemonic's latency changes. */
  function SetLatency(p: Pool, mnemonic: string, latency: int): (r: Pool)
    ensures r.stations == p.stations
    ensures forall op :: Latency(r, op) == if Mnemonic(op) == mnemonic then latency else Latency(p, op)
  {
    p.(latencies := p.latencies[mnemonic := latency])
  }

  /** `getStationsForType`: branches share the integer pool. */
  function PoolCategory(op: Opcode): (c: Category)
    ensures c != Branch
  {
    if CategoryOf(op) == Branch then IntegerAlu else CategoryOf(op)
  }

  predicate Serves(s: Station, op: Opcode) { s.category == PoolCategory(op) }

  /** `findAvailableStation`: the first free station of the opcode's pool. */
  function FindAvailable(p: Pool, op: Opcode): (r: Option<StationId>)
    ensures r.Some? ==> r.value < |p.stations| && Serves(p.stations[r.value], op) && !p.stations[r.value].busy
    ensures r.Some? ==> forall i :: 0 <= i < r.value && Serves(p.stations[i], op) ==> p.stations[i].busy
    ensures r.None? ==> forall i :: 0 <= i < |p.stations| && Serves(p.stations[i], op) ==> p.stations[i].busy
  {
    FindFrom(p.stations, op, 0)
  }

  function FindFrom(stations: seq<Station>, op: Opcode, i: nat): (r: Option<StationId>)
    requires i <= |stations|
    ensures r.Some? ==> i <= r.value < |stations| && Serves(stations[r.value], op) && !stations[r.value].busy
    ensures r.Some? ==> forall k :: i <= k < r.value && Serves(stations[k], op) ==> stations[k].busy
    ensures r.None? ==> forall k :: i <= k < |stations| && Serves(stations[k], op) ==> stations[k].busy
    decreases |stations| - i
  {
    if i == |stations| then None
    else if Serves(stations[i], op) && !stations[i].busy then Some(i)
    else FindFrom(stations, op, i + 1)
  }

  /** The forwarding rule of `updateOperands` for one operand. An operand waiting on `producer`
      takes the broadcast value; for the address operand of a load (Vj) or store (Vk) it takes
      the effective address, `(int) value + imm` in 32-bit arithmetic, instead. */
  function Forward(s: Station, o: Operand, producer: StationId, value: int, addressOf: Category): (r: Operand)
    ensures o != Pending(producer) ==> r == o
    ensures o == Pending(producer) && s.category != addressOf ==> r == Ready(value)
    ensures o == Pending(producer) && s.category == addressOf && s.held.Some? ==> r == Ready(EffectiveAddress(value, s.held.value.inst.imm))
    ensures !r.Pending? || r == o
  {
    if o != Pending(producer) then o
    else if s.category != addressOf then Ready(value)
    else match s.held
      case Some(h) => Ready(EffectiveAddress(value, h.inst.imm))
      case None => Empty
  }

  function ForwardStation(s: Station, producer: StationId, value: int): Station {
    s.(j := Forward(s, s.j, producer, value, Load), k := Forward(s, s.k, producer, value, Store))
  }

  /** `updateOperands`: the broadcast of `producer`'s result to every station waiting on it. */
  function UpdateOperands(p: Pool, producer: StationId, value: int): (r: Pool)
    ensures r.latencies == p.latencies && |r.stations| == |p.stations|
    ensures forall i :: 0 <= i < |p.stations| ==>
      r.stations[i] == p.stations[i].(j := r.stations[i].j, k := r.stations[i].k)
    ensures forall i :: 0 <= i < |p.stations| ==>
      r.stations[i].j != Pending(producer) && r.stations[i].k != Pending(producer)
    ensures forall i, t :: 0 <= i < |p.stations| && t != producer ==>
      (r.stations[i].j == Pending(t) <==> p.stations[i].j == Pending(t))
      && (r.stations[i].k == Pending(t) <==> p.stations[i].k == Pending(t))
  {
    p.(stations := seq(|p.stations|, i requires 0 <= i < |p.stations| => ForwardStation(p.stations[i], producer, value)))
  }

  /** `tick`: every busy station with cycles left counts one down. */
  function Tick(p: Pool): (r: Pool)
    ensures r.latencies == p.latencies && |r.stations| == |p.stations|
    ensures forall i :: 0 <= i < |p.stations| ==>
      r.stations[i] == p.stations[i].(cycles := r.stations[i].cycles)
      && r.stations[i].cycles == if p.stations[i].busy && p.stations[i].cycles > 0 then p.stations[i].cycles - 1 else p.stations[i].cycles
  {
    p.(stations := seq(|p.stations|, i requires 0 <= i < |p.stations| =>
         var s := p.stations[i]; if s.busy && s.cycles > 0 then DecrementCycles(s) else s))
  }

  /** `reset`: every station is cleared; the pools keep their sizes and names. */
  function Reset(p: Pool): (r: Pool)
    ensures r.latencies == p.latencies && |r.stations| == |p.stations|
    ensures forall i :: 0 <= i < |p.stations| ==>
      !r.stations[i].busy && r.stations[i].held.None? && r.stations[i].name == p.stations[i].name
      && r.stations[i].category == p.stations[i].category
  {
    p.(stations := seq(|p.stations|, i requires 0 <= i < |p.stations| => Clear(p.stations[i])))
  }
}
