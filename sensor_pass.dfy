/** The sensor pass of main (global_variable_generator.py:225-255): every sensor
    data field of every sensor of every shelf unit, then of every other sensor,
    gets the next sensor address, in both tables. */
module SensorPass {
  import opened Wrappers
  import opened Strings
  import opened OrderedMaps
  import opened Tables
  import opened Readers
  import opened Addresses
  import opened GlobalPasses

  /** "snsr_s{i}_{sensor}_": the name prefix of a shelf sensor's fields. */
  function ShelfSensorPrefix(i: int, sensor: string): string {
    "snsr_s" + IntToString(i) + "_" + sensor + "_"
  }

  /** "snsr_{sensor}_": the name prefix of another sensor's fields. */
  function OtherSensorPrefix(sensor: string): string {
    "snsr_" + sensor + "_"
  }

  /** One sensor's fields: each sensor data declaration under the sensor's prefix. */
  function DataFields(prefix: string, data: Items): (fs: Items)
    ensures |fs| == |data|
    ensures forall j :: 0 <= j < |data| ==> fs[j] == (prefix + data[j].0, data[j].1)
  {
    seq(|data|, j requires 0 <= j < |data| => (prefix + data[j].0, data[j].1))
  }

  /** The fields of the sensors of shelf unit i, sensor by sensor. */
  function ShelfUnitFields(i: int, sensors: seq<string>, data: Items): Items
    decreases |sensors|
  {
    if sensors == [] then []
    else ShelfUnitFields(i, sensors[..|sensors| - 1], data) + DataFields(ShelfSensorPrefix(i, sensors[|sensors| - 1]), data)
  }

  /** The fields of shelf units 0 .. n-1, unit by unit. */
  function ShelfSensorFields(n: nat, sensors: seq<string>, data: Items): Items {
    if n == 0 then []
    else ShelfSensorFields(n - 1, sensors, data) + ShelfUnitFields(n - 1, sensors, data)
  }

  /** The fields of the other sensors, sensor by sensor. */
  function OtherSensorFields(sensors: seq<string>, data: Items): Items
    decreases |sensors|
  {
    if sensors == [] then []
    else OtherSensorFields(sensors[..|sensors| - 1], data) + DataFields(OtherSensorPrefix(sensors[|sensors| - 1]), data)
  }

  /** All sensor fields in the order main visits them; range(shelf_no) is empty
      for a negative shelf_no. */
  function SensorFields(shelfNo: int, sensors: SensorList, data: Items): Items {
    ShelfSensorFields(if shelfNo > 0 then shelfNo else 0, sensors.shelfSensors, data)
    + OtherSensorFields(sensors.otherSensors, data)
  }

  /** "D{}".format(sensor_base_addr + n): the address at counter value n. */
  function SensorAddress(base: int, n: int): string {
    "D" + IntToString(base + n)
  }

  /** The global-table writes of the fields with the counter starting at n:
      field k gets address number n + k. */
  function SensorGlobalWrites(base: int, n: int, fields: Items): (ws: seq<GlobalWrite>)
    ensures |ws| == |fields|
    ensures forall k :: 0 <= k < |fields| ==>
      ws[k] == (fields[k].0, GlobalRec(SensorAddress(base, n + k), fields[k].1.typ, fields[k].1.initValue))
  {
    seq(|fields|, k requires 0 <= k < |fields| =>
      (fields[k].0, GlobalRec(SensorAddress(base, n + k), fields[k].1.typ, fields[k].1.initValue)))
  }

  /** The HMI-table writes of the fields: the same address behind the PLC prefix,
      and the declared type as it stands (no BIT/WORD translation). */
  function SensorHmiWrites(base: int, n: int, fields: Items): (ws: seq<HmiWrite>)
    ensures |ws| == |fields|
    ensures forall k :: 0 <= k < |fields| ==>
      ws[k] == (fields[k].0, HmiRec(fields[k].1.typ, HmiTagPlcName + SensorAddress(base, n + k)))
  {
    seq(|fields|, k requires 0 <= k < |fields| =>
      (fields[k].0, HmiRec(fields[k].1.typ, HmiTagPlcName + SensorAddress(base, n + k))))
  }

  /** Both tables get the same names in the same order, the HMI address is the
      global address behind the PLC prefix, and the HMI type is the declared type. */
  lemma SensorTablesAgree(base: int, n: int, fields: Items, k: nat)
    requires k < |fields|
    ensures var g := SensorGlobalWrites(base, n, fields)[k];
      var h := SensorHmiWrites(base, n, fields)[k];
      g.0 == h.0 && h.1.addr == HmiTagPlcName + g.1.addr && h.1.typ == g.1.typ
  {
  }

  /** Field k's address reads back as sensor_base + n + k, so no two fields share
      an address. */
  lemma SensorAddressesDistinct(base: int, n: int, fields: Items, k1: nat, k2: nat)
    requires k1 < |fields| && k2 < |fields|
    ensures var ws := SensorGlobalWrites(base, n, fields);
      && ParseInt(ws[k1].1.addr[1..]) == Some(base + n + k1)
      && (k1 != k2 ==> ws[k1].1.addr != ws[k2].1.addr)
  {
    SensorAddressReadsBack(base, n + k1);
    SensorAddressReadsBack(base, n + k2);
  }

  lemma SensorAddressReadsBack(base: int, n: int)
    ensures ParseInt(SensorAddress(base, n)[1..]) == Some(base + n)
  {
    var s := IntToString(base + n);
    assert SensorAddress(base, n)[1..] == s;
    ParseIntOfIntToString(base + n);
  }

  /** Shelf unit i holds |sensors| * |data| fields; sensor s's field j sits at
      s * |data| + j. */
  lemma {:induction false} ShelfUnitFieldsAt(i: int, sensors: seq<string>, data: Items, s: nat, j: nat)
    requires s < |sensors| && j < |data|
    ensures var fs := ShelfUnitFields(i, sensors, data);
      && |fs| == |sensors| * |data|
      && s * |data| + j < |fs|
      && fs[s * |data| + j] == (ShelfSensorPrefix(i, sensors[s]) + data[j].0, data[j].1)
    decreases |sensors|
  {
    var m := |sensors| - 1;
    var init := sensors[..m];
    ShelfUnitFieldsLength(i, sensors, data);
    ShelfUnitFieldsLength(i, init, data);
    MulSucc(m, |data|);
    if s < m {
      ShelfUnitFieldsAt(i, init, data, s, j);
      assert init[s] == sensors[s];
    } else {
      assert s * |data| + j == |ShelfUnitFields(i, init, data)| + j;
    }
  }

  lemma {:induction false} ShelfUnitFieldsLength(i: int, sensors: seq<string>, data: Items)
    ensures |ShelfUnitFields(i, sensors, data)| == |sensors| * |data|
    decreases |sensors|
  {
    if sensors != [] {
      ShelfUnitFieldsLength(i, sensors[..|sensors| - 1], data);
      MulSucc(|sensors| - 1, |data|);
    }
  }

  lemma {:induction false} OtherSensorFieldsLength(sensors: seq<string>, data: Items)
    ensures |OtherSensorFields(sensors, data)| == |sensors| * |data|
    decreases |sensors|
  {
    if sensors != [] {
      OtherSensorFieldsLength(sensors[..|sensors| - 1], data);
      MulSucc(|sensors| - 1, |data|);
    }
  }

  lemma {:induction false} ShelfSensorFieldsLength(n: nat, sensors: seq<string>, data: Items)
    ensures |ShelfSensorFields(n, sensors, data)| == n * (|sensors| * |data|)
  {
    if n > 0 {
      ShelfSensorFieldsLength(n - 1, sensors, data);
      ShelfUnitFieldsLength(n - 1, sensors, data);
      MulSucc(n - 1, |sensors| * |data|);
    }
  }

  /** The sensor pass writes max(shelf_no, 0) * |shelf sensors| * |sensor data|
      + |other sensors| * |sensor data| fields. */
  lemma SensorFieldsCount(shelfNo: int, sensors: SensorList, data: Items)
    ensures |SensorFields(shelfNo, sensors, data)|
            == (if shelfNo > 0 then shelfNo else 0) * (|sensors.shelfSensors| * |data|)
               + |sensors.otherSensors| * |data|
  {
    ShelfSensorFieldsLength(if shelfNo > 0 then shelfNo else 0, sensors.shelfSensors, data);
    OtherSensorFieldsLength(sensors.otherSensors, data);
  }

  /** Units 0 .. n-1 are units 0 .. n-2 followed by unit n-1. */
  lemma ShelfSensorFieldsStep(n: nat, sensors: seq<string>, data: Items)
    requires n > 0
    ensures var before := ShelfSensorFields(n - 1, sensors, data);
      && |before| == (n - 1) * (|sensors| * |data|)
      && ShelfSensorFields(n, sensors, data) == before + ShelfUnitFields(n - 1, sensors, data)
  {
    ShelfSensorFieldsLength(n - 1, sensors, data);
  }

  /** Field j of shelf sensor s of unit i sits at i * (|sensors| * |data|) + s * |data| + j,
      named "snsr_s{i}_{sensor}_{field}". */
  lemma {:induction false} ShelfSensorFieldsAt(n: nat, sensors: seq<string>, data: Items, i: nat, s: nat, j: nat)
    requires i < n && s < |sensors| && j < |data|
    ensures 0 <= i * (|sensors| * |data|) + s * |data| + j < |ShelfSensorFields(n, sensors, data)|
    ensures ShelfSensorFields(n, sensors, data)[i * (|sensors| * |data|) + s * |data| + j]
            == (ShelfSensorPrefix(i, sensors[s]) + data[j].0, data[j].1)
  {
    var u := |sensors| * |data|;
    var off := s * |data| + j;
    RowBound(s, |sensors|, j, |data|);
    ShelfSensorFieldsStep(n, sensors, data);
    if i < n - 1 {
      RowBound(i, n - 1, off, u);
      ShelfSensorFieldsAt(n - 1, sensors, data, i, s, j);
      ConcatIndexLeft(ShelfSensorFields(n - 1, sensors, data), ShelfUnitFields(n - 1, sensors, data), i * u + off);
    } else {
      ShelfUnitFieldsAt(n - 1, sensors, data, s, j);
      ConcatAt(ShelfSensorFields(n - 1, sensors, data), ShelfUnitFields(n - 1, sensors, data), i * u + off);
    }
  }

  /** Row a, column b of a table with m rows of d columns lies inside the table. */
  lemma RowBound(a: nat, m: nat, b: nat, d: nat)
    requires a < m && b < d
    ensures 0 <= a * d + b < m * d
  {
    MulSucc(a, d);
    MulMono(a, a, d);
    MulMono(a + 1, m, d);
  }

  // ---- The loops of main ----

  /** Fields written after a, from the counter after a's, get the next addresses. */
  lemma SensorWritesAppend(base: int, n: int, a: Items, b: Items)
    ensures SensorGlobalWrites(base, n, a + b) == SensorGlobalWrites(base, n, a) + SensorGlobalWrites(base, n + |a|, b)
    ensures SensorHmiWrites(base, n, a + b) == SensorHmiWrites(base, n, a) + SensorHmiWrites(base, n + |a|, b)
  {
    assert forall k :: |a| <= k < |a| + |b| ==> (a + b)[k] == b[k - |a|];
  }

  /** Writing the fields of done from counter n, and then those of more from
      counter m = n + |done|, is writing the fields of done + more from n. */
  lemma SensorTableStep(g0: OrderedMap<GlobalRec>, h0: OrderedMap<HmiRec>, base: int, n: int, m: int, done: Items, more: Items)
    requires m == n + |done|
    ensures InsertAll(InsertAll(g0, SensorGlobalWrites(base, n, done)), SensorGlobalWrites(base, m, more))
            == InsertAll(g0, SensorGlobalWrites(base, n, done + more))
    ensures InsertAll(InsertAll(h0, SensorHmiWrites(base, n, done)), SensorHmiWrites(base, m, more))
            == InsertAll(h0, SensorHmiWrites(base, n, done + more))
  {
    SensorWritesAppend(base, n, done, more);
    assert SensorGlobalWrites(base, m, more) == SensorGlobalWrites(base, n + |done|, more);
    assert SensorHmiWrites(base, m, more) == SensorHmiWrites(base, n + |done|, more);
    InsertAllAppend(g0, SensorGlobalWrites(base, n, done), SensorGlobalWrites(base, m, more));
    InsertAllAppend(h0, SensorHmiWrites(base, n, done), SensorHmiWrites(base, m, more));
  }

  /** gc and hc are g0 and h0 after the fields fs were written to both tables
      with the counter starting at n; the counter then stands at next. */
  ghost predicate SensorWritten(gc: OrderedMap<GlobalRec>, hc: OrderedMap<HmiRec>, g0: OrderedMap<GlobalRec>, h0: OrderedMap<HmiRec>,
                                base: int, n: int, next: int, fs: Items)
  {
    && next == n + |fs|
    && gc == InsertAll(g0, SensorGlobalWrites(base, n, fs))
    && hc == InsertAll(h0, SensorHmiWrites(base, n, fs))
  }

  /** Writing done and then more is writing done + more. */
  lemma SensorWrittenChain(g0: OrderedMap<GlobalRec>, h0: OrderedMap<HmiRec>, g1: OrderedMap<GlobalRec>, h1: OrderedMap<HmiRec>,
                           g2: OrderedMap<GlobalRec>, h2: OrderedMap<HmiRec>, base: int, n: int, m: int, next: int, done: Items, more: Items)
    requires SensorWritten(g1, h1, g0, h0, base, n, m, done)
    requires SensorWritten(g2, h2, g1, h1, base, m, next, more)
    ensures SensorWritten(g2, h2, g0, h0, base, n, next, done + more)
  {
    SensorTableStep(g0, h0, base, n, m, done, more);
  }

  /** The innermost loop (lines 228-240, 243-255): every sensor data field of one
      sensor, written to both tables at sensor_base + the counter, which then
      moves by one. */
  method SensorDataLoop(g: Table<GlobalRec>, h: Table<HmiRec>, base: int, prefix: string, data: Items, n: int)
    returns (next: int)
    requires g.Valid() && h.Valid() && (g as object) != (h as object)
    modifies g, h
    ensures g.Valid() && h.Valid()
    ensures SensorWritten(g.Contents(), h.Contents(), old(g.Contents()), old(h.Contents()), base, n, next, DataFields(prefix, data))
  {
    ghost var fs := DataFields(prefix, data);
    next := n;
    var j := 0;
    while j < |data|
      invariant 0 <= j <= |data|
      invariant g.Valid() && h.Valid()
      invariant SensorWritten(g.Contents(), h.Contents(), old(g.Contents()), old(h.Contents()), base, n, next, fs[..j])
    {
      var (varName, d) := data[j];
      var addr := SensorAddress(base, next);
      WriteRecGlobVarTable(g, prefix + varName, addr, d.typ, d.initValue);
      WriteRecHmiTagTable(h, prefix + varName, d.typ, HmiTagPlcName + addr);
      SensorDataStep(old(g.Contents()), old(h.Contents()), base, n, fs, j, next);
      next := next + 1;
      j := j + 1;
    }
    assert fs[..|data|] == fs;
  }

  /** Writing field j at counter c = n + j after fields 0 .. j-1 is writing fields 0 .. j. */
  lemma SensorDataStep(g0: OrderedMap<GlobalRec>, h0: OrderedMap<HmiRec>, base: int, n: int, fs: Items, j: nat, c: int)
    requires j < |fs| && c == n + j
    ensures InsertAll(g0, SensorGlobalWrites(base, n, fs[..j])).Insert(fs[j].0, GlobalRec(SensorAddress(base, c), fs[j].1.typ, fs[j].1.initValue))
            == InsertAll(g0, SensorGlobalWrites(base, n, fs[..j + 1]))
    ensures InsertAll(h0, SensorHmiWrites(base, n, fs[..j])).Insert(fs[j].0, HmiRec(fs[j].1.typ, HmiTagPlcName + SensorAddress(base, c)))
            == InsertAll(h0, SensorHmiWrites(base, n, fs[..j + 1]))
  {
    assert fs[..j + 1] == fs[..j] + [fs[j]];
    SensorWritesAppend(base, n, fs[..j], [fs[j]]);
    var gw := (fs[j].0, GlobalRec(SensorAddress(base, c), fs[j].1.typ, fs[j].1.initValue));
    var hw := (fs[j].0, HmiRec(fs[j].1.typ, HmiTagPlcName + SensorAddress(base, c)));
    assert SensorGlobalWrites(base, n + |fs[..j]|, [fs[j]]) == [gw];
    assert SensorHmiWrites(base, n + |fs[..j]|, [fs[j]]) == [hw];
    InsertAllSnoc(g0, SensorGlobalWrites(base, n, fs[..j]), gw);
    InsertAllSnoc(h0, SensorHmiWrites(base, n, fs[..j]), hw);
  }

  /** The shelf sensor loop of one unit (lines 227-240): every shelf sensor's data
      fields, from counter n on. */
  method ShelfUnitLoop(g: Table<GlobalRec>, h: Table<HmiRec>, base: int, i: int, sensors: seq<string>, data: Items, n: int)
    returns (next: int)
    requires g.Valid() && h.Valid() && (g as object) != (h as object)
    modifies g, h
    ensures g.Valid() && h.Valid()
    ensures SensorWritten(g.Contents(), h.Contents(), old(g.Contents()), old(h.Contents()), base, n, next, ShelfUnitFields(i, sensors, data))
  {
    next := n;
    var s := 0;
    while s < |sensors|
      invariant 0 <= s <= |sensors|
      invariant g.Valid() && h.Valid()
      invariant SensorWritten(g.Contents(), h.Contents(), old(g.Contents()), old(h.Contents()), base, n, next, ShelfUnitFields(i, sensors[..s], data))
    {
      ghost var g1, h1 := g.Contents(), h.Contents();
      var m := next;
      next := SensorDataLoop(g, h, base, ShelfSensorPrefix(i, sensors[s]), data, m);
      SensorWrittenChain(old(g.Contents()), old(h.Contents()), g1, h1, g.Contents(), h.Contents(), base, n, m, next,
                         ShelfUnitFields(i, sensors[..s], data), DataFields(ShelfSensorPrefix(i, sensors[s]), data));
      ShelfUnitFieldsSnoc(i, sensors, data, s);
      s := s + 1;
    }
    assert sensors[..|sensors|] == sensors;
  }

  /** Sensors 0 .. s of unit i are sensors 0 .. s-1 followed by sensor s. */
  lemma ShelfUnitFieldsSnoc(i: int, sensors: seq<string>, data: Items, s: nat)
    requires s < |sensors|
    ensures ShelfUnitFields(i, sensors[..s + 1], data)
            == ShelfUnitFields(i, sensors[..s], data) + DataFields(ShelfSensorPrefix(i, sensors[s]), data)
  {
    assert sensors[..s + 1][..s] == sensors[..s];
  }

  /** The shelf sensor loops (lines 225-240): for every unit i < shelf_no, that
      unit's shelf sensors, from counter n on. */
  method ShelfSensorsLoop(g: Table<GlobalRec>, h: Table<HmiRec>, base: int, shelfNo: int, sensors: seq<string>, data: Items, n: int)
    returns (next: int)
    requires g.Valid() && h.Valid() && (g as object) != (h as object)
    modifies g, h
    ensures g.Valid() && h.Valid()
    ensures SensorWritten(g.Contents(), h.Contents(), old(g.Contents()), old(h.Contents()), base, n, next,
                          ShelfSensorFields(if shelfNo > 0 then shelfNo else 0, sensors, data))
  {
    var units: nat := if shelfNo > 0 then shelfNo else 0;
    next := n;
    var i := 0;
    while i < units
      invariant 0 <= i <= units
      invariant g.Valid() && h.Valid()
      invariant SensorWritten(g.Contents(), h.Contents(), old(g.Contents()), old(h.Contents()), base, n, next, ShelfSensorFields(i, sensors, data))
    {
      next := ShelfSensorsRound(g, h, base, i, sensors, data, n, next, old(g.Contents()), old(h.Contents()));
      i := i + 1;
    }
  }

  /** One round of the unit loop: unit i's shelf sensors after units 0 .. i-1. */
  method ShelfSensorsRound(g: Table<GlobalRec>, h: Table<HmiRec>, base: int, i: nat, sensors: seq<string>, data: Items,
                           n: int, m: int, ghost g0: OrderedMap<GlobalRec>, ghost h0: OrderedMap<HmiRec>)
    returns (next: int)
    requires g.Valid() && h.Valid() && (g as object) != (h as object)
    requires SensorWritten(g.Contents(), h.Contents(), g0, h0, base, n, m, ShelfSensorFields(i, sensors, data))
    modifies g, h
    ensures g.Valid() && h.Valid()
    ensures SensorWritten(g.Contents(), h.Contents(), g0, h0, base, n, next, ShelfSensorFields(i + 1, sensors, data))
  {
    ghost var g1, h1 := g.Contents(), h.Contents();
    next := ShelfUnitLoop(g, h, base, i, sensors, data, m);
    SensorWrittenChain(g0, h0, g1, h1, g.Contents(), h.Contents(), base, n, m, next,
                       ShelfSensorFields(i, sensors, data), ShelfUnitFields(i, sensors, data));
    ShelfSensorFieldsSnoc(i, sensors, data);
  }

  /** Units 0 .. i are units 0 .. i-1 followed by unit i. */
  lemma ShelfSensorFieldsSnoc(i: nat, sensors: seq<string>, data: Items)
    ensures ShelfSensorFields(i + 1, sensors, data) == ShelfSensorFields(i, sensors, data) + ShelfUnitFields(i, sensors, data)
  {
  }

  /** The other sensor loop (lines 242-255): every other sensor's data fields,
      from counter n on. */
  method OtherSensorsLoop(g: Table<GlobalRec>, h: Table<HmiRec>, base: int, sensors: seq<string>, data: Items, n: int)
    returns (next: int)
    requires g.Valid() && h.Valid() && (g as object) != (h as object)
    modifies g, h
    ensures g.Valid() && h.Valid()
    ensures SensorWritten(g.Contents(), h.Contents(), old(g.Contents()), old(h.Contents()), base, n, next, OtherSensorFields(sensors, data))
  {
    next := n;
    var s := 0;
    while s < |sensors|
      invariant 0 <= s <= |sensors|
      invariant g.Valid() && h.Valid()
      invariant SensorWritten(g.Contents(), h.Contents(), old(g.Contents()), old(h.Contents()), base, n, next, OtherSensorFields(sensors[..s], data))
    {
      ghost var g1, h1 := g.Contents(), h.Contents();
      var m := next;
      next := SensorDataLoop(g, h, base, OtherSensorPrefix(sensors[s]), data, m);
      SensorWrittenChain(old(g.Contents()), old(h.Contents()), g1, h1, g.Contents(), h.Contents(), base, n, m, next,
                         OtherSensorFields(sensors[..s], data), DataFields(OtherSensorPrefix(sensors[s]), data));
      assert sensors[..s + 1][..s] == sensors[..s];
      s := s + 1;
    }
    assert sensors[..|sensors|] == sensors;
  }

  /** The whole sensor pass: the counter starts at 1 and runs through the shelf
      sensors' fields and then the other sensors' fields, so field k of
      SensorFields gets sensor_base + 1 + k in both tables. */
  method SensorLoops(g: Table<GlobalRec>, h: Table<HmiRec>, shelfNo: int, sensors: SensorList, data: Items)
    requires g.Valid() && h.Valid() && (g as object) != (h as object)
    modifies g, h
    ensures g.Valid() && h.Valid()
    ensures g.Contents() == InsertAll(old(g.Contents()), SensorGlobalWrites(sensors.baseAddr, 1, SensorFields(shelfNo, sensors, data)))
    ensures h.Contents() == InsertAll(old(h.Contents()), SensorHmiWrites(sensors.baseAddr, 1, SensorFields(shelfNo, sensors, data)))
  {
    var m := ShelfSensorsLoop(g, h, sensors.baseAddr, shelfNo, sensors.shelfSensors, data, 1);
    ghost var g1, h1 := g.Contents(), h.Contents();
    var next := OtherSensorsLoop(g, h, sensors.baseAddr, sensors.otherSensors, data, m);
    SensorWrittenChain(old(g.Contents()), old(h.Contents()), g1, h1, g.Contents(), h.Contents(), sensors.baseAddr, 1, m, next,
                       ShelfSensorFields(if shelfNo > 0 then shelfNo else 0, sensors.shelfSensors, data),
                       OtherSensorFields(sensors.otherSensors, data));
  }
}
