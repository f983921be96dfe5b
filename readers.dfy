/** The section readers (global_variable_generator.py:290-363). A sheet is given
    as its columns, each a sequence of cells; zip() reads as many rows as the
    shortest column has. */
module Readers {
  import opened Wrappers
  import opened Strings
  import opened Cells
  import opened OrderedMaps

  function Min(a: int, b: int): int {
    if a <= b then a else b
  }

  // ---- Constants, Shelf, Sensor Data and Pump sheets (read_var_table) ----

  /** The columns of the sheet; offsets are numeric cells in tenths, a blank cell is None. */
  datatype VarSheet = VarSheet(
    baseAddr: seq<Option<Cell>>,
    variableName: seq<string>,
    addrOffset: seq<Option<int>>,
    typ: seq<string>,
    initValue: seq<Option<Cell>>,
    hmiTag: seq<Option<Cell>>)

  /** One declaration: its offset, its type string, its initial value and whether
      it goes into the HMI table. */
  datatype VarDecl = VarDecl(addrOffset: Option<int>, typ: string, initValue: Option<Cell>, hmiTag: bool)

  /** A section's base address and its declarations in sheet order. */
  datatype VarSection = VarSection(baseAddr: int, decls: OrderedMap<VarDecl>)

  function VarRowCount(sheet: VarSheet): nat {
    Min(Min(Min(|sheet.variableName|, |sheet.addrOffset|), Min(|sheet.typ|, |sheet.initValue|)), |sheet.hmiTag|)
  }

  /** The (name, declaration) pairs the reading loop assigns, in row order. */
  function VarRows(sheet: VarSheet): seq<(string, VarDecl)> {
    var n := VarRowCount(sheet);
    seq(n, i requires 0 <= i < n =>
      (sheet.variableName[i], VarDecl(sheet.addrOffset[i], sheet.typ[i], sheet.initValue[i], sheet.hmiTag[i].Some?)))
  }

  /** The base address: the first cell of the column, 0 when it is "-", otherwise int() of it. */
  function VarBaseAddr(sheet: VarSheet): Result<int> {
    if |sheet.baseAddr| == 0 then Failure(IndexError)
    else if sheet.baseAddr[0] == Some(Text("-")) then Success(0)
    else IntOf(sheet.baseAddr[0])
  }

  /** read_var_table as a value: a dict of the rows, behind the base address. */
  function VarTableOf(sheet: VarSheet): (r: Result<VarSection>)
    ensures r.Success? <==> VarBaseAddr(sheet).Success?
    ensures r.Success? ==> r.value.decls.Valid() && r.value.baseAddr == VarBaseAddr(sheet).value
  {
    InsertAllValid(Empty<VarDecl>(), VarRows(sheet));
    var base :- VarBaseAddr(sheet);
    Success(VarSection(base, InsertAll(Empty(), VarRows(sheet))))
  }

  /** read_var_table */
  method ReadVarTable(sheet: VarSheet) returns (r: Result<VarSection>)
    ensures r == VarTableOf(sheet)
  {
    if |sheet.baseAddr| == 0 {
      return Failure(IndexError);
    }
    var base := 0;
    if sheet.baseAddr[0] != Some(Text("-")) {
      var b := IntOf(sheet.baseAddr[0]);
      if b.Failure? {
        return Failure(b.error);
      }
      base := b.value;
    }
    var rows := VarRows(sheet);
    var d := Empty();
    for i := 0 to VarRowCount(sheet)
      invariant d == InsertAll(Empty(), rows[..i])
    {
      d := d.Insert(sheet.variableName[i],
                    VarDecl(sheet.addrOffset[i], sheet.typ[i], sheet.initValue[i], sheet.hmiTag[i].Some?));
      assert rows[..i + 1][..i] == rows[..i];
    }
    assert rows[..VarRowCount(sheet)] == rows;
    return Success(VarSection(base, d));
  }

  /** What read_var_table returns: base 0 for "-", the declarations keyed by name
      in the order names first occur, each name holding its last row, whose HMI flag
      is set exactly when the row's hmi_tag cell is not blank. */
  lemma {:induction false} VarTableRows(sheet: VarSheet, i: nat)
    requires i < VarRowCount(sheet)
    requires forall j :: i < j < VarRowCount(sheet) ==> sheet.variableName[j] != sheet.variableName[i]
    ensures VarTableOf(sheet).Success? <==> VarBaseAddr(sheet).Success?
    ensures |sheet.baseAddr| > 0 && sheet.baseAddr[0] == Some(Text("-")) ==> VarBaseAddr(sheet) == Success(0)
    ensures VarTableOf(sheet).Success? ==>
      var decls := VarTableOf(sheet).value.decls;
      && decls.Valid()
      && decls.keys == FirstOccurrences([], sheet.variableName[..VarRowCount(sheet)])
      && sheet.variableName[i] in decls.values
      && decls.values[sheet.variableName[i]]
         == VarDecl(sheet.addrOffset[i], sheet.typ[i], sheet.initValue[i], sheet.hmiTag[i].Some?)
      && (decls.values[sheet.variableName[i]].hmiTag <==> sheet.hmiTag[i] != None)
  {
    var rows := VarRows(sheet);
    InsertAllLastWrite(Empty(), rows, i);
    InsertAllValid(Empty(), rows);
    InsertAllKeys(Empty(), rows);
    assert KeysOf(rows) == sheet.variableName[..VarRowCount(sheet)];
  }

  // ---- Sensor List sheet (read_sensor_list_table) ----

  datatype SensorListSheet = SensorListSheet(
    baseAddr: seq<Option<Cell>>,
    shelfSensor: seq<Option<string>>,
    generalSensor: seq<Option<string>>)

  /** The sensor section's base address, the sensors of every shelf unit and the other sensors. */
  datatype SensorList = SensorList(baseAddr: int, shelfSensors: seq<string>, otherSensors: seq<string>)

  /** [x for x in column if not pd.isna(x)] */
  function Present(cells: seq<Option<string>>): seq<string>
    decreases |cells|
  {
    if cells == [] then []
    else Present(cells[..|cells| - 1]) + (if cells[|cells| - 1].Some? then [cells[|cells| - 1].value] else [])
  }

  /** Dropping blanks keeps the order: the sensors of a + b are those of a, then those of b. */
  lemma {:induction false} PresentAppend(a: seq<Option<string>>, b: seq<Option<string>>)
    ensures Present(a + b) == Present(a) + Present(b)
    decreases |b|
  {
    if b == [] {
      assert a + b == a;
    } else {
      assert (a + b)[..|a + b| - 1] == a + b[..|b| - 1];
      PresentAppend(a, b[..|b| - 1]);
    }
  }

  /** Exactly the non-blank cells are kept, and there are as many as non-blank cells. */
  lemma {:induction false} PresentMembers(cells: seq<Option<string>>)
    ensures forall x :: x in Present(cells) <==> Some(x) in cells
    ensures |Present(cells)| == |set i | 0 <= i < |cells| && cells[i].Some?|
    decreases |cells|
  {
    if cells != [] {
      var c := cells[..|cells| - 1];
      PresentMembers(c);
      assert cells == c + [cells[|cells| - 1]];
      var before := set i | 0 <= i < |c| && c[i].Some?;
      var now := set i | 0 <= i < |cells| && cells[i].Some?;
      if cells[|cells| - 1].Some? {
        assert now == before + {|c|};
      } else {
        assert now == before;
      }
    }
  }

  /** read_sensor_list_table: int() of the first base cell (no "-" rule here), then
      the non-blank cells of each sensor column in sheet order. */
  function ReadSensorListTable(sheet: SensorListSheet): (r: Result<SensorList>)
    ensures |sheet.baseAddr| == 0 ==> r == Failure(IndexError)
    ensures |sheet.baseAddr| > 0 && IntOf(sheet.baseAddr[0]).Failure? ==> r == Failure(IntOf(sheet.baseAddr[0]).error)
    ensures r.Success? <==> |sheet.baseAddr| > 0 && IntOf(sheet.baseAddr[0]).Success?
    ensures r.Success? ==> r.value.baseAddr == IntOf(sheet.baseAddr[0]).value
    ensures r.Success? ==> r.value.shelfSensors == Present(sheet.shelfSensor)
    ensures r.Success? ==> r.value.otherSensors == Present(sheet.generalSensor)
  {
    if |sheet.baseAddr| == 0 then Failure(IndexError)
    else
      var base :- IntOf(sheet.baseAddr[0]);
      Success(SensorList(base, Present(sheet.shelfSensor), Present(sheet.generalSensor)))
  }

  // ---- IO Mapping sheet (read_io_mapping_table) ----

  datatype IoSheet = IoSheet(
    variableName: seq<string>,
    addr: seq<string>,
    typ: seq<string>,
    initValue: seq<Option<Cell>>,
    hmiTag: seq<Option<Cell>>)

  /** An I/O point: a literal PLC address instead of an offset. */
  datatype IoDecl = IoDecl(addr: string, typ: string, initValue: Option<Cell>, hmiTag: bool)

  function IoRowCount(sheet: IoSheet): nat {
    Min(Min(Min(|sheet.variableName|, |sheet.addr|), Min(|sheet.typ|, |sheet.initValue|)), |sheet.hmiTag|)
  }

  function IoRows(sheet: IoSheet): seq<(string, IoDecl)> {
    var n := IoRowCount(sheet);
    seq(n, i requires 0 <= i < n =>
      (sheet.variableName[i], IoDecl(sheet.addr[i], sheet.typ[i], sheet.initValue[i], sheet.hmiTag[i].Some?)))
  }

  /** read_io_mapping_table: every row, keyed by name; it never raises. */
  method ReadIoMappingTable(sheet: IoSheet) returns (d: OrderedMap<IoDecl>)
    ensures d == InsertAll(Empty(), IoRows(sheet))
  {
    var rows := IoRows(sheet);
    d := Empty();
    for i := 0 to IoRowCount(sheet)
      invariant d == InsertAll(Empty(), rows[..i])
    {
      d := d.Insert(sheet.variableName[i], IoDecl(sheet.addr[i], sheet.typ[i], sheet.initValue[i], sheet.hmiTag[i].Some?));
      assert rows[..i + 1][..i] == rows[..i];
    }
    assert rows[..IoRowCount(sheet)] == rows;
  }

  /** Each I/O name holds its last row, with the HMI flag set exactly when the cell is not blank. */
  lemma {:induction false} IoTableRows(sheet: IoSheet, i: nat)
    requires i < IoRowCount(sheet)
    requires forall j :: i < j < IoRowCount(sheet) ==> sheet.variableName[j] != sheet.variableName[i]
    ensures var d := InsertAll(Empty(), IoRows(sheet));
      && d.Valid()
      && d.keys == FirstOccurrences([], sheet.variableName[..IoRowCount(sheet)])
      && sheet.variableName[i] in d.values
      && d.values[sheet.variableName[i]] == IoDecl(sheet.addr[i], sheet.typ[i], sheet.initValue[i], sheet.hmiTag[i].Some?)
  {
    var rows := IoRows(sheet);
    InsertAllLastWrite(Empty(), rows, i);
    InsertAllValid(Empty(), rows);
    InsertAllKeys(Empty(), rows);
    assert KeysOf(rows) == sheet.variableName[..IoRowCount(sheet)];
  }

  // ---- HMI Internal sheet (read_hmi_internal_table) ----

  datatype HmiInternalSheet = HmiInternalSheet(
    baseAddr: seq<Option<Cell>>,
    varName: seq<string>,
    addrOffset: seq<Option<int>>,
    varType: seq<string>)

  /** An HMI-internal variable: its offset and its HMI type ("BIT" or "WORD" when valid). */
  datatype HmiInternalDecl = HmiInternalDecl(addrOffset: Option<int>, typ: string)

  datatype HmiInternalSection = HmiInternalSection(baseAddr: int, decls: OrderedMap<HmiInternalDecl>)

  function HmiInternalRowCount(sheet: HmiInternalSheet): nat {
    Min(Min(|sheet.varName|, |sheet.addrOffset|), |sheet.varType|)
  }

  function HmiInternalRows(sheet: HmiInternalSheet): seq<(string, HmiInternalDecl)> {
    var n := HmiInternalRowCount(sheet);
    seq(n, i requires 0 <= i < n => (sheet.varName[i], HmiInternalDecl(sheet.addrOffset[i], sheet.varType[i])))
  }

  /** read_hmi_internal_table as a value: int() of the first base cell (no "-" rule),
      then a dict of the rows. */
  function HmiInternalOf(sheet: HmiInternalSheet): (r: Result<HmiInternalSection>)
    ensures |sheet.baseAddr| == 0 ==> r == Failure(IndexError)
    ensures |sheet.baseAddr| > 0 && IntOf(sheet.baseAddr[0]).Failure? ==> r == Failure(IntOf(sheet.baseAddr[0]).error)
    ensures r.Success? <==> |sheet.baseAddr| > 0 && IntOf(sheet.baseAddr[0]).Success?
    ensures r.Success? ==> r.value.decls.Valid()
    ensures r.Success? ==> r.value.baseAddr == IntOf(sheet.baseAddr[0]).value
    ensures r.Success? ==> r.value.decls == InsertAll(Empty(), HmiInternalRows(sheet))
  {
    InsertAllValid(Empty<HmiInternalDecl>(), HmiInternalRows(sheet));
    if |sheet.baseAddr| == 0 then Failure(IndexError)
    else
      var base :- IntOf(sheet.baseAddr[0]);
      Success(HmiInternalSection(base, InsertAll(Empty(), HmiInternalRows(sheet))))
  }

  /** read_hmi_internal_table: int() of the first base cell, then every row keyed by name. */
  method ReadHmiInternalTable(sheet: HmiInternalSheet) returns (r: Result<HmiInternalSection>)
    ensures r == HmiInternalOf(sheet)
  {
    if |sheet.baseAddr| == 0 {
      return Failure(IndexError);
    }
    var b := IntOf(sheet.baseAddr[0]);
    if b.Failure? {
      return Failure(b.error);
    }
    var rows := HmiInternalRows(sheet);
    var d := Empty();
    for i := 0 to HmiInternalRowCount(sheet)
      invariant d == InsertAll(Empty(), rows[..i])
    {
      d := d.Insert(sheet.varName[i], HmiInternalDecl(sheet.addrOffset[i], sheet.varType[i]));
      assert rows[..i + 1][..i] == rows[..i];
    }
    assert rows[..HmiInternalRowCount(sheet)] == rows;
    return Success(HmiInternalSection(b.value, d));
  }

  /** What read_hmi_internal_table returns: the variables keyed by name in the order
      names first occur, each name holding its last row. */
  lemma {:induction false} HmiInternalTableRows(sheet: HmiInternalSheet, i: nat)
    requires i < HmiInternalRowCount(sheet)
    requires forall j :: i < j < HmiInternalRowCount(sheet) ==> sheet.varName[j] != sheet.varName[i]
    ensures HmiInternalOf(sheet).Success? ==>
      var decls := HmiInternalOf(sheet).value.decls;
      && decls.keys == FirstOccurrences([], sheet.varName[..HmiInternalRowCount(sheet)])
      && sheet.varName[i] in decls.values
      && decls.values[sheet.varName[i]] == HmiInternalDecl(sheet.addrOffset[i], sheet.varType[i])
  {
    var rows := HmiInternalRows(sheet);
    InsertAllLastWrite(Empty(), rows, i);
    InsertAllKeys(Empty(), rows);
    assert KeysOf(rows) == sheet.varName[..HmiInternalRowCount(sheet)];
  }
}
