/** main (global_variable_generator.py:22-282) as a whole: the seven sheets are
    read, the two shelf constants are looked up, the global passes, the HMI
    passes, the sensor pass, the I/O pass and the HMI-internal pass run in that
    order over two tables created empty, and the tables are what the run
    produces. Any exception ends the run before either table is written out. */
module Generator {
  import opened Wrappers
  import opened Cells
  import opened OrderedMaps
  import opened Tables
  import opened Readers
  import opened Addresses
  import opened GlobalPasses
  import opened HmiPasses
  import opened SensorPass
  import opened IoPass
  import opened HmiInternalPass
  import opened Walk

  /** The seven sheets of the workbook (lines 34-40). */
  datatype Workbook = Workbook(
    constants: VarSheet,
    shelf: VarSheet,
    sensorList: SensorListSheet,
    sensorData: VarSheet,
    pump: VarSheet,
    ioMapping: IoSheet,
    hmiInternal: HmiInternalSheet)

  /** What the readers return (lines 43-49). The base address of the Sensor Data
      sheet is read but never used. */
  datatype Sections = Sections(
    constants: VarSection,
    shelves: VarSection,
    sensors: SensorList,
    sensorData: VarSection,
    pumps: VarSection,
    io: OrderedMap<IoDecl>,
    internal: HmiInternalSection)

  /** The two tables main writes out: global_var_table and hmi_tag_table. */
  datatype Output = Output(globalVars: OrderedMap<GlobalRec>, hmiTags: OrderedMap<HmiRec>)

  ghost predicate SectionsValid(s: Sections) {
    && s.constants.decls.Valid()
    && s.shelves.decls.Valid()
    && s.sensorData.decls.Valid()
    && s.pumps.decls.Valid()
    && s.io.Valid()
    && s.internal.decls.Valid()
  }

  // ---- Reading the workbook (lines 43-49) ----

  /** The sheets are read in order, and the first reader that raises ends the run. */
  function SectionsOf(wb: Workbook): (r: Result<Sections>)
    ensures r.Success? ==> SectionsValid(r.value)
    ensures r.Success? <==>
      && VarTableOf(wb.constants).Success? && VarTableOf(wb.shelf).Success?
      && ReadSensorListTable(wb.sensorList).Success? && VarTableOf(wb.sensorData).Success?
      && VarTableOf(wb.pump).Success? && HmiInternalOf(wb.hmiInternal).Success?
  {
    InsertAllValid(Empty<IoDecl>(), IoRows(wb.ioMapping));
    var constants :- VarTableOf(wb.constants);
    var shelves :- VarTableOf(wb.shelf);
    var sensors :- ReadSensorListTable(wb.sensorList);
    var sensorData :- VarTableOf(wb.sensorData);
    var pumps :- VarTableOf(wb.pump);
    var io := InsertAll(Empty(), IoRows(wb.ioMapping));
    var internal :- HmiInternalOf(wb.hmiInternal);
    Success(Sections(constants, shelves, sensors, sensorData, pumps, io, internal))
  }

  method ReadSections(wb: Workbook) returns (r: Result<Sections>)
    ensures r == SectionsOf(wb)
  {
    var constants :- ReadVarTable(wb.constants);
    var shelves :- ReadVarTable(wb.shelf);
    var sensors :- ReadSensorListTable(wb.sensorList);
    var sensorData :- ReadVarTable(wb.sensorData);
    var pumps :- ReadVarTable(wb.pump);
    var io := ReadIoMappingTable(wb.ioMapping);
    var internal :- ReadHmiInternalTable(wb.hmiInternal);
    return Success(Sections(constants, shelves, sensors, sensorData, pumps, io, internal));
  }

  // ---- The global passes (lines 52-91) ----

  /** constants[name]['init_value']; a name that is not defined raises KeyError. */
  function InitValue(decls: OrderedMap<VarDecl>, name: string): (r: Result<Option<Cell>>)
    ensures r.Success? <==> name in decls.values
    ensures r.Failure? ==> r.error == KeyError
  {
    if name in decls.values then Success(decls.values[name].initValue) else Failure(KeyError)
  }

  /** What the later passes take from the global passes: shelf_no, shelf_reg_size
      in tenths (0 when no shelf unit reads it), and the type of the shelf
      declaration last bound to shelf_data (None when the shelf pass bound none). */
  datatype GlobalSettings = GlobalSettings(shelfNo: int, regSize: int, lastShelfType: Option<string>)

  /** The placements of the three global passes. */
  datatype GlobalPlan = GlobalPlan(constants: seq<Placed>, pumps: seq<Placed>, shelves: seq<Placed>, settings: GlobalSettings)

  function GlobalPlanWrites(p: GlobalPlan): seq<GlobalWrite> {
    WritesOf(p.constants) + WritesOf(p.pumps) + WritesOf(p.shelves)
  }

  /** The offsets the HMI passes read are all numeric: those of the constants and
      the pumps, and those of the shelf declarations when a shelf unit exists. */
  ghost predicate Numeric(s: Sections, settings: GlobalSettings)
    requires SectionsValid(s)
  {
    && AllNumericFrom(Entries(s.constants.decls), 0)
    && AllNumericFrom(Entries(s.pumps.decls), 0)
    && (settings.shelfNo >= 1 ==> AllNumericFrom(Entries(s.shelves.decls), 0))
  }

  /** The global passes: both shelf constants are looked up first (so the assert
      on line 56 can never fail), then the constants and the pumps are placed,
      then range(shelf_no) needs an integer, and shelf_reg_size is used only when
      a shelf unit exists. */
  function GlobalPlanOf(s: Sections): (r: Result<GlobalPlan>)
    requires SectionsValid(s)
    ensures r.Success? ==> "shelf_no" in s.constants.decls.values && "shelf_reg_size" in s.constants.decls.values
    ensures r.Success? ==> Numeric(s, r.value.settings)
    ensures r.Success? ==>
      var shelves := Entries(s.shelves.decls);
      r.value.settings.lastShelfType
        == if r.value.settings.shelfNo >= 1 && |shelves| > 0 then Some(shelves[|shelves| - 1].1.typ) else None
  {
    var noCell :- InitValue(s.constants.decls, "shelf_no");
    var regCell :- InitValue(s.constants.decls, "shelf_reg_size");
    var constants := Entries(s.constants.decls);
    var pumps := Entries(s.pumps.decls);
    var shelves := Entries(s.shelves.decls);
    var cs :- ConstantsGlobal(10 * s.constants.baseAddr, constants, 0);
    var ps :- UnitGlobal("", 10 * s.pumps.baseAddr, pumps, 0);
    var shelfNo :- ShelfCount(noCell);
    var regSize :- if shelfNo >= 1 then RegisterTenths(regCell) else Success(0);
    var ss :- ShelvesGlobal(s.shelves.baseAddr, regSize, shelves, 0, shelfNo);
    var last := if shelfNo >= 1 && |shelves| > 0 then Some(shelves[|shelves| - 1].1.typ) else None;
    ConstantsGlobalLayout(10 * s.constants.baseAddr, constants, 0);
    UnitGlobalLayout("", 10 * s.pumps.baseAddr, pumps, 0);
    if shelfNo >= 1 then
      UnitGlobalLayout(ShelfPrefix(0), ShelfStart(s.shelves.baseAddr, regSize, 0), shelves, 0);
      Success(GlobalPlan(cs, ps, ss, GlobalSettings(shelfNo, regSize, last)))
    else
      Success(GlobalPlan(cs, ps, ss, GlobalSettings(shelfNo, regSize, last)))
  }

  /** The global passes of main, in place on the global table. */
  method GlobalStage(g: Table<GlobalRec>, s: Sections) returns (r: Result<GlobalSettings>)
    requires g.Valid() && SectionsValid(s)
    modifies g
    ensures g.Valid()
    ensures r.Success? <==> GlobalPlanOf(s).Success?
    ensures r.Failure? ==> r.error == GlobalPlanOf(s).error
    ensures r.Success? ==> r.value == GlobalPlanOf(s).value.settings
    ensures r.Success? ==> g.Contents() == InsertAll(old(g.Contents()), GlobalPlanWrites(GlobalPlanOf(s).value))
  {
    var noCell :- InitValue(s.constants.decls, "shelf_no");
    var regCell :- InitValue(s.constants.decls, "shelf_reg_size");
    var constants := Entries(s.constants.decls);
    var pumps := Entries(s.pumps.decls);
    var shelves := Entries(s.shelves.decls);
    var c := ConstantsGlobalLoop(g, s.constants.baseAddr, constants);
    if c.Failure? {
      return Failure(c.error);
    }
    ghost var g1 := g.Contents();
    var p := UnitGlobalLoop(g, "", 10 * s.pumps.baseAddr, pumps);
    if p.Failure? {
      return Failure(p.error);
    }
    ghost var g2 := g.Contents();
    var shelfNo :- ShelfCount(noCell);
    var regSize := 0;
    if shelfNo >= 1 {
      regSize :- RegisterTenths(regCell);
    }
    var u := ShelvesGlobalLoop(g, s.shelves.baseAddr, regSize, shelves, shelfNo);
    if u.Failure? {
      return Failure(u.error);
    }
    var last := if shelfNo >= 1 && |shelves| > 0 then Some(shelves[|shelves| - 1].1.typ) else None;
    ghost var plan := GlobalPlanOf(s).value;
    GlobalTableChain(old(g.Contents()), g1, g2, g.Contents(), plan);
    return Success(GlobalSettings(shelfNo, regSize, last));
  }

  /** Writing the three passes one after the other is writing the plan. */
  lemma GlobalTableChain(g0: OrderedMap<GlobalRec>, g1: OrderedMap<GlobalRec>, g2: OrderedMap<GlobalRec>,
                         g3: OrderedMap<GlobalRec>, plan: GlobalPlan)
    requires g1 == InsertAll(g0, WritesOf(plan.constants))
    requires g2 == InsertAll(g1, WritesOf(plan.pumps))
    requires g3 == InsertAll(g2, WritesOf(plan.shelves))
    ensures g3 == InsertAll(g0, GlobalPlanWrites(plan))
  {
    InsertAllAppend(g0, WritesOf(plan.constants), WritesOf(plan.pumps));
    InsertAllAppend(g0, WritesOf(plan.constants) + WritesOf(plan.pumps), WritesOf(plan.shelves));
  }

  // ---- The HMI passes (lines 93-221) ----

  /** The placements of the three HMI passes. */
  datatype HmiPlan = HmiPlan(constants: seq<HmiPlaced>, pumps: seq<HmiPlaced>, shelves: seq<HmiPlaced>)

  function HmiPlanWrites(p: HmiPlan): seq<HmiWrite> {
    HmiWritesOf(p.constants) + HmiWritesOf(p.pumps) + HmiWritesOf(p.shelves)
  }

  /** The HMI passes: the constants and pumps restart at their base addresses, and
      the element type of the last array seen carries over from pass to pass. */
  function HmiPlanOf(s: Sections, settings: GlobalSettings): Result<HmiPlan>
    requires SectionsValid(s) && Numeric(s, settings)
  {
    var kind := ConstantOrPump(settings.lastShelfType);
    var c :- HmiUnit(kind, "", Entries(s.constants.decls), 0, 10 * s.constants.baseAddr, None);
    var p :- HmiUnit(kind, "", Entries(s.pumps.decls), 0, 10 * s.pumps.baseAddr, c.arrayType);
    var sh :- if settings.shelfNo >= 1
              then ShelvesHmi(s.shelves.baseAddr, settings.regSize, Entries(s.shelves.decls), 0, settings.shelfNo, p.arrayType)
              else Success(HmiPass([], p.arrayType));
    Success(HmiPlan(c.placed, p.placed, sh.placed))
  }

  /** The HMI passes of main, in place on the HMI table. */
  method HmiStage(h: Table<HmiRec>, s: Sections, settings: GlobalSettings) returns (r: Result<()>)
    requires h.Valid() && SectionsValid(s) && Numeric(s, settings)
    modifies h
    ensures h.Valid()
    ensures r.Success? <==> HmiPlanOf(s, settings).Success?
    ensures r.Failure? ==> r.error == HmiPlanOf(s, settings).error
    ensures r.Success? ==> h.Contents() == InsertAll(old(h.Contents()), HmiPlanWrites(HmiPlanOf(s, settings).value))
  {
    var kind := ConstantOrPump(settings.lastShelfType);
    var c, cu := HmiUnitLoop(h, kind, "", Entries(s.constants.decls), 10 * s.constants.baseAddr, None);
    if c.Failure? {
      return Failure(c.error);
    }
    ghost var h1 := h.Contents();
    var p, pu := HmiUnitLoop(h, kind, "", Entries(s.pumps.decls), 10 * s.pumps.baseAddr, c.value.1);
    if p.Failure? {
      return Failure(p.error);
    }
    ghost var h2 := h.Contents();
    ghost var shelves: seq<HmiPlaced> := [];
    if settings.shelfNo >= 1 {
      var u := ShelvesHmiLoop(h, s.shelves.baseAddr, settings.regSize, Entries(s.shelves.decls), settings.shelfNo, p.value.1);
      if u.Failure? {
        return Failure(u.error);
      }
      shelves := ShelvesHmi(s.shelves.baseAddr, settings.regSize, Entries(s.shelves.decls), 0, settings.shelfNo, p.value.1).value.placed;
    }
    HmiTableChain(old(h.Contents()), h1, h2, h.Contents(), HmiPlan(cu.placed, pu.placed, shelves));
    return Success(());
  }

  /** Writing the three passes one after the other is writing the plan. */
  lemma HmiTableChain(h0: OrderedMap<HmiRec>, h1: OrderedMap<HmiRec>, h2: OrderedMap<HmiRec>,
                      h3: OrderedMap<HmiRec>, plan: HmiPlan)
    requires h1 == InsertAll(h0, HmiWritesOf(plan.constants))
    requires h2 == InsertAll(h1, HmiWritesOf(plan.pumps))
    requires h3 == InsertAll(h2, HmiWritesOf(plan.shelves))
    ensures h3 == InsertAll(h0, HmiPlanWrites(plan))
  {
    InsertAllAppend(h0, HmiWritesOf(plan.constants), HmiWritesOf(plan.pumps));
    InsertAllAppend(h0, HmiWritesOf(plan.constants) + HmiWritesOf(plan.pumps), HmiWritesOf(plan.shelves));
  }

  // ---- The whole run ----

  /** The writes main issues to each table after the offset passes: the sensor
      fields, then the I/O points, then (HMI table only) the HMI's own variables. */
  function GlobalTail(s: Sections, settings: GlobalSettings): seq<GlobalWrite>
    requires SectionsValid(s)
  {
    SensorGlobalWrites(s.sensors.baseAddr, 1, SensorFields(settings.shelfNo, s.sensors, Entries(s.sensorData.decls)))
    + IoGlobalWrites(Entries(s.io))
  }

  function HmiTail(s: Sections, settings: GlobalSettings, internal: seq<InternalPlaced>): seq<HmiWrite>
    requires SectionsValid(s)
  {
    SensorHmiWrites(s.sensors.baseAddr, 1, SensorFields(settings.shelfNo, s.sensors, Entries(s.sensorData.decls)))
    + IoHmiWrites(Entries(s.io))
    + InternalWritesOf(internal)
  }

  /** The tables a run of main produces from a workbook, or the exception it raises. */
  function GenerateSpec(wb: Workbook): (r: Result<Output>)
    ensures r.Success? ==> r.value.globalVars.Valid() && r.value.hmiTags.Valid()
  {
    var s :- SectionsOf(wb);
    var gp :- GlobalPlanOf(s);
    var hp :- HmiPlanOf(s, gp.settings);
    var ip :- InternalPass(s.internal.baseAddr, Entries(s.internal.decls), 0);
    var gw := GlobalPlanWrites(gp) + GlobalTail(s, gp.settings);
    var hw := HmiPlanWrites(hp) + HmiTail(s, gp.settings, ip);
    InsertAllValid(Empty<GlobalRec>(), gw);
    InsertAllValid(Empty<HmiRec>(), hw);
    Success(Output(InsertAll(Empty(), gw), InsertAll(Empty(), hw)))
  }

  /** main: read the workbook, fill both tables in place pass by pass, and hand
      back the tables it would write out. */
  method Generate(wb: Workbook) returns (r: Result<Output>)
    ensures r.Success? <==> GenerateSpec(wb).Success?
    ensures r.Failure? ==> r.error == GenerateSpec(wb).error
    ensures r.Success? ==> r.value == GenerateSpec(wb).value
  {
    var s :- ReadSections(wb);
    var g := new Table<GlobalRec>();
    var h := new Table<HmiRec>();
    var settings :- GlobalStage(g, s);
    var hr := HmiStage(h, s, settings);
    if hr.Failure? {
      return Failure(hr.error);
    }
    var tr := TailStage(g, h, s, settings);
    if tr.Failure? {
      return Failure(tr.error);
    }
    ghost var gp := GlobalPlanOf(s).value;
    ghost var hp := HmiPlanOf(s, settings).value;
    ghost var ip := InternalPass(s.internal.baseAddr, Entries(s.internal.decls), 0).value;
    InsertAllAppend(Empty(), GlobalPlanWrites(gp), GlobalTail(s, settings));
    InsertAllAppend(Empty(), HmiPlanWrites(hp), HmiTail(s, settings, ip));
    GenerateSpecOf(wb, s, gp, hp, ip);
    return Success(Output(g.Contents(), h.Contents()));
  }

  /** The passes after the HMI address passes (lines 225-282): the sensor fields
      and the I/O points in both tables, then the HMI's own variables, which can
      raise. */
  method TailStage(g: Table<GlobalRec>, h: Table<HmiRec>, s: Sections, settings: GlobalSettings) returns (r: Result<()>)
    requires g.Valid() && h.Valid() && (g as object) != (h as object) && SectionsValid(s)
    modifies g, h
    ensures g.Valid() && h.Valid()
    ensures r.Success? <==> InternalPass(s.internal.baseAddr, Entries(s.internal.decls), 0).Success?
    ensures r.Failure? ==> r.error == InternalPass(s.internal.baseAddr, Entries(s.internal.decls), 0).error
    ensures r.Success? ==> g.Contents() == InsertAll(old(g.Contents()), GlobalTail(s, settings))
    ensures r.Success? ==>
      h.Contents() == InsertAll(old(h.Contents()), HmiTail(s, settings, InternalPass(s.internal.baseAddr, Entries(s.internal.decls), 0).value))
  {
    SensorLoops(g, h, settings.shelfNo, s.sensors, Entries(s.sensorData.decls));
    ghost var g2, h2 := g.Contents(), h.Contents();
    IoLoop(g, h, Entries(s.io));
    ghost var h3 := h.Contents();
    r := InternalLoop(h, s.internal.baseAddr, Entries(s.internal.decls));
    if r.Success? {
      ghost var ip := InternalPass(s.internal.baseAddr, Entries(s.internal.decls), 0).value;
      TailChain(old(g.Contents()), g2, g.Contents(), old(h.Contents()), h2, h3, h.Contents(), s, settings, ip);
    }
  }

  /** When every stage succeeds, the run's tables are the plan writes followed by the tails. */
  lemma GenerateSpecOf(wb: Workbook, s: Sections, gp: GlobalPlan, hp: HmiPlan, ip: seq<InternalPlaced>)
    requires SectionsOf(wb) == Success(s)
    requires GlobalPlanOf(s) == Success(gp)
    requires HmiPlanOf(s, gp.settings) == Success(hp)
    requires InternalPass(s.internal.baseAddr, Entries(s.internal.decls), 0) == Success(ip)
    ensures GenerateSpec(wb)
            == Success(Output(InsertAll(Empty(), GlobalPlanWrites(gp) + GlobalTail(s, gp.settings)),
                              InsertAll(Empty(), HmiPlanWrites(hp) + HmiTail(s, gp.settings, ip))))
  {
  }

  /** Writing the sensor fields, the I/O points and the HMI's own variables one
      after the other is writing the tails. */
  lemma TailChain(g1: OrderedMap<GlobalRec>, g2: OrderedMap<GlobalRec>, g3: OrderedMap<GlobalRec>,
                  h1: OrderedMap<HmiRec>, h2: OrderedMap<HmiRec>, h3: OrderedMap<HmiRec>, h4: OrderedMap<HmiRec>,
                  s: Sections, settings: GlobalSettings, ip: seq<InternalPlaced>)
    requires SectionsValid(s)
    requires var fields := SensorFields(settings.shelfNo, s.sensors, Entries(s.sensorData.decls));
      && g2 == InsertAll(g1, SensorGlobalWrites(s.sensors.baseAddr, 1, fields))
      && h2 == InsertAll(h1, SensorHmiWrites(s.sensors.baseAddr, 1, fields))
    requires IoWritten(g3, h3, g2, h2, Entries(s.io))
    requires h4 == InsertAll(h3, InternalWritesOf(ip))
    ensures g3 == InsertAll(g1, GlobalTail(s, settings))
    ensures h4 == InsertAll(h1, HmiTail(s, settings, ip))
  {
    var fields := SensorFields(settings.shelfNo, s.sensors, Entries(s.sensorData.decls));
    var sg := SensorGlobalWrites(s.sensors.baseAddr, 1, fields);
    var sh := SensorHmiWrites(s.sensors.baseAddr, 1, fields);
    var io := Entries(s.io);
    InsertAllAppend(g1, sg, IoGlobalWrites(io));
    InsertAllAppend(h1, sh, IoHmiWrites(io));
    InsertAllAppend(h1, sh + IoHmiWrites(io), InternalWritesOf(ip));
  }

  // ---- What the tables hold after a run ----

  /** The I/O points are written after every offset and sensor record, so each
      I/O point ends in the global table with its own literal address, type and
      initial value, whatever an earlier pass wrote under that name. */
  lemma IoPointsLast(wb: Workbook, i: nat)
    requires GenerateSpec(wb).Success?
    requires i < |SectionsOf(wb).value.io.keys|
    ensures var io := SectionsOf(wb).value.io;
      var name := io.keys[i];
      var out := GenerateSpec(wb).value.globalVars;
      && name in out.values
      && out.values[name] == GlobalRec(io.values[name].addr, io.values[name].typ, io.values[name].initValue)
  {
    var s := SectionsOf(wb).value;
    var gp := GlobalPlanOf(s).value;
    var items := Entries(s.io);
    var fields := SensorFields(gp.settings.shelfNo, s.sensors, Entries(s.sensorData.decls));
    var before := GlobalPlanWrites(gp) + SensorGlobalWrites(s.sensors.baseAddr, 1, fields);
    var ws := IoGlobalWrites(items);
    assert GlobalPlanWrites(gp) + GlobalTail(s, gp.settings) == before + ws;
    LastWriteOfTail(before, ws, i);
  }

  /** The HMI's own variables are written last, so variable i of the HMI Internal
      sheet ends in the HMI table with its type and the "$" address of its cursor:
      the base plus int(offset) of the variables before it. */
  lemma InternalVariablesLast(wb: Workbook, i: nat)
    requires GenerateSpec(wb).Success?
    requires i < |SectionsOf(wb).value.internal.decls.keys|
    ensures var sec := SectionsOf(wb).value.internal;
      var items := Entries(sec.decls);
      var name := sec.decls.keys[i];
      var typ := sec.decls.values[name].typ;
      var out := GenerateSpec(wb).value.hmiTags;
      && name in out.values
      && out.values[name] == HmiRec(typ, InternalAddress(typ, InternalCursor(sec.baseAddr, items, 0, i)))
  {
    var s := SectionsOf(wb).value;
    var gp := GlobalPlanOf(s).value;
    var hp := HmiPlanOf(s, gp.settings).value;
    var items := Entries(s.internal.decls);
    var ip := InternalPass(s.internal.baseAddr, items, 0).value;
    InternalPlacedAt(s.internal.baseAddr, items, i);
    var fields := SensorFields(gp.settings.shelfNo, s.sensors, Entries(s.sensorData.decls));
    var mid := SensorHmiWrites(s.sensors.baseAddr, 1, fields) + IoHmiWrites(Entries(s.io));
    var ws := InternalWritesOf(ip);
    assert HmiTail(s, gp.settings, ip) == mid + ws;
    assert HmiPlanWrites(hp) + (mid + ws) == (HmiPlanWrites(hp) + mid) + ws;
    InternalNamesDistinct(s.internal.decls, s.internal.baseAddr, ip);
    assert ws[i] == InternalWriteOf(ip[i]);
    LastWriteOfTail(HmiPlanWrites(hp) + mid, ws, i);
  }

  /** The HMI's own variables come from a dict, so the pass writes each name once. */
  lemma InternalNamesDistinct(m: OrderedMap<HmiInternalDecl>, base: int, ip: seq<InternalPlaced>)
    requires m.Valid() && InternalPass(base, Entries(m), 0) == Success(ip)
    ensures forall a, b :: 0 <= a < b < |ip| ==> InternalWritesOf(ip)[a].0 != InternalWritesOf(ip)[b].0
  {
    var items := Entries(m);
    var ws := InternalWritesOf(ip);
    forall a, b | 0 <= a < b < |ip|
      ensures ws[a].0 != ws[b].0
    {
      InternalPlacedAt(base, items, a);
      InternalPlacedAt(base, items, b);
    }
  }

  /** Variable j of a pass that succeeds, as InternalLayout places it. */
  lemma InternalPlacedAt(base: int, items: InternalItems, j: nat)
    requires InternalPass(base, items, 0).Success?
    ensures |InternalPass(base, items, 0).value| == |items|
    ensures j < |items| ==>
      InternalPass(base, items, 0).value[j] == InternalPlaced(items[j].0, items[j].1.typ, InternalCursor(base, items, 0, j))
  {
    InternalLayout(base, items, 0);
  }

  /** In before + ws, where the names of ws are distinct, the i-th write of ws is
      the last write to its name. */
  lemma LastWriteOfTail<V>(before: seq<(string, V)>, ws: seq<(string, V)>, i: nat)
    requires i < |ws|
    requires forall a, b :: 0 <= a < b < |ws| ==> ws[a].0 != ws[b].0
    ensures ws[i].0 in InsertAll(Empty(), before + ws).values
    ensures InsertAll(Empty(), before + ws).values[ws[i].0] == ws[i].1
  {
    var all := before + ws;
    var x := |before| + i;
    forall j | x < j < |all|
      ensures all[j].0 != all[x].0
    {
      assert all[j] == ws[j - |before|];
    }
    InsertAllLastWrite(Empty(), all, x);
  }
}
