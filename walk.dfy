/** The loops of main (global_variable_generator.py:58-282): each moves its
    cursor step by step and writes into a table in place, and each is proved to
    leave the table as the corresponding pass function describes. A loop that
    raises returns the exception; main then stops, so the table it leaves behind
    does not matter. */
module Walk {
  import opened Wrappers
  import opened Strings
  import opened Cells
  import opened TypeRules
  import opened OrderedMaps
  import opened Tables
  import opened Readers
  import opened Addresses
  import opened GlobalPasses
  import opened HmiPasses

  /** Whether a pass raised, and which exception. */
  function Outcome<T>(r: Result<T>): (o: Result<()>)
    ensures o.Success? <==> r.Success?
    ensures o.Failure? ==> o.error == r.error
  {
    match r
    case Success(_) => Success(())
    case Failure(e) => Failure(e)
  }

  // ---- global table (lines 61-91) ----

  /** After the placements done: the table is t0 with their records written, and
      the whole pass is done followed by the rest of the pass. */
  ghost predicate GlobalSoFar(tc: OrderedMap<GlobalRec>, t0: OrderedMap<GlobalRec>, whole: Result<seq<Placed>>,
                              done: seq<Placed>, rest: Result<seq<Placed>>)
  {
    && whole == Prepend(done, rest)
    && tc == InsertAll(t0, WritesOf(done))
  }

  /** Writing the record of the next placement p moves the loop invariant past it. */
  lemma GlobalPlace(t0: OrderedMap<GlobalRec>, t1: OrderedMap<GlobalRec>, t2: OrderedMap<GlobalRec>,
                    whole: Result<seq<Placed>>, done: seq<Placed>, p: Placed,
                    rest: Result<seq<Placed>>, rest': Result<seq<Placed>>)
    requires GlobalSoFar(t1, t0, whole, done, rest)
    requires rest == Prepend([p], rest')
    requires t2 == t1.Insert(WriteOf(p).0, WriteOf(p).1)
    ensures GlobalSoFar(t2, t0, whole, done + [p], rest')
  {
    PrependTwice(done, [p], rest');
    WritesOfAppend(done, [p]);
    InsertAllSnoc(t0, WritesOf(done), WriteOf(p));
  }

  /** When the rest of the pass raises, the whole pass raises the same way; when
      nothing is left, the whole pass is the placements done. */
  lemma GlobalStop(tc: OrderedMap<GlobalRec>, t0: OrderedMap<GlobalRec>, whole: Result<seq<Placed>>,
                   done: seq<Placed>, rest: Result<seq<Placed>>)
    requires GlobalSoFar(tc, t0, whole, done, rest)
    ensures rest.Failure? ==> whole == rest
    ensures rest == Success([]) ==> whole == Success(done) && tc == InsertAll(t0, WritesOf(done))
  {
    assert done + [] == done;
  }

  /** Constant k, with a non-blank offset, is written at the advanced cursor. */
  lemma ConstantsGlobalStep(t0: OrderedMap<GlobalRec>, t1: OrderedMap<GlobalRec>, t2: OrderedMap<GlobalRec>,
                            whole: Result<seq<Placed>>, done: seq<Placed>, cursor: int, next: int, sec: Items, k: nat)
    requires k < |sec| && sec[k].1.addrOffset.Some?
    requires next == cursor + 10 * TruncTenths(sec[k].1.addrOffset.value)
    requires GlobalSoFar(t1, t0, whole, done, ConstantsGlobal(cursor, sec, k))
    requires t2 == t1.Insert(sec[k].0, GlobalRec(DAddress(next, IsBool(sec[k].1.typ)), sec[k].1.typ, sec[k].1.initValue))
    ensures GlobalSoFar(t2, t0, whole, done + [Placed(sec[k].0, next, sec[k].1)], ConstantsGlobal(next, sec, k + 1))
  {
    var p := Placed(sec[k].0, next, sec[k].1);
    assert ConstantsGlobal(cursor, sec, k) == Prepend([p], ConstantsGlobal(next, sec, k + 1));
    GlobalPlace(t0, t1, t2, whole, done, p, ConstantsGlobal(cursor, sec, k), ConstantsGlobal(next, sec, k + 1));
  }

  /** A blank offset raises ValueError. */
  lemma ConstantsGlobalRaises(tc: OrderedMap<GlobalRec>, t0: OrderedMap<GlobalRec>, whole: Result<seq<Placed>>,
                              done: seq<Placed>, cursor: int, sec: Items, k: nat)
    requires k < |sec| && sec[k].1.addrOffset.None?
    requires GlobalSoFar(tc, t0, whole, done, ConstantsGlobal(cursor, sec, k))
    ensures whole == Failure(ValueError)
  {
    GlobalStop(tc, t0, whole, done, ConstantsGlobal(cursor, sec, k));
  }

  /** The constants loop: the cursor advances by int(offset), then the constant
      takes the address. */
  method ConstantsGlobalLoop(table: Table<GlobalRec>, base: int, sec: Items) returns (r: Result<()>)
    requires table.Valid()
    modifies table
    ensures table.Valid()
    ensures r == Outcome(ConstantsGlobal(10 * base, sec, 0))
    ensures r.Success? ==>
      table.Contents() == InsertAll(old(table.Contents()), WritesOf(ConstantsGlobal(10 * base, sec, 0).value))
  {
    ghost var whole := ConstantsGlobal(10 * base, sec, 0);
    var cursor := 10 * base;
    ghost var done: seq<Placed> := [];
    PrependNothing(done, whole);
    var k := 0;
    while k < |sec|
      invariant 0 <= k <= |sec|
      invariant table.Valid()
      invariant GlobalSoFar(table.Contents(), old(table.Contents()), whole, done, ConstantsGlobal(cursor, sec, k))
    {
      ghost var t1 := table.Contents();
      var (name, d) := sec[k];
      if d.addrOffset.None? {
        ConstantsGlobalRaises(t1, old(table.Contents()), whole, done, cursor, sec, k);
        return Failure(ValueError);
      }
      var next := cursor + 10 * TruncTenths(d.addrOffset.value);
      WriteRecGlobVarTable(table, name, DAddress(next, IsBool(d.typ)), d.typ, d.initValue);
      ConstantsGlobalStep(old(table.Contents()), t1, table.Contents(), whole, done, cursor, next, sec, k);
      done := done + [Placed(name, next, d)];
      cursor := next;
      k := k + 1;
    }
    GlobalStop(table.Contents(), old(table.Contents()), whole, done, ConstantsGlobal(cursor, sec, k));
    return Success(());
  }

  /** Declaration k, with a non-blank offset, is written at the cursor, which then advances. */
  lemma UnitGlobalStep(t0: OrderedMap<GlobalRec>, t1: OrderedMap<GlobalRec>, t2: OrderedMap<GlobalRec>,
                       whole: Result<seq<Placed>>, done: seq<Placed>, prefix: string, cursor: int, next: int, sec: Items, k: nat)
    requires k < |sec| && sec[k].1.addrOffset.Some?
    requires next == cursor + 10 * TruncTenths(sec[k].1.addrOffset.value)
    requires GlobalSoFar(t1, t0, whole, done, UnitGlobal(prefix, cursor, sec, k))
    requires t2 == t1.Insert(prefix + sec[k].0, GlobalRec(DAddress(cursor, IsBool(sec[k].1.typ)), sec[k].1.typ, sec[k].1.initValue))
    ensures GlobalSoFar(t2, t0, whole, done + [Placed(prefix + sec[k].0, cursor, sec[k].1)], UnitGlobal(prefix, next, sec, k + 1))
  {
    var p := Placed(prefix + sec[k].0, cursor, sec[k].1);
    assert UnitGlobal(prefix, cursor, sec, k) == Prepend([p], UnitGlobal(prefix, next, sec, k + 1));
    GlobalPlace(t0, t1, t2, whole, done, p, UnitGlobal(prefix, cursor, sec, k), UnitGlobal(prefix, next, sec, k + 1));
  }

  /** A blank offset raises ValueError before the declaration is written. */
  lemma UnitGlobalRaises(tc: OrderedMap<GlobalRec>, t0: OrderedMap<GlobalRec>, whole: Result<seq<Placed>>,
                         done: seq<Placed>, prefix: string, cursor: int, sec: Items, k: nat)
    requires k < |sec| && sec[k].1.addrOffset.None?
    requires GlobalSoFar(tc, t0, whole, done, UnitGlobal(prefix, cursor, sec, k))
    ensures whole == Failure(ValueError)
  {
    GlobalStop(tc, t0, whole, done, UnitGlobal(prefix, cursor, sec, k));
  }

  /** The pump loop, and the inner loop of one shelf unit: int(offset) is taken
      (a blank offset raises here), the declaration is written at the cursor, and
      the cursor then advances by int(offset). */
  method UnitGlobalLoop(table: Table<GlobalRec>, prefix: string, start: int, sec: Items) returns (r: Result<()>)
    requires table.Valid()
    modifies table
    ensures table.Valid()
    ensures r == Outcome(UnitGlobal(prefix, start, sec, 0))
    ensures r.Success? ==>
      table.Contents() == InsertAll(old(table.Contents()), WritesOf(UnitGlobal(prefix, start, sec, 0).value))
  {
    ghost var whole := UnitGlobal(prefix, start, sec, 0);
    var cursor := start;
    ghost var done: seq<Placed> := [];
    PrependNothing(done, whole);
    var k := 0;
    while k < |sec|
      invariant 0 <= k <= |sec|
      invariant table.Valid()
      invariant GlobalSoFar(table.Contents(), old(table.Contents()), whole, done, UnitGlobal(prefix, cursor, sec, k))
    {
      ghost var t1 := table.Contents();
      var (name, d) := sec[k];
      if d.addrOffset.None? {
        UnitGlobalRaises(t1, old(table.Contents()), whole, done, prefix, cursor, sec, k);
        return Failure(ValueError);
      }
      var next := cursor + 10 * TruncTenths(d.addrOffset.value);
      WriteRecGlobVarTable(table, prefix + name, DAddress(cursor, IsBool(d.typ)), d.typ, d.initValue);
      UnitGlobalStep(old(table.Contents()), t1, table.Contents(), whole, done, prefix, cursor, next, sec, k);
      done := done + [Placed(prefix + name, cursor, d)];
      cursor := next;
      k := k + 1;
    }
    GlobalStop(table.Contents(), old(table.Contents()), whole, done, UnitGlobal(prefix, cursor, sec, k));
    return Success(());
  }

  /** A unit that does not raise is followed by the later units. */
  lemma ShelvesGlobalAfter(shelfBase: int, regSize: int, sec: Items, i: nat, shelfNo: int, us: seq<Placed>)
    requires i < shelfNo
    requires UnitGlobal(ShelfPrefix(i), ShelfStart(shelfBase, regSize, i), sec, 0) == Success(us)
    ensures ShelvesGlobal(shelfBase, regSize, sec, i, shelfNo) == Prepend(us, ShelvesGlobal(shelfBase, regSize, sec, i + 1, shelfNo))
  {
  }

  /** A unit that raises ends the pass with its exception. */
  lemma ShelvesGlobalRaises(shelfBase: int, regSize: int, sec: Items, i: nat, shelfNo: int)
    requires i < shelfNo
    requires UnitGlobal(ShelfPrefix(i), ShelfStart(shelfBase, regSize, i), sec, 0).Failure?
    ensures ShelvesGlobal(shelfBase, regSize, sec, i, shelfNo) == UnitGlobal(ShelfPrefix(i), ShelfStart(shelfBase, regSize, i), sec, 0)
  {
  }

  /** The shelf loop: unit i restarts the cursor at shelf_base + i * shelf_reg_size. */
  method ShelvesGlobalLoop(table: Table<GlobalRec>, shelfBase: int, regSize: int, sec: Items, shelfNo: int)
    returns (r: Result<()>)
    requires table.Valid()
    modifies table
    ensures table.Valid()
    ensures r == Outcome(ShelvesGlobal(shelfBase, regSize, sec, 0, shelfNo))
    ensures r.Success? ==>
      table.Contents() == InsertAll(old(table.Contents()), WritesOf(ShelvesGlobal(shelfBase, regSize, sec, 0, shelfNo).value))
  {
    ghost var done: seq<Placed> := [];
    PrependNothing(done, ShelvesGlobal(shelfBase, regSize, sec, 0, shelfNo));
    var i := 0;
    while i < shelfNo
      invariant 0 <= i
      invariant table.Valid()
      invariant ShelvesGlobal(shelfBase, regSize, sec, 0, shelfNo) == Prepend(done, ShelvesGlobal(shelfBase, regSize, sec, i, shelfNo))
      invariant table.Contents() == InsertAll(old(table.Contents()), WritesOf(done))
      decreases shelfNo - i
    {
      var u := UnitGlobalLoop(table, ShelfPrefix(i), ShelfStart(shelfBase, regSize, i), sec);
      if u.Failure? {
        ShelvesGlobalRaises(shelfBase, regSize, sec, i, shelfNo);
        return u;
      }
      ghost var us := UnitGlobal(ShelfPrefix(i), ShelfStart(shelfBase, regSize, i), sec, 0).value;
      ShelvesGlobalAfter(shelfBase, regSize, sec, i, shelfNo, us);
      PrependTwice(done, us, ShelvesGlobal(shelfBase, regSize, sec, i + 1, shelfNo));
      WritesOfAppend(done, us);
      InsertAllAppend(old(table.Contents()), WritesOf(done), WritesOf(us));
      done := done + us;
      i := i + 1;
    }
    PrependNothing(done, ShelvesGlobal(shelfBase, regSize, sec, i, shelfNo));
    return Success(());
  }

  // ---- HMI table, offset passes (lines 93-221) ----

  /** The cursor and the last array element type after a declaration or a unit. */
  function StepOutcome(r: Result<HmiStep>): (o: Result<(int, Option<string>)>)
    ensures o.Success? <==> r.Success?
    ensures o.Failure? ==> o.error == r.error
    ensures o.Success? ==> o.value == (r.value.cursor, r.value.arrayType)
  {
    match r
    case Success(s) => Success((s.cursor, s.arrayType))
    case Failure(e) => Failure(e)
  }

  /** The placements done, followed by those of r, with r's cursor and array type. */
  function After(done: seq<HmiPlaced>, r: Result<HmiStep>): (r': Result<HmiStep>)
    ensures r'.Success? <==> r.Success?
    ensures r'.Failure? ==> r' == r
    ensures r'.Success? ==> r'.value == HmiStep(done + r.value.placed, r.value.cursor, r.value.arrayType)
  {
    match r
    case Success(s) => Success(HmiStep(done + s.placed, s.cursor, s.arrayType))
    case Failure(e) => Failure(e)
  }

  lemma AfterNothing(r: Result<HmiStep>)
    ensures After([], r) == r
  {
    if r.Success? {
      assert [] + r.value.placed == r.value.placed;
    }
  }

  /** The array branch's inner loop: element j is written at the array cursor,
      which then moves one bit or one word. The offset rule and the tag rule are
      applied to the element type in every round of the source's loop; as they
      give the same answer every time, they are applied once, before the first
      round, which is where the loop raises if it raises at all. */
  method ArrayLoop(table: Table<HmiRec>, name: string, elemType: string, formatType: string,
                   offset: Option<int>, start: int, size: int) returns (r: Result<()>)
    requires table.Valid()
    modifies table
    ensures table.Valid()
    ensures r.Success? <==> ArrayElements(name, elemType, formatType, offset, start, size).Success?
    ensures r.Failure? ==> r.error == ArrayElements(name, elemType, formatType, offset, start, size).error
    ensures r.Success? ==>
      table.Contents() == InsertAll(old(table.Contents()), HmiWritesOf(ArrayElements(name, elemType, formatType, offset, start, size).value))
  {
    if size <= 0 {
      return Success(());
    }
    var step :- CalcAddrOffsetHmiTag(true, elemType, offset);
    var typ := TranslateVarTypeHmiTag(elemType).value;
    ghost var t0 := table.Contents();
    ghost var elems := ArrayElements(name, elemType, formatType, offset, start, size).value;
    var cursor := start;
    var j := 0;
    while j < size
      invariant 0 <= j <= size
      invariant table.Valid()
      invariant cursor == start + j * step
      invariant table.Contents() == HmiTableAfter(t0, elems, j)
    {
      ghost var t1 := table.Contents();
      WriteRecHmiTagTable(table, name + IntToString(j), typ, HmiTagPlcName + DAddress(cursor, IsBool(formatType)));
      ArrayTableStep(t0, t1, table.Contents(), elems, name, elemType, formatType, offset, start, size, j, step, cursor);
      MulSucc(j, step);
      cursor := cursor + step;
      j := j + 1;
    }
    assert elems[..size] == elems;
    return Success(());
  }

  /** The table after the first j placements of ps are written. */
  ghost function HmiTableAfter(t0: OrderedMap<HmiRec>, ps: seq<HmiPlaced>, j: nat): OrderedMap<HmiRec>
    requires j <= |ps|
  {
    InsertAll(t0, HmiWritesOf(ps[..j]))
  }

  /** Writing placement j after the first j moves the table to the first j + 1. */
  lemma HmiPrefixStep(t0: OrderedMap<HmiRec>, ps: seq<HmiPlaced>, j: nat)
    requires j < |ps|
    ensures HmiTableAfter(t0, ps, j + 1) == HmiTableAfter(t0, ps, j).Insert(ps[j].name, HmiWriteOf(ps[j]).1)
  {
    assert ps[..j + 1] == ps[..j] + [ps[j]];
    HmiWritesOfAppend(ps[..j], [ps[j]]);
    InsertAllSnoc(t0, HmiWritesOf(ps[..j]), HmiWriteOf(ps[j]));
  }

  /** Writing element j of an array at the cursor moves the table from j elements to j + 1. */
  lemma ArrayTableStep(t0: OrderedMap<HmiRec>, t1: OrderedMap<HmiRec>, t2: OrderedMap<HmiRec>, elems: seq<HmiPlaced>,
                       name: string, elemType: string, formatType: string,
                       offset: Option<int>, start: int, size: int, j: nat, step: int, cursor: int)
    requires 0 <= j < size
    requires CalcAddrOffsetHmiTag(true, elemType, offset) == Success(step)
    requires cursor == start + j * step
    requires ArrayElements(name, elemType, formatType, offset, start, size) == Success(elems)
    requires t1 == HmiTableAfter(t0, elems, j)
    requires t2 == t1.Insert(name + IntToString(j),
                             HmiRec(TranslateVarTypeHmiTag(elemType).value, HmiTagPlcName + DAddress(cursor, IsBool(formatType))))
    ensures t2 == HmiTableAfter(t0, elems, j + 1)
  {
    ArrayElementAt(name, elemType, formatType, offset, start, size, j, step, cursor);
    HmiPrefixStep(t0, elems, j);
  }

  /** Element j of an array is named by its index and sits j steps after the start. */
  lemma ArrayElementAt(name: string, elemType: string, formatType: string,
                       offset: Option<int>, start: int, size: int, j: nat, step: int, cursor: int)
    requires 0 <= j < size
    requires CalcAddrOffsetHmiTag(true, elemType, offset) == Success(step)
    requires cursor == start + j * step
    ensures ArrayElements(name, elemType, formatType, offset, start, size).Success?
    ensures |ArrayElements(name, elemType, formatType, offset, start, size).value| == size
    ensures ArrayElements(name, elemType, formatType, offset, start, size).value[j]
            == HmiPlaced(name + IntToString(j), TranslateVarTypeHmiTag(elemType).value, cursor, formatType)
  {
  }

  /** Once the size and element type are parsed, an array declaration is its element expansion. */
  lemma ArrayDeclIs(name: string, d: VarDecl, c: int, size: int, elemType: string)
    requires d.addrOffset.Some?
    requires GetArraySize(d.typ) == Success(size) && GetArrayType(d.typ) == Success(elemType)
    ensures ArrayDecl(name, d, c).Success? <==> ArrayElements(name, elemType, d.typ, d.addrOffset, c, size).Success?
    ensures ArrayDecl(name, d, c).Failure? ==> ArrayDecl(name, d, c).error == ArrayElements(name, elemType, d.typ, d.addrOffset, c, size).error
    ensures ArrayDecl(name, d, c).Success? ==>
      ArrayDecl(name, d, c).value == HmiStep(ArrayElements(name, elemType, d.typ, d.addrOffset, c, size).value, c + d.addrOffset.value, Some(elemType))
  {
  }

  /** A visible array declaration (lines 104-121, 146-163, 190-208): the size and
      element type come from the type string, and the cursor then moves by the
      declaration's own offset. */
  method ArrayDeclStep(table: Table<HmiRec>, name: string, d: VarDecl, c: int) returns (r: Result<(int, Option<string>)>)
    requires table.Valid() && d.addrOffset.Some?
    modifies table
    ensures table.Valid()
    ensures r == StepOutcome(ArrayDecl(name, d, c))
    ensures r.Success? ==>
      table.Contents() == InsertAll(old(table.Contents()), HmiWritesOf(ArrayDecl(name, d, c).value.placed))
  {
    var size :- GetArraySize(d.typ);
    var elemType :- GetArrayType(d.typ);
    ArrayDeclIs(name, d, c, size, elemType);
    var elems := ArrayLoop(table, name, elemType, d.typ, d.addrOffset, c, size);
    if elems.Failure? {
      return Failure(elems.error);
    }
    return Success((c + d.addrOffset.value, Some(elemType)));
  }

  /** A visible non-array declaration (lines 124-133, 166-176, 211-221): one tag
      at the cursor, which then moves by the step of the rule type. */
  method ScalarDeclStep(table: Table<HmiRec>, kind: PassKind, name: string, d: VarDecl, c: int, arrayType: Option<string>)
    returns (r: Result<(int, Option<string>)>)
    requires table.Valid() && d.addrOffset.Some?
    modifies table
    ensures table.Valid()
    ensures r == StepOutcome(ScalarDecl(kind, name, d, c, arrayType))
    ensures r.Success? ==>
      table.Contents() == InsertAll(old(table.Contents()), HmiWritesOf(ScalarDecl(kind, name, d, c, arrayType).value.placed))
  {
    var ruleType :- if kind.Shelf? then Defined(arrayType) else Success(d.typ);
    var step :- CalcAddrOffsetHmiTag(false, ruleType, d.addrOffset);
    var typ :- TranslateVarTypeHmiTag(d.typ);
    var formatType :- if kind.Shelf? then Success(d.typ) else Defined(kind.lastShelfType);
    ScalarDeclPlaced(kind, name, d, c, arrayType, ruleType, step, typ, formatType);
    WriteRecHmiTagTable(table, name, typ, HmiTagPlcName + DAddress(c, IsBool(formatType)));
    InsertAllSnoc(old(table.Contents()), [], HmiWriteOf(HmiPlaced(name, typ, c, formatType)));
    return Success((c + step, arrayType));
  }

  /** When every rule succeeds, a non-array declaration places its one tag at the
      cursor and moves the cursor by the rule's step. */
  lemma ScalarDeclPlaced(kind: PassKind, name: string, d: VarDecl, c: int, arrayType: Option<string>,
                         ruleType: string, step: int, typ: string, formatType: string)
    requires d.addrOffset.Some?
    requires (if kind.Shelf? then Defined(arrayType) else Success(d.typ)) == Success(ruleType)
    requires CalcAddrOffsetHmiTag(false, ruleType, d.addrOffset) == Success(step)
    requires TranslateVarTypeHmiTag(d.typ) == Success(typ)
    requires (if kind.Shelf? then Success(d.typ) else Defined(kind.lastShelfType)) == Success(formatType)
    ensures ScalarDecl(kind, name, d, c, arrayType) == Success(HmiStep([HmiPlaced(name, typ, c, formatType)], c + step, arrayType))
  {
  }

  /** One declaration of an HMI pass: a declaration not marked for the HMI only
      moves the cursor by its offset. */
  method HmiDeclStep(table: Table<HmiRec>, kind: PassKind, name: string, d: VarDecl, c: int, arrayType: Option<string>)
    returns (r: Result<(int, Option<string>)>)
    requires table.Valid() && d.addrOffset.Some?
    modifies table
    ensures table.Valid()
    ensures r == StepOutcome(HmiDecl(kind, name, d, c, arrayType))
    ensures r.Success? ==>
      table.Contents() == InsertAll(old(table.Contents()), HmiWritesOf(HmiDecl(kind, name, d, c, arrayType).value.placed))
  {
    if !d.hmiTag {
      return Success((c + d.addrOffset.value, arrayType));
    } else if Contains(d.typ, "ARRAY") {
      r := ArrayDeclStep(table, name, d, c);
    } else {
      r := ScalarDeclStep(table, kind, name, d, c, arrayType);
    }
  }

  /** A declaration that does not raise is followed by the rest of its unit. */
  lemma HmiUnitAfter(kind: PassKind, prefix: string, sec: Items, k: nat, c: int, arrayType: Option<string>, s: HmiStep)
    requires AllNumericFrom(sec, 0) && k < |sec|
    requires HmiDecl(kind, prefix + sec[k].0, sec[k].1, c, arrayType) == Success(s)
    ensures HmiUnit(kind, prefix, sec, k, c, arrayType) == After(s.placed, HmiUnit(kind, prefix, sec, k + 1, s.cursor, s.arrayType))
  {
  }

  /** The constants or pump loop, or the inner loop of one shelf unit. */
  method HmiUnitLoop(table: Table<HmiRec>, kind: PassKind, prefix: string, sec: Items, start: int, arrayType: Option<string>)
    returns (r: Result<(int, Option<string>)>, ghost unit: HmiStep)
    requires table.Valid() && AllNumericFrom(sec, 0)
    modifies table
    ensures table.Valid()
    ensures r.Success? <==> HmiUnit(kind, prefix, sec, 0, start, arrayType).Success?
    ensures r.Failure? ==> r.error == HmiUnit(kind, prefix, sec, 0, start, arrayType).error
    ensures r.Success? ==> HmiUnit(kind, prefix, sec, 0, start, arrayType) == Success(unit)
    ensures r.Success? ==> r.value == (unit.cursor, unit.arrayType)
    ensures r.Success? ==> table.Contents() == InsertAll(old(table.Contents()), HmiWritesOf(unit.placed))
  {
    var cursor := start;
    var lastArray := arrayType;
    ghost var spec := HmiUnit(kind, prefix, sec, 0, start, arrayType);
    ghost var done: seq<HmiPlaced> := [];
    AfterNothing(spec);
    var k := 0;
    while k < |sec|
      invariant 0 <= k <= |sec|
      invariant table.Valid()
      invariant spec == After(done, HmiUnit(kind, prefix, sec, k, cursor, lastArray))
      invariant table.Contents() == InsertAll(old(table.Contents()), HmiWritesOf(done))
    {
      var s := HmiDeclStep(table, kind, prefix + sec[k].0, sec[k].1, cursor, lastArray);
      if s.Failure? {
        UnitRaises(kind, prefix, sec, k, cursor, lastArray, done);
        return s, HmiStep([], cursor, lastArray);
      }
      ghost var step := HmiDecl(kind, prefix + sec[k].0, sec[k].1, cursor, lastArray).value;
      UnitStep(kind, prefix, sec, k, cursor, lastArray, done, step);
      HmiTableStep(old(table.Contents()), done, step.placed);
      done := done + step.placed;
      cursor, lastArray := s.value.0, s.value.1;
      k := k + 1;
    }
    UnitEnd(kind, prefix, sec, cursor, lastArray, done);
    return Success((cursor, lastArray)), HmiStep(done, cursor, lastArray);
  }

  /** Writing the tags of done and then those of more is writing the tags of done + more. */
  lemma HmiTableStep(t0: OrderedMap<HmiRec>, done: seq<HmiPlaced>, more: seq<HmiPlaced>)
    ensures InsertAll(InsertAll(t0, HmiWritesOf(done)), HmiWritesOf(more)) == InsertAll(t0, HmiWritesOf(done + more))
  {
    HmiWritesOfAppend(done, more);
    InsertAllAppend(t0, HmiWritesOf(done), HmiWritesOf(more));
  }

  /** The loop invariant of HmiUnitLoop moves past a declaration that does not raise. */
  lemma UnitStep(kind: PassKind, prefix: string, sec: Items, k: nat, c: int, arrayType: Option<string>,
                 done: seq<HmiPlaced>, s: HmiStep)
    requires AllNumericFrom(sec, 0) && k < |sec|
    requires HmiDecl(kind, prefix + sec[k].0, sec[k].1, c, arrayType) == Success(s)
    ensures After(done, HmiUnit(kind, prefix, sec, k, c, arrayType))
            == After(done + s.placed, HmiUnit(kind, prefix, sec, k + 1, s.cursor, s.arrayType))
  {
    var rest := HmiUnit(kind, prefix, sec, k + 1, s.cursor, s.arrayType);
    HmiUnitAfter(kind, prefix, sec, k, c, arrayType, s);
    if rest.Success? {
      assert done + (s.placed + rest.value.placed) == (done + s.placed) + rest.value.placed;
    }
  }

  /** A declaration that raises ends its unit with its exception. */
  lemma UnitRaises(kind: PassKind, prefix: string, sec: Items, k: nat, c: int, arrayType: Option<string>, done: seq<HmiPlaced>)
    requires AllNumericFrom(sec, 0) && k < |sec|
    requires HmiDecl(kind, prefix + sec[k].0, sec[k].1, c, arrayType).Failure?
    ensures StepOutcome(After(done, HmiUnit(kind, prefix, sec, k, c, arrayType)))
            == StepOutcome(HmiDecl(kind, prefix + sec[k].0, sec[k].1, c, arrayType))
  {
  }

  lemma UnitEnd(kind: PassKind, prefix: string, sec: Items, c: int, arrayType: Option<string>, done: seq<HmiPlaced>)
    requires AllNumericFrom(sec, 0)
    ensures After(done, HmiUnit(kind, prefix, sec, |sec|, c, arrayType)) == Success(HmiStep(done, c, arrayType))
    ensures StepOutcome(After(done, HmiUnit(kind, prefix, sec, |sec|, c, arrayType))) == Success((c, arrayType))
  {
    assert done + [] == done;
  }

  /** The placements done, followed by those of r. */
  function AfterPass(done: seq<HmiPlaced>, r: Result<HmiPass>): (r': Result<HmiPass>)
    ensures r'.Success? <==> r.Success?
    ensures r'.Failure? ==> r' == r
    ensures r'.Success? ==> r'.value == HmiPass(done + r.value.placed, r.value.arrayType)
  {
    match r
    case Success(p) => Success(HmiPass(done + p.placed, p.arrayType))
    case Failure(e) => Failure(e)
  }

  lemma AfterPassNothing(r: Result<HmiPass>)
    ensures AfterPass([], r) == r
  {
    if r.Success? {
      assert [] + r.value.placed == r.value.placed;
    }
  }

  /** A unit that does not raise is followed by the later units. */
  lemma ShelvesHmiAfter(shelfBase: int, regSize: int, sec: Items, i: nat, shelfNo: int, arrayType: Option<string>, unit: HmiStep)
    requires AllNumericFrom(sec, 0) && i < shelfNo
    requires HmiUnit(Shelf, ShelfPrefix(i), sec, 0, ShelfStart(shelfBase, regSize, i), arrayType) == Success(unit)
    ensures ShelvesHmi(shelfBase, regSize, sec, i, shelfNo, arrayType)
            == AfterPass(unit.placed, ShelvesHmi(shelfBase, regSize, sec, i + 1, shelfNo, unit.arrayType))
  {
  }

  /** The shelf loop of the HMI table: unit i restarts at shelf_base + i * shelf_reg_size,
      and the last array element type carries over from unit to unit. */
  method ShelvesHmiLoop(table: Table<HmiRec>, shelfBase: int, regSize: int, sec: Items, shelfNo: int, arrayType: Option<string>)
    returns (r: Result<Option<string>>)
    requires table.Valid() && AllNumericFrom(sec, 0)
    modifies table
    ensures table.Valid()
    ensures r.Success? <==> ShelvesHmi(shelfBase, regSize, sec, 0, shelfNo, arrayType).Success?
    ensures r.Failure? ==> r.error == ShelvesHmi(shelfBase, regSize, sec, 0, shelfNo, arrayType).error
    ensures r.Success? ==> r.value == ShelvesHmi(shelfBase, regSize, sec, 0, shelfNo, arrayType).value.arrayType
    ensures r.Success? ==>
      table.Contents() == InsertAll(old(table.Contents()), HmiWritesOf(ShelvesHmi(shelfBase, regSize, sec, 0, shelfNo, arrayType).value.placed))
  {
    var lastArray := arrayType;
    ghost var spec := ShelvesHmi(shelfBase, regSize, sec, 0, shelfNo, arrayType);
    ghost var done: seq<HmiPlaced> := [];
    AfterPassNothing(spec);
    var i := 0;
    while i < shelfNo
      invariant 0 <= i
      invariant table.Valid()
      invariant spec == AfterPass(done, ShelvesHmi(shelfBase, regSize, sec, i, shelfNo, lastArray))
      invariant table.Contents() == InsertAll(old(table.Contents()), HmiWritesOf(done))
      decreases shelfNo - i
    {
      var u, done' := ShelfUnitRound(table, shelfBase, regSize, sec, i, shelfNo, lastArray, old(table.Contents()), done);
      if u.Failure? {
        return Failure(u.error);
      }
      done := done';
      lastArray := u.value;
      i := i + 1;
    }
    ShelvesEnd(shelfBase, regSize, sec, i, shelfNo, lastArray, done);
    return Success(lastArray);
  }

  /** One round of the shelf loop: unit i of the HMI table. */
  method ShelfUnitRound(table: Table<HmiRec>, shelfBase: int, regSize: int, sec: Items, i: nat, shelfNo: int,
                        arrayType: Option<string>, ghost t0: OrderedMap<HmiRec>, ghost done: seq<HmiPlaced>)
    returns (u: Result<Option<string>>, ghost done': seq<HmiPlaced>)
    requires table.Valid() && AllNumericFrom(sec, 0) && i < shelfNo
    requires table.Contents() == InsertAll(t0, HmiWritesOf(done))
    modifies table
    ensures table.Valid()
    ensures u.Failure? ==> AfterPass(done, ShelvesHmi(shelfBase, regSize, sec, i, shelfNo, arrayType)) == Failure(u.error)
    ensures u.Success? ==> AfterPass(done, ShelvesHmi(shelfBase, regSize, sec, i, shelfNo, arrayType))
                           == AfterPass(done', ShelvesHmi(shelfBase, regSize, sec, i + 1, shelfNo, u.value))
    ensures u.Success? ==> table.Contents() == InsertAll(t0, HmiWritesOf(done'))
  {
    var s, unit := HmiUnitLoop(table, Shelf, ShelfPrefix(i), sec, ShelfStart(shelfBase, regSize, i), arrayType);
    if s.Failure? {
      ShelvesRaises(shelfBase, regSize, sec, i, shelfNo, arrayType, done, s.error);
      return Failure(s.error), done;
    }
    ShelvesStep(shelfBase, regSize, sec, i, shelfNo, arrayType, done, unit);
    HmiTableStep(t0, done, unit.placed);
    return Success(s.value.1), done + unit.placed;
  }

  /** The loop invariant of ShelvesHmiLoop moves past a unit that does not raise. */
  lemma ShelvesStep(shelfBase: int, regSize: int, sec: Items, i: nat, shelfNo: int, arrayType: Option<string>,
                    done: seq<HmiPlaced>, unit: HmiStep)
    requires AllNumericFrom(sec, 0) && i < shelfNo
    requires HmiUnit(Shelf, ShelfPrefix(i), sec, 0, ShelfStart(shelfBase, regSize, i), arrayType) == Success(unit)
    ensures AfterPass(done, ShelvesHmi(shelfBase, regSize, sec, i, shelfNo, arrayType))
            == AfterPass(done + unit.placed, ShelvesHmi(shelfBase, regSize, sec, i + 1, shelfNo, unit.arrayType))
  {
    var rest := ShelvesHmi(shelfBase, regSize, sec, i + 1, shelfNo, unit.arrayType);
    ShelvesHmiAfter(shelfBase, regSize, sec, i, shelfNo, arrayType, unit);
    if rest.Success? {
      assert done + (unit.placed + rest.value.placed) == (done + unit.placed) + rest.value.placed;
    }
  }

  /** A unit that raises ends the pass with its exception. */
  lemma ShelvesRaises(shelfBase: int, regSize: int, sec: Items, i: nat, shelfNo: int, arrayType: Option<string>,
                      done: seq<HmiPlaced>, e: Error)
    requires AllNumericFrom(sec, 0) && i < shelfNo
    requires HmiUnit(Shelf, ShelfPrefix(i), sec, 0, ShelfStart(shelfBase, regSize, i), arrayType).Failure?
    requires HmiUnit(Shelf, ShelfPrefix(i), sec, 0, ShelfStart(shelfBase, regSize, i), arrayType).error == e
    ensures AfterPass(done, ShelvesHmi(shelfBase, regSize, sec, i, shelfNo, arrayType)) == Failure(e)
  {
  }

  lemma ShelvesEnd(shelfBase: int, regSize: int, sec: Items, i: nat, shelfNo: int, arrayType: Option<string>,
                   done: seq<HmiPlaced>)
    requires AllNumericFrom(sec, 0) && i >= shelfNo
    ensures AfterPass(done, ShelvesHmi(shelfBase, regSize, sec, i, shelfNo, arrayType)) == Success(HmiPass(done, arrayType))
  {
    assert done + [] == done;
  }
}
