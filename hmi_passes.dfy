/** The three passes of main that fill the HMI tag table from offsets
    (global_variable_generator.py:93-221): constants, pumps, and the shelf
    declarations once per shelf unit. Cursors are in tenths. The passes run
    only after the global passes have succeeded, so every offset is numeric. */
module HmiPasses {
  import opened Wrappers
  import opened Strings
  import opened Cells
  import opened TypeRules
  import opened Tables
  import opened Readers
  import opened Addresses
  import opened GlobalPasses

  /** An HMI tag placed at a cursor: its name, its HMI type, the cursor, and
      the type string whose "BOOL" test picks a bit or a word address. */
  datatype HmiPlaced = HmiPlaced(name: string, typ: string, cursor: int, formatType: string)

  /** hmi_tag_table[name] = {"type": ..., "addr": "{EtherLink1}1@D" + the cursor}. */
  function HmiWriteOf(p: HmiPlaced): HmiWrite {
    (p.name, HmiRec(p.typ, HmiTagPlcName + DAddress(p.cursor, IsBool(p.formatType))))
  }

  /** The writes of a sequence of placements, in order. */
  function HmiWritesOf(ps: seq<HmiPlaced>): (ws: seq<HmiWrite>)
    ensures |ws| == |ps| && forall i :: 0 <= i < |ps| ==> ws[i] == HmiWriteOf(ps[i])
  {
    seq(|ps|, i requires 0 <= i < |ps| => HmiWriteOf(ps[i]))
  }

  lemma HmiWritesOfAppend(a: seq<HmiPlaced>, b: seq<HmiPlaced>)
    ensures HmiWritesOf(a + b) == HmiWritesOf(a) + HmiWritesOf(b)
  {
  }

  /** Which pass is walking. The constants and pump passes format a non-array
      address by testing the type of the last shelf declaration the global shelf
      pass visited (lines 130 and 173), None when that pass visited none; the
      shelf pass takes a non-array declaration's offset rule from the element type
      of the last array seen by any HMI pass (line 214). */
  datatype PassKind = ConstantOrPump(lastShelfType: Option<string>) | Shelf

  /** The placements of a declaration or a unit, the cursor after it, and the
      element type of the last array seen (None while no array was seen). */
  datatype HmiStep = HmiStep(placed: seq<HmiPlaced>, cursor: int, arrayType: Option<string>)

  /** A variable that may not have been bound yet. */
  function Defined(v: Option<string>): (r: Result<string>)
    ensures v.Some? ==> r == Success(v.value)
    ensures v.None? ==> r == Failure(UnboundName)
  {
    match v
    case Some(x) => Success(x)
    case None => Failure(UnboundName)
  }

  /** The elements of an array declaration: element j is named name + str(j) and
      placed at start + j * (one bit for BOOL, one word for WORD). Nothing is
      checked when the size is not positive, since the loop body never runs. */
  function ArrayElements(name: string, elemType: string, formatType: string, offset: Option<int>, start: int, size: int): (r: Result<seq<HmiPlaced>>)
    ensures size <= 0 ==> r == Success([])
    ensures size > 0 ==> (r.Success? <==> elemType == "BOOL" || elemType == "WORD")
    ensures size > 0 && r.Failure? ==> r.error == InvalidType
    ensures r.Success? ==> |r.value| == (if size > 0 then size else 0)
  {
    if size <= 0 then Success([])
    else
      var step :- CalcAddrOffsetHmiTag(true, elemType, offset);
      var typ := TranslateVarTypeHmiTag(elemType).value;
      Success(seq(size, j requires 0 <= j < size => HmiPlaced(name + IntToString(j), typ, start + j * step, formatType)))
  }

  /** A visible array declaration: its size and element type are parsed from the
      type string, and the cursor moves by the declaration's own offset. */
  function ArrayDecl(name: string, d: VarDecl, c: int): Result<HmiStep>
    requires d.addrOffset.Some?
  {
    match GetArraySize(d.typ)
    case Failure(e) => Failure(e)
    case Success(size) =>
      match GetArrayType(d.typ)
      case Failure(e) => Failure(e)
      case Success(elemType) =>
        match ArrayElements(name, elemType, d.typ, d.addrOffset, c, size)
        case Failure(e) => Failure(e)
        case Success(elems) => Success(HmiStep(elems, c + d.addrOffset.value, Some(elemType)))
  }

  /** A visible non-array declaration: one tag at the cursor, which then moves by
      the HMI step of the rule type. */
  function ScalarDecl(kind: PassKind, name: string, d: VarDecl, c: int, arrayType: Option<string>): Result<HmiStep>
    requires d.addrOffset.Some?
  {
    match (if kind.Shelf? then Defined(arrayType) else Success(d.typ))
    case Failure(e) => Failure(e)
    case Success(ruleType) =>
      match CalcAddrOffsetHmiTag(false, ruleType, d.addrOffset)
      case Failure(e) => Failure(e)
      case Success(step) =>
        match TranslateVarTypeHmiTag(d.typ)
        case Failure(e) => Failure(e)
        case Success(typ) =>
          match (if kind.Shelf? then Success(d.typ) else Defined(kind.lastShelfType))
          case Failure(e) => Failure(e)
          case Success(formatType) => Success(HmiStep([HmiPlaced(name, typ, c, formatType)], c + step, arrayType))
  }

  /** One declaration of an HMI pass at cursor c (lines 95-133, 137-176, 181-221):
      a declaration not marked for the HMI only moves the cursor by its offset. */
  function HmiDecl(kind: PassKind, name: string, d: VarDecl, c: int, arrayType: Option<string>): Result<HmiStep>
    requires d.addrOffset.Some?
  {
    if !d.hmiTag then Success(HmiStep([], c + d.addrOffset.value, arrayType))
    else if Contains(d.typ, "ARRAY") then ArrayDecl(name, d, c)
    else ScalarDecl(kind, name, d, c, arrayType)
  }

  /** A constants or pump pass, or one shelf unit's pass, from the k-th declaration on. */
  function HmiUnit(kind: PassKind, prefix: string, sec: Items, k: nat, c: int, arrayType: Option<string>): Result<HmiStep>
    requires AllNumericFrom(sec, 0) && k <= |sec|
    decreases |sec| - k
  {
    if k == |sec| then Success(HmiStep([], c, arrayType))
    else
      match HmiDecl(kind, prefix + sec[k].0, sec[k].1, c, arrayType)
      case Failure(e) => Failure(e)
      case Success(s) =>
        match HmiUnit(kind, prefix, sec, k + 1, s.cursor, s.arrayType)
        case Failure(e) => Failure(e)
        case Success(r) => Success(HmiStep(s.placed + r.placed, r.cursor, r.arrayType))
  }

  /** One step of a pass: the declaration's placements, then the rest's. */
  lemma HmiUnitCons(kind: PassKind, prefix: string, sec: Items, k: nat, c: int, arrayType: Option<string>, s: HmiStep, r: HmiStep)
    requires AllNumericFrom(sec, 0) && k < |sec|
    requires HmiDecl(kind, prefix + sec[k].0, sec[k].1, c, arrayType) == Success(s)
    requires HmiUnit(kind, prefix, sec, k + 1, s.cursor, s.arrayType) == Success(r)
    ensures HmiUnit(kind, prefix, sec, k, c, arrayType) == Success(HmiStep(s.placed + r.placed, r.cursor, r.arrayType))
  {
  }

  /** The placements of the shelf pass and the element type of the last array seen. */
  datatype HmiPass = HmiPass(placed: seq<HmiPlaced>, arrayType: Option<string>)

  /** The shelf pass from unit i on: unit i restarts at shelf_base + i * shelf_reg_size
      and the last array element type carries over from unit to unit (lines 179-221). */
  function ShelvesHmi(shelfBase: int, regSize: int, sec: Items, i: nat, shelfNo: int, arrayType: Option<string>): Result<HmiPass>
    requires AllNumericFrom(sec, 0)
    decreases shelfNo - i
  {
    if i >= shelfNo then Success(HmiPass([], arrayType))
    else
      match HmiUnit(Shelf, ShelfPrefix(i), sec, 0, ShelfStart(shelfBase, regSize, i), arrayType)
      case Failure(e) => Failure(e)
      case Success(unit) =>
        match ShelvesHmi(shelfBase, regSize, sec, i + 1, shelfNo, unit.arrayType)
        case Failure(e) => Failure(e)
        case Success(rest) => Success(HmiPass(unit.placed + rest.placed, rest.arrayType))
  }

  /** A visible array declaration "ARRAY [n] OF BOOL|WORD" expands into n tags
      named name0 .. name{n-1}, of type BIT (one bit apart, bit addresses) or WORD
      (one word apart, word addresses); the cursor then moves by the declaration's
      own offset, and its element type becomes the last array type seen. */
  lemma ArrayDeclarationExpands(kind: PassKind, name: string, size: int, elemType: string,
                                offset: int, initValue: Option<Cell>, c: int, arrayType: Option<string>)
    requires elemType == "BOOL" || elemType == "WORD"
    ensures var d := VarDecl(Some(offset), ArrayTypeString(size, elemType), initValue, true);
      var r := HmiDecl(kind, name, d, c, arrayType);
      && r.Success?
      && r.value.cursor == c + offset
      && r.value.arrayType == Some(elemType)
      && |r.value.placed| == (if size > 0 then size else 0)
      && forall j :: 0 <= j < |r.value.placed| ==>
           r.value.placed[j] == HmiPlaced(name + IntToString(j), if elemType == "BOOL" then "BIT" else "WORD",
                                          c + j * (if elemType == "BOOL" then 1 else 10), ArrayTypeString(size, elemType))
  {
    var t := ArrayTypeString(size, elemType);
    ArrayTypeTests(size, elemType);
    GetArraySizeOfArrayType(size, elemType);
    GetArrayTypeOfArrayType(size, elemType);
  }

  /** Every declaration has a numeric offset, is marked for the HMI, and has the
      plain type BOOL or WORD. */
  predicate PlainFrom(sec: Items, k: nat) {
    forall j :: k <= j < |sec| ==>
      sec[j].1.addrOffset.Some? && sec[j].1.hmiTag && (sec[j].1.typ == "BOOL" || sec[j].1.typ == "WORD")
  }

  /** The HMI step of a plain declaration whose offset rule is ruleType: the raw
      offset for BOOL, int(offset) words for WORD. */
  function PlainStep(ruleType: string, offset: int): (step: int)
    requires ruleType == "BOOL" || ruleType == "WORD"
    ensures step == CalcAddrOffsetHmiTag(false, ruleType, Some(offset)).value
  {
    if ruleType == "BOOL" then offset else 10 * TruncTenths(offset)
  }

  /** The sum of the HMI steps of the declarations lo .. hi-1, each by its own type. */
  function OwnStepSum(sec: Items, lo: nat, hi: nat): int
    requires lo <= hi <= |sec| && PlainFrom(sec, lo)
    decreases hi - lo
  {
    if lo == hi then 0 else PlainStep(sec[lo].1.typ, sec[lo].1.addrOffset.value) + OwnStepSum(sec, lo + 1, hi)
  }

  /** The sum of the HMI steps of the declarations lo .. hi-1, all by the rule of ruleType. */
  function RuleStepSum(sec: Items, ruleType: string, lo: nat, hi: nat): int
    requires lo <= hi <= |sec| && PlainFrom(sec, lo) && (ruleType == "BOOL" || ruleType == "WORD")
    decreases hi - lo
  {
    if lo == hi then 0 else PlainStep(ruleType, sec[lo].1.addrOffset.value) + RuleStepSum(sec, ruleType, lo + 1, hi)
  }

  lemma PlainIsNotArray(t: string)
    requires t == "BOOL" || t == "WORD"
    ensures !Contains(t, "ARRAY")
  {
    NotContainsWithoutFirstChar(t, "ARRAY");
  }

  /** In the constants and pump passes a plain visible declaration yields one tag
      at the cursor, typed BIT or WORD by its own type and formatted by the last
      shelf declaration's type; the cursor advances by the step of its own type. */
  lemma PlainOwnDecl(lastShelfType: string, name: string, d: VarDecl, c: int, arrayType: Option<string>)
    requires d.addrOffset.Some? && d.hmiTag && (d.typ == "BOOL" || d.typ == "WORD")
    ensures HmiDecl(ConstantOrPump(Some(lastShelfType)), name, d, c, arrayType)
            == Success(HmiStep([HmiPlaced(name, TranslateVarTypeHmiTag(d.typ).value, c, lastShelfType)],
                               c + PlainStep(d.typ, d.addrOffset.value), arrayType))
  {
    PlainIsNotArray(d.typ);
  }

  /** In the shelf pass a plain visible declaration yields one tag at the cursor,
      typed BIT or WORD and formatted by its own type; the cursor advances by the
      step of the last array element type. */
  lemma PlainShelfDecl(ruleType: string, name: string, d: VarDecl, c: int)
    requires d.addrOffset.Some? && d.hmiTag && (d.typ == "BOOL" || d.typ == "WORD")
    requires ruleType == "BOOL" || ruleType == "WORD"
    ensures HmiDecl(Shelf, name, d, c, Some(ruleType))
            == Success(HmiStep([HmiPlaced(name, TranslateVarTypeHmiTag(d.typ).value, c, d.typ)],
                               c + PlainStep(ruleType, d.addrOffset.value), Some(ruleType)))
  {
    PlainIsNotArray(d.typ);
  }

  /** The tags of plain visible declarations k.. in the constants or pump pass:
      each at the cursor, which then moves by the declaration's own HMI step. */
  function OwnRun(format: string, prefix: string, sec: Items, k: nat, c: int): seq<HmiPlaced>
    requires k <= |sec| && PlainFrom(sec, k)
    decreases |sec| - k
  {
    if k == |sec| then []
    else
      var d := sec[k].1;
      [HmiPlaced(prefix + sec[k].0, TranslateVarTypeHmiTag(d.typ).value, c, format)]
      + OwnRun(format, prefix, sec, k + 1, c + PlainStep(d.typ, d.addrOffset.value))
  }

  /** The tags of plain visible declarations k.. in a shelf unit: each at the
      cursor, which then moves by the step of the rule type. */
  function RuleRun(ruleType: string, prefix: string, sec: Items, k: nat, c: int): seq<HmiPlaced>
    requires k <= |sec| && PlainFrom(sec, k) && (ruleType == "BOOL" || ruleType == "WORD")
    decreases |sec| - k
  {
    if k == |sec| then []
    else
      var d := sec[k].1;
      [HmiPlaced(prefix + sec[k].0, TranslateVarTypeHmiTag(d.typ).value, c, d.typ)]
      + RuleRun(ruleType, prefix, sec, k + 1, c + PlainStep(ruleType, d.addrOffset.value))
  }

  /** The constants or pump pass over plain visible declarations succeeds and
      places exactly OwnRun's tags, leaving the last array type alone. */
  lemma {:induction false} PlainUnitHmi(lastShelfType: string, prefix: string, sec: Items, k: nat, c: int, arrayType: Option<string>)
    requires AllNumericFrom(sec, 0) && k <= |sec| && PlainFrom(sec, k)
    ensures HmiUnit(ConstantOrPump(Some(lastShelfType)), prefix, sec, k, c, arrayType).Success?
    ensures HmiUnit(ConstantOrPump(Some(lastShelfType)), prefix, sec, k, c, arrayType).value.placed
            == OwnRun(lastShelfType, prefix, sec, k, c)
    ensures HmiUnit(ConstantOrPump(Some(lastShelfType)), prefix, sec, k, c, arrayType).value.arrayType == arrayType
    decreases |sec| - k
  {
    if k < |sec| {
      var d := sec[k].1;
      var next := c + PlainStep(d.typ, d.addrOffset.value);
      PlainUnitHmi(lastShelfType, prefix, sec, k + 1, next, arrayType);
      var rest := HmiUnit(ConstantOrPump(Some(lastShelfType)), prefix, sec, k + 1, next, arrayType).value;
      PlainUnitHmiStep(lastShelfType, prefix, sec, k, c, arrayType, next, rest);
    }
  }

  lemma PlainUnitHmiStep(lastShelfType: string, prefix: string, sec: Items, k: nat, c: int, arrayType: Option<string>,
                         next: int, rest: HmiStep)
    requires AllNumericFrom(sec, 0) && k < |sec| && PlainFrom(sec, k)
    requires next == c + PlainStep(sec[k].1.typ, sec[k].1.addrOffset.value)
    requires HmiUnit(ConstantOrPump(Some(lastShelfType)), prefix, sec, k + 1, next, arrayType) == Success(rest)
    requires rest.placed == OwnRun(lastShelfType, prefix, sec, k + 1, next) && rest.arrayType == arrayType
    ensures HmiUnit(ConstantOrPump(Some(lastShelfType)), prefix, sec, k, c, arrayType)
            == Success(HmiStep(OwnRun(lastShelfType, prefix, sec, k, c), rest.cursor, arrayType))
  {
    var kind := ConstantOrPump(Some(lastShelfType));
    var d := sec[k].1;
    var p := HmiPlaced(prefix + sec[k].0, TranslateVarTypeHmiTag(d.typ).value, c, lastShelfType);
    OwnRunCons(lastShelfType, prefix, sec, k, c, next);
    PlainOwnDecl(lastShelfType, prefix + sec[k].0, d, c, arrayType);
    HmiUnitCons(kind, prefix, sec, k, c, arrayType, HmiStep([p], next, arrayType), rest);
  }

  lemma OwnRunCons(format: string, prefix: string, sec: Items, k: nat, c: int, next: int)
    requires k < |sec| && PlainFrom(sec, k)
    requires next == c + PlainStep(sec[k].1.typ, sec[k].1.addrOffset.value)
    ensures OwnRun(format, prefix, sec, k, c)
            == [HmiPlaced(prefix + sec[k].0, TranslateVarTypeHmiTag(sec[k].1.typ).value, c, format)]
               + OwnRun(format, prefix, sec, k + 1, next)
  {
  }

  /** A shelf unit's pass over plain visible declarations succeeds and places
      exactly RuleRun's tags, keeping the last array type. */
  lemma {:induction false} PlainShelfUnitHmi(prefix: string, sec: Items, k: nat, c: int, ruleType: string)
    requires AllNumericFrom(sec, 0) && k <= |sec| && PlainFrom(sec, k) && (ruleType == "BOOL" || ruleType == "WORD")
    ensures HmiUnit(Shelf, prefix, sec, k, c, Some(ruleType)).Success?
    ensures HmiUnit(Shelf, prefix, sec, k, c, Some(ruleType)).value.placed == RuleRun(ruleType, prefix, sec, k, c)
    ensures HmiUnit(Shelf, prefix, sec, k, c, Some(ruleType)).value.arrayType == Some(ruleType)
    decreases |sec| - k
  {
    if k < |sec| {
      var d := sec[k].1;
      var next := c + PlainStep(ruleType, d.addrOffset.value);
      PlainShelfUnitHmi(prefix, sec, k + 1, next, ruleType);
      var rest := HmiUnit(Shelf, prefix, sec, k + 1, next, Some(ruleType)).value;
      PlainShelfUnitHmiStep(prefix, sec, k, c, ruleType, next, rest);
    }
  }

  lemma PlainShelfUnitHmiStep(prefix: string, sec: Items, k: nat, c: int, ruleType: string, next: int, rest: HmiStep)
    requires AllNumericFrom(sec, 0) && k < |sec| && PlainFrom(sec, k) && (ruleType == "BOOL" || ruleType == "WORD")
    requires next == c + PlainStep(ruleType, sec[k].1.addrOffset.value)
    requires HmiUnit(Shelf, prefix, sec, k + 1, next, Some(ruleType)) == Success(rest)
    requires rest.placed == RuleRun(ruleType, prefix, sec, k + 1, next) && rest.arrayType == Some(ruleType)
    ensures HmiUnit(Shelf, prefix, sec, k, c, Some(ruleType))
            == Success(HmiStep(RuleRun(ruleType, prefix, sec, k, c), rest.cursor, Some(ruleType)))
  {
    var d := sec[k].1;
    var p := HmiPlaced(prefix + sec[k].0, TranslateVarTypeHmiTag(d.typ).value, c, d.typ);
    RuleRunCons(ruleType, prefix, sec, k, c, next);
    PlainShelfDecl(ruleType, prefix + sec[k].0, d, c);
    HmiUnitCons(Shelf, prefix, sec, k, c, Some(ruleType), HmiStep([p], next, Some(ruleType)), rest);
  }

  lemma RuleRunCons(ruleType: string, prefix: string, sec: Items, k: nat, c: int, next: int)
    requires k < |sec| && PlainFrom(sec, k) && (ruleType == "BOOL" || ruleType == "WORD")
    requires next == c + PlainStep(ruleType, sec[k].1.addrOffset.value)
    ensures RuleRun(ruleType, prefix, sec, k, c)
            == [HmiPlaced(prefix + sec[k].0, TranslateVarTypeHmiTag(sec[k].1.typ).value, c, sec[k].1.typ)]
               + RuleRun(ruleType, prefix, sec, k + 1, next)
  {
  }

  /** In the constants or pump pass, plain visible declarations are placed one
      after the other, each advancing the cursor by its own HMI step; every
      address is formatted by the last shelf declaration's type, not its own. */
  lemma {:induction false} OwnRunLayout(format: string, prefix: string, sec: Items, k: nat, c: int)
    requires k <= |sec| && PlainFrom(sec, k)
    ensures |OwnRun(format, prefix, sec, k, c)| == |sec| - k
    ensures forall j :: k <= j < |sec| ==>
              OwnRun(format, prefix, sec, k, c)[j - k]
              == HmiPlaced(prefix + sec[j].0, TranslateVarTypeHmiTag(sec[j].1.typ).value,
                           c + OwnStepSum(sec, k, j), format)
    decreases |sec| - k
  {
    if k < |sec| {
      var d := sec[k].1;
      var next := c + PlainStep(d.typ, d.addrOffset.value);
      OwnRunLayout(format, prefix, sec, k + 1, next);
      OwnRunCons(format, prefix, sec, k, c, next);
      var all := OwnRun(format, prefix, sec, k, c);
      var rest := OwnRun(format, prefix, sec, k + 1, next);
      forall j | k < j < |sec|
        ensures all[j - k] == HmiPlaced(prefix + sec[j].0, TranslateVarTypeHmiTag(sec[j].1.typ).value,
                                        c + OwnStepSum(sec, k, j), format)
      {
        assert all[j - k] == rest[j - (k + 1)];
      }
    }
  }

  /** In a shelf unit of plain visible declarations, every declaration advances
      the cursor by the rule of the last array element type seen, whatever its own
      type, and is formatted by its own type. */
  lemma {:induction false} RuleRunLayout(ruleType: string, prefix: string, sec: Items, k: nat, c: int)
    requires k <= |sec| && PlainFrom(sec, k) && (ruleType == "BOOL" || ruleType == "WORD")
    ensures |RuleRun(ruleType, prefix, sec, k, c)| == |sec| - k
    ensures forall j :: k <= j < |sec| ==>
              RuleRun(ruleType, prefix, sec, k, c)[j - k]
              == HmiPlaced(prefix + sec[j].0, TranslateVarTypeHmiTag(sec[j].1.typ).value,
                           c + RuleStepSum(sec, ruleType, k, j), sec[j].1.typ)
    decreases |sec| - k
  {
    if k < |sec| {
      var d := sec[k].1;
      var next := c + PlainStep(ruleType, d.addrOffset.value);
      RuleRunLayout(ruleType, prefix, sec, k + 1, next);
      RuleRunCons(ruleType, prefix, sec, k, c, next);
      var all := RuleRun(ruleType, prefix, sec, k, c);
      var rest := RuleRun(ruleType, prefix, sec, k + 1, next);
      forall j | k < j < |sec|
        ensures all[j - k] == HmiPlaced(prefix + sec[j].0, TranslateVarTypeHmiTag(sec[j].1.typ).value,
                                        c + RuleStepSum(sec, ruleType, k, j), sec[j].1.typ)
      {
        assert all[j - k] == rest[j - (k + 1)];
      }
    }
  }

  /** The tags of plain visible shelf declarations for units i .. shelf_no-1. */
  function RuleRuns(ruleType: string, shelfBase: int, regSize: int, sec: Items, i: nat, shelfNo: int): seq<HmiPlaced>
    requires PlainFrom(sec, 0) && (ruleType == "BOOL" || ruleType == "WORD")
    decreases shelfNo - i
  {
    if i >= shelfNo then []
    else RuleRun(ruleType, ShelfPrefix(i), sec, 0, ShelfStart(shelfBase, regSize, i)) + RuleRuns(ruleType, shelfBase, regSize, sec, i + 1, shelfNo)
  }

  lemma ShelvesHmiStep(shelfBase: int, regSize: int, sec: Items, i: nat, shelfNo: int, ruleType: string)
    requires AllNumericFrom(sec, 0) && PlainFrom(sec, 0) && (ruleType == "BOOL" || ruleType == "WORD") && i < shelfNo
    requires ShelvesHmi(shelfBase, regSize, sec, i + 1, shelfNo, Some(ruleType))
             == Success(HmiPass(RuleRuns(ruleType, shelfBase, regSize, sec, i + 1, shelfNo), Some(ruleType)))
    ensures ShelvesHmi(shelfBase, regSize, sec, i, shelfNo, Some(ruleType))
            == Success(HmiPass(RuleRuns(ruleType, shelfBase, regSize, sec, i, shelfNo), Some(ruleType)))
  {
    var start := ShelfStart(shelfBase, regSize, i);
    PlainShelfUnitHmi(ShelfPrefix(i), sec, 0, start, ruleType);
    var unit := HmiUnit(Shelf, ShelfPrefix(i), sec, 0, start, Some(ruleType)).value;
    var rest := ShelvesHmi(shelfBase, regSize, sec, i + 1, shelfNo, Some(ruleType)).value;
    ShelvesHmiCons(shelfBase, regSize, sec, i, shelfNo, Some(ruleType), unit, rest);
  }

  /** One unit of the shelf pass: its placements, then the later units'. */
  lemma ShelvesHmiCons(shelfBase: int, regSize: int, sec: Items, i: nat, shelfNo: int, arrayType: Option<string>,
                       unit: HmiStep, rest: HmiPass)
    requires AllNumericFrom(sec, 0) && i < shelfNo
    requires HmiUnit(Shelf, ShelfPrefix(i), sec, 0, ShelfStart(shelfBase, regSize, i), arrayType) == Success(unit)
    requires ShelvesHmi(shelfBase, regSize, sec, i + 1, shelfNo, unit.arrayType) == Success(rest)
    ensures ShelvesHmi(shelfBase, regSize, sec, i, shelfNo, arrayType) == Success(HmiPass(unit.placed + rest.placed, rest.arrayType))
  {
  }

  /** With plain visible shelf declarations the shelf pass succeeds, keeps the
      last array type, and places RuleRuns' tags. */
  lemma {:induction false} ShelvesHmiPlain(shelfBase: int, regSize: int, sec: Items, i: nat, shelfNo: int, ruleType: string)
    requires AllNumericFrom(sec, 0) && PlainFrom(sec, 0) && (ruleType == "BOOL" || ruleType == "WORD")
    ensures ShelvesHmi(shelfBase, regSize, sec, i, shelfNo, Some(ruleType))
            == Success(HmiPass(RuleRuns(ruleType, shelfBase, regSize, sec, i, shelfNo), Some(ruleType)))
    decreases shelfNo - i
  {
    if i < shelfNo {
      ShelvesHmiPlain(shelfBase, regSize, sec, i + 1, shelfNo, ruleType);
      ShelvesHmiStep(shelfBase, regSize, sec, i, shelfNo, ruleType);
    }
  }

  /** Units i.. are unit i's tags, one per declaration, followed by the rest. */
  lemma RuleRunsStep(ruleType: string, shelfBase: int, regSize: int, sec: Items, i: nat, shelfNo: int)
    requires PlainFrom(sec, 0) && (ruleType == "BOOL" || ruleType == "WORD") && i < shelfNo
    ensures var unit := RuleRun(ruleType, ShelfPrefix(i), sec, 0, ShelfStart(shelfBase, regSize, i));
      && |unit| == |sec|
      && RuleRuns(ruleType, shelfBase, regSize, sec, i, shelfNo) == unit + RuleRuns(ruleType, shelfBase, regSize, sec, i + 1, shelfNo)
  {
    RuleRunLayout(ruleType, ShelfPrefix(i), sec, 0, ShelfStart(shelfBase, regSize, i));
  }

  /** Every declaration once per unit. */
  lemma {:induction false} RuleRunsLength(ruleType: string, shelfBase: int, regSize: int, sec: Items, i: nat, shelfNo: int)
    requires PlainFrom(sec, 0) && (ruleType == "BOOL" || ruleType == "WORD")
    ensures |RuleRuns(ruleType, shelfBase, regSize, sec, i, shelfNo)| == (if i < shelfNo then (shelfNo - i) * |sec| else 0)
    decreases shelfNo - i
  {
    if i < shelfNo {
      RuleRunsLength(ruleType, shelfBase, regSize, sec, i + 1, shelfNo);
      RuleRunsStep(ruleType, shelfBase, regSize, sec, i, shelfNo);
      MulSucc(shelfNo - (i + 1), |sec|);
    }
  }

  /** The j-th shelf declaration of unit u, in the tags of units i.. */
  lemma RuleRunsAt(ruleType: string, shelfBase: int, regSize: int, sec: Items, i: nat, shelfNo: int, u: int, j: nat)
    requires PlainFrom(sec, 0) && (ruleType == "BOOL" || ruleType == "WORD")
    requires i <= u < shelfNo && j < |sec|
    ensures 0 <= (u - i) * |sec| + j < |RuleRuns(ruleType, shelfBase, regSize, sec, i, shelfNo)|
    ensures RuleRuns(ruleType, shelfBase, regSize, sec, i, shelfNo)[(u - i) * |sec| + j]
            == HmiPlaced(ShelfPrefix(u) + sec[j].0, TranslateVarTypeHmiTag(sec[j].1.typ).value,
                         ShelfStart(shelfBase, regSize, u) + RuleStepSum(sec, ruleType, 0, j), sec[j].1.typ)
  {
    RuleRunsIndex(ruleType, shelfBase, regSize, sec, i, shelfNo, u, j, (u - i) * |sec| + j);
  }

  /** Unit u's tag for declaration j. */
  function ShelfTag(ruleType: string, shelfBase: int, regSize: int, sec: Items, u: int, j: nat): HmiPlaced
    requires PlainFrom(sec, 0) && (ruleType == "BOOL" || ruleType == "WORD") && j < |sec|
  {
    HmiPlaced(ShelfPrefix(u) + sec[j].0, TranslateVarTypeHmiTag(sec[j].1.typ).value,
              ShelfStart(shelfBase, regSize, u) + RuleStepSum(sec, ruleType, 0, j), sec[j].1.typ)
  }

  /** RuleRunsAt at the flat index y of unit u's declaration j, by induction on the units before u. */
  lemma {:induction false} RuleRunsIndex(ruleType: string, shelfBase: int, regSize: int, sec: Items, i: nat, shelfNo: int,
                                         u: int, j: nat, y: int)
    requires PlainFrom(sec, 0) && (ruleType == "BOOL" || ruleType == "WORD")
    requires i <= u < shelfNo && j < |sec| && y == (u - i) * |sec| + j
    ensures 0 <= y < |RuleRuns(ruleType, shelfBase, regSize, sec, i, shelfNo)|
    ensures RuleRuns(ruleType, shelfBase, regSize, sec, i, shelfNo)[y] == ShelfTag(ruleType, shelfBase, regSize, sec, u, j)
    decreases shelfNo - i
  {
    UnitIndex(i, u, shelfNo, |sec|, j);
    if u == i {
      RuleRunsHead(ruleType, shelfBase, regSize, sec, i, shelfNo, j);
    } else {
      var x := (u - (i + 1)) * |sec| + j;
      RuleRunsIndex(ruleType, shelfBase, regSize, sec, i + 1, shelfNo, u, j, x);
      RuleRunsTail(ruleType, shelfBase, regSize, sec, i, shelfNo, x);
    }
  }

  /** The first |sec| tags of units i.. are unit i's, in declaration order. */
  lemma RuleRunsHead(ruleType: string, shelfBase: int, regSize: int, sec: Items, i: nat, shelfNo: int, j: nat)
    requires PlainFrom(sec, 0) && (ruleType == "BOOL" || ruleType == "WORD")
    requires i < shelfNo && j < |sec|
    ensures j < |RuleRuns(ruleType, shelfBase, regSize, sec, i, shelfNo)|
    ensures RuleRuns(ruleType, shelfBase, regSize, sec, i, shelfNo)[j] == ShelfTag(ruleType, shelfBase, regSize, sec, i, j)
  {
    RuleRunsStep(ruleType, shelfBase, regSize, sec, i, shelfNo);
    var unit := RuleRun(ruleType, ShelfPrefix(i), sec, 0, ShelfStart(shelfBase, regSize, i));
    RuleRunLayout(ruleType, ShelfPrefix(i), sec, 0, ShelfStart(shelfBase, regSize, i));
    ConcatIndexLeft(unit, RuleRuns(ruleType, shelfBase, regSize, sec, i + 1, shelfNo), j);
  }

  /** After unit i's |sec| tags come the tags of units i+1.. */
  lemma RuleRunsTail(ruleType: string, shelfBase: int, regSize: int, sec: Items, i: nat, shelfNo: int, x: nat)
    requires PlainFrom(sec, 0) && (ruleType == "BOOL" || ruleType == "WORD")
    requires i < shelfNo && x < |RuleRuns(ruleType, shelfBase, regSize, sec, i + 1, shelfNo)|
    ensures |sec| + x < |RuleRuns(ruleType, shelfBase, regSize, sec, i, shelfNo)|
    ensures RuleRuns(ruleType, shelfBase, regSize, sec, i, shelfNo)[|sec| + x]
            == RuleRuns(ruleType, shelfBase, regSize, sec, i + 1, shelfNo)[x]
  {
    RuleRunsStep(ruleType, shelfBase, regSize, sec, i, shelfNo);
    var unit := RuleRun(ruleType, ShelfPrefix(i), sec, 0, ShelfStart(shelfBase, regSize, i));
    ConcatAt(unit, RuleRuns(ruleType, shelfBase, regSize, sec, i + 1, shelfNo), |sec| + x);
  }

  /** For every unit u < shelf_no the HMI cursor restarts at shelf_base + u * shelf_reg_size,
      as in the global table; within the unit, every declaration advances it by the
      step of the last array element type seen before the shelf pass, and the
      pass leaves that type as it found it. */
  lemma ShelvesHmiAt(shelfBase: int, regSize: int, sec: Items, shelfNo: int, ruleType: string, u: int, j: nat)
    requires AllNumericFrom(sec, 0) && PlainFrom(sec, 0) && (ruleType == "BOOL" || ruleType == "WORD")
    requires 0 <= u < shelfNo && j < |sec|
    ensures ShelvesHmi(shelfBase, regSize, sec, 0, shelfNo, Some(ruleType)).Success?
    ensures ShelvesHmi(shelfBase, regSize, sec, 0, shelfNo, Some(ruleType)).value.arrayType == Some(ruleType)
    ensures |ShelvesHmi(shelfBase, regSize, sec, 0, shelfNo, Some(ruleType)).value.placed| == shelfNo * |sec|
    ensures 0 <= u * |sec| + j < |ShelvesHmi(shelfBase, regSize, sec, 0, shelfNo, Some(ruleType)).value.placed|
    ensures ShelvesHmi(shelfBase, regSize, sec, 0, shelfNo, Some(ruleType)).value.placed[u * |sec| + j]
            == HmiPlaced(ShelfPrefix(u) + sec[j].0, TranslateVarTypeHmiTag(sec[j].1.typ).value,
                         ShelfStart(shelfBase, regSize, u) + RuleStepSum(sec, ruleType, 0, j), sec[j].1.typ)
  {
    var ps := RuleRuns(ruleType, shelfBase, regSize, sec, 0, shelfNo);
    ShelvesHmiPlain(shelfBase, regSize, sec, 0, shelfNo, ruleType);
    RuleRunsLength(ruleType, shelfBase, regSize, sec, 0, shelfNo);
    assert |ps| == shelfNo * |sec|;
    RuleRunsIndex(ruleType, shelfBase, regSize, sec, 0, shelfNo, u, j, u * |sec| + j);
  }

  /** From declaration j on, hidden declarations only move the cursor, so the first
      visible declaration, plain at index k, is reached with no array type seen
      and its offset rule reads an unbound name. */
  lemma {:induction false} HiddenThenPlainUnbound(prefix: string, sec: Items, j: nat, k: nat, c: int)
    requires AllNumericFrom(sec, 0) && j <= k < |sec|
    requires forall m :: j <= m < k ==> !sec[m].1.hmiTag
    requires sec[k].1.hmiTag && (sec[k].1.typ == "BOOL" || sec[k].1.typ == "WORD")
    ensures HmiUnit(Shelf, prefix, sec, j, c, None) == Failure(UnboundName)
    decreases k - j
  {
    assert sec[j].1.addrOffset.Some?;
    if j == k {
      PlainIsNotArray(sec[k].1.typ);
      assert HmiDecl(Shelf, prefix + sec[k].0, sec[k].1, c, None) == Failure(UnboundName);
    } else {
      assert HmiDecl(Shelf, prefix + sec[j].0, sec[j].1, c, None)
             == Success(HmiStep([], c + sec[j].1.addrOffset.value, None));
      HiddenThenPlainUnbound(prefix, sec, j + 1, k, c + sec[j].1.addrOffset.value);
    }
  }

  /** While no array declaration has been seen, a shelf section whose first visible
      declaration is a plain BOOL or WORD one stops the run at the first shelf unit:
      that declaration's offset rule reads an unbound name. What follows it in the
      section does not matter. */
  lemma ShelvesHmiUnbound(shelfBase: int, regSize: int, sec: Items, shelfNo: int, k: nat)
    requires AllNumericFrom(sec, 0) && k < |sec| && shelfNo >= 1
    requires forall m :: 0 <= m < k ==> !sec[m].1.hmiTag
    requires sec[k].1.hmiTag && (sec[k].1.typ == "BOOL" || sec[k].1.typ == "WORD")
    ensures ShelvesHmi(shelfBase, regSize, sec, 0, shelfNo, None) == Failure(UnboundName)
  {
    HiddenThenPlainUnbound(ShelfPrefix(0), sec, 0, k, ShelfStart(shelfBase, regSize, 0));
  }
}
