/** The three passes of main that fill the global-variable table from offsets
    (global_variable_generator.py:61-91): constants, pumps, and the shelf
    declarations repeated for every shelf unit. Cursors are in tenths. */
module GlobalPasses {
  import opened Wrappers
  import opened Strings
  import opened Cells
  import opened OrderedMaps
  import opened Tables
  import opened Readers
  import opened Addresses

  /** A section's declarations as `dict.items()` yields them: (name, declaration)
      in sheet order. */
  type Items = seq<(string, VarDecl)>

  /** Every declaration from the k-th on has a non-blank offset. */
  predicate AllNumericFrom(sec: Items, k: nat) {
    forall j :: k <= j < |sec| ==> sec[j].1.addrOffset.Some?
  }

  /** int(offset) of the j-th declaration (0 for a blank offset). */
  function Words(sec: Items, j: nat): int
    requires j < |sec|
  {
    match sec[j].1.addrOffset
    case Some(t) => TruncTenths(t)
    case None => 0
  }

  /** The sum of int(offset) over the declarations lo .. hi-1. */
  function WordSum(sec: Items, lo: nat, hi: nat): int
    requires lo <= hi <= |sec|
    decreases hi - lo
  {
    if lo == hi then 0 else Words(sec, lo) + WordSum(sec, lo + 1, hi)
  }

  /** A declaration placed at a cursor under a name: the write the pass issues
      before its address is formatted. */
  datatype Placed = Placed(name: string, cursor: int, decl: VarDecl)

  /** table[name] = {"addr": "D" + the cursor, "type": ..., "init_value": ...}. */
  function WriteOf(p: Placed): GlobalWrite {
    (p.name, GlobalRec(DAddress(p.cursor, IsBool(p.decl.typ)), p.decl.typ, p.decl.initValue))
  }

  /** The writes of a sequence of placements, in order. */
  function WritesOf(ps: seq<Placed>): (ws: seq<GlobalWrite>)
    ensures |ws| == |ps| && forall i :: 0 <= i < |ps| ==> ws[i] == WriteOf(ps[i])
  {
    seq(|ps|, i requires 0 <= i < |ps| => WriteOf(ps[i]))
  }

  lemma WritesOfAppend(a: seq<Placed>, b: seq<Placed>)
    ensures WritesOf(a + b) == WritesOf(a) + WritesOf(b)
  {
  }

  /** The constants pass from the k-th constant on: the cursor first advances by
      int(offset), then the constant takes the address (lines 62-69). */
  function ConstantsGlobal(cursor: int, sec: Items, k: nat): Result<seq<Placed>>
    requires k <= |sec|
    decreases |sec| - k
  {
    if k == |sec| then Success([])
    else
      var d := sec[k].1;
      match OffsetWords(d.addrOffset)
      case Failure(e) => Failure(e)
      case Success(w) =>
        var next := cursor + 10 * w;
        Prepend([Placed(sec[k].0, next, d)],
                ConstantsGlobal(next, sec, k + 1))
  }

  /** The pump pass, and one shelf unit's pass, from the k-th declaration on: the
      declaration takes the address, then the cursor advances by int(offset)
      (lines 72-79, 83-91). */
  function UnitGlobal(prefix: string, cursor: int, sec: Items, k: nat): Result<seq<Placed>>
    requires k <= |sec|
    decreases |sec| - k
  {
    if k == |sec| then Success([])
    else
      var d := sec[k].1;
      match OffsetWords(d.addrOffset)
      case Failure(e) => Failure(e)
      case Success(w) =>
        Prepend([Placed(prefix + sec[k].0, cursor, d)],
                UnitGlobal(prefix, cursor + 10 * w, sec, k + 1))
  }

  /** The shelf pass from unit i on: unit i starts at shelf_base + i * shelf_reg_size
      (regSize in tenths) and prefixes its names with "s{i}_" (lines 82-91). */
  function ShelvesGlobal(shelfBase: int, regSize: int, sec: Items, i: nat, shelfNo: int): Result<seq<Placed>>
        decreases shelfNo - i
  {
    if i >= shelfNo then Success([])
    else
      match UnitGlobal(ShelfPrefix(i), ShelfStart(shelfBase, regSize, i), sec, 0)
      case Failure(e) => Failure(e)
      case Success(u) => Prepend(u, ShelvesGlobal(shelfBase, regSize, sec, i + 1, shelfNo))
  }

  /** The constants pass succeeds exactly when no offset is blank; then the j-th
      constant gets the base plus the sum of int(offset) up to and INCLUDING its own. */
  lemma {:induction false} ConstantsGlobalLayout(cursor: int, sec: Items, k: nat)
    requires k <= |sec|
    ensures ConstantsGlobal(cursor, sec, k).Success? <==> AllNumericFrom(sec, k)
    ensures AllNumericFrom(sec, k) ==>
      var ws := ConstantsGlobal(cursor, sec, k).value;
      && |ws| == |sec| - k
      && forall j :: k <= j < |sec| ==>
           ws[j - k] == Placed(sec[j].0, cursor + 10 * WordSum(sec, k, j + 1), sec[j].1)
    decreases |sec| - k
  {
    if k < |sec| {
      var next := cursor + 10 * Words(sec, k);
      ConstantsGlobalLayout(next, sec, k + 1);
      if AllNumericFrom(sec, k) {
        var ws := ConstantsGlobal(cursor, sec, k).value;
        var rest := ConstantsGlobal(next, sec, k + 1).value;
        assert ws == [ws[0]] + rest;
        forall j | k < j < |sec|
          ensures ws[j - k] == Placed(sec[j].0, cursor + 10 * WordSum(sec, k, j + 1), sec[j].1)
        {
          assert ws[j - k] == rest[j - (k + 1)];
        }
      }
    }
  }

  /** A pump or shelf-unit pass succeeds exactly when no offset is blank; then the
      j-th declaration gets the start plus the sum of int(offset) over the
      declarations BEFORE it, under its prefixed name. */
  lemma {:induction false} UnitGlobalLayout(prefix: string, cursor: int, sec: Items, k: nat)
    requires k <= |sec|
    ensures UnitGlobal(prefix, cursor, sec, k).Success? <==> AllNumericFrom(sec, k)
    ensures AllNumericFrom(sec, k) ==>
      var ws := UnitGlobal(prefix, cursor, sec, k).value;
      && |ws| == |sec| - k
      && forall j :: k <= j < |sec| ==>
           ws[j - k] == Placed(prefix + sec[j].0, cursor + 10 * WordSum(sec, k, j), sec[j].1)
    decreases |sec| - k
  {
    if k < |sec| {
      var next := cursor + 10 * Words(sec, k);
      UnitGlobalLayout(prefix, next, sec, k + 1);
      if AllNumericFrom(sec, k) {
        var ws := UnitGlobal(prefix, cursor, sec, k).value;
        var rest := UnitGlobal(prefix, next, sec, k + 1).value;
        assert ws == [ws[0]] + rest;
        forall j | k < j < |sec|
          ensures ws[j - k] == Placed(prefix + sec[j].0, cursor + 10 * WordSum(sec, k, j), sec[j].1)
        {
          assert ws[j - k] == rest[j - (k + 1)];
        }
      }
    }
  }

  /** With no blank offset the shelf pass writes every declaration once per unit. */
  lemma {:induction false} ShelvesGlobalLength(shelfBase: int, regSize: int, sec: Items, i: nat, shelfNo: int)
    requires AllNumericFrom(sec, 0)
    ensures var r := ShelvesGlobal(shelfBase, regSize, sec, i, shelfNo);
      r.Success? && |r.value| == (if i < shelfNo then (shelfNo - i) * |sec| else 0)
    decreases shelfNo - i
  {
    if i < shelfNo {
      UnitGlobalLayout(ShelfPrefix(i), ShelfStart(shelfBase, regSize, i), sec, 0);
      ShelvesGlobalLength(shelfBase, regSize, sec, i + 1, shelfNo);
      assert (shelfNo - i) * |sec| == |sec| + (shelfNo - (i + 1)) * |sec|;
    }
  }

  /** The index of the j-th of k declarations of unit u, counted from the start of
      unit i: it lies within units i .. shelf_no - 1, and it is k more than the
      same index counted from the start of unit i + 1. */
  lemma UnitIndex(i: int, u: int, shelfNo: int, k: nat, j: nat)
    requires i <= u < shelfNo && j < k
    ensures 0 <= (u - i) * k + j < (shelfNo - i) * k
    ensures u == i ==> (u - i) * k + j == j
    ensures u > i ==> (u - i) * k + j == k + ((u - (i + 1)) * k + j)
  {
    MulSucc(u - i, k);
    MulMono(u - i + 1, shelfNo - i, k);
    MulSucc(u - (i + 1), k);
  }

  lemma MulSucc(a: int, k: int)
    ensures (a + 1) * k == a * k + k
  {
  }

  lemma {:induction false} MulMono(a: nat, b: nat, k: nat)
    requires a <= b
    ensures 0 <= a * k <= b * k
    decreases b - a
  {
    if a < b {
      MulMono(a + 1, b, k);
      MulSucc(a, k);
    }
  }

  /** For every unit u < shelf_no the cursor restarts at shelf_base + u * shelf_reg_size:
      the j-th shelf declaration of unit u is named "s{u}_<name>" and placed at
      that start plus the offsets of the declarations before it. */
  lemma {:induction false} ShelvesGlobalAt(shelfBase: int, regSize: int, sec: Items, i: nat, shelfNo: int, u: int, j: nat)
    requires AllNumericFrom(sec, 0) && i <= u < shelfNo && j < |sec|
    ensures var r := ShelvesGlobal(shelfBase, regSize, sec, i, shelfNo);
      && r.Success?
      && 0 <= (u - i) * |sec| + j < |r.value|
      && r.value[(u - i) * |sec| + j]
         == Placed(ShelfPrefix(u) + sec[j].0, ShelfStart(shelfBase, regSize, u) + 10 * WordSum(sec, 0, j), sec[j].1)
    decreases shelfNo - i
  {
    var k := |sec|;
    ShelvesGlobalLength(shelfBase, regSize, sec, i, shelfNo);
    ShelvesGlobalStep(shelfBase, regSize, sec, i, shelfNo);
    var unit := UnitGlobal(ShelfPrefix(i), ShelfStart(shelfBase, regSize, i), sec, 0).value;
    var rest := ShelvesGlobal(shelfBase, regSize, sec, i + 1, shelfNo).value;
    var p := (u - i) * k + j;
    UnitIndex(i, u, shelfNo, k, j);
    if u == i {
      UnitGlobalLayout(ShelfPrefix(i), ShelfStart(shelfBase, regSize, i), sec, 0);
    } else {
      ShelvesGlobalAt(shelfBase, regSize, sec, i + 1, shelfNo, u, j);
      ConcatAt(unit, rest, p);
    }
  }

  /** The shelf pass from unit i is unit i's pass followed by the rest. */
  lemma ShelvesGlobalStep(shelfBase: int, regSize: int, sec: Items, i: nat, shelfNo: int)
    requires AllNumericFrom(sec, 0) && i < shelfNo
    ensures var unit := UnitGlobal(ShelfPrefix(i), ShelfStart(shelfBase, regSize, i), sec, 0);
      var rest := ShelvesGlobal(shelfBase, regSize, sec, i + 1, shelfNo);
      && unit.Success? && rest.Success? && |unit.value| == |sec|
      && ShelvesGlobal(shelfBase, regSize, sec, i, shelfNo).value == unit.value + rest.value
  {
    UnitGlobalLayout(ShelfPrefix(i), ShelfStart(shelfBase, regSize, i), sec, 0);
    ShelvesGlobalLength(shelfBase, regSize, sec, i + 1, shelfNo);
  }

  lemma ConcatIndexLeft<T>(a: seq<T>, b: seq<T>, x: int)
    requires 0 <= x < |a|
    ensures (a + b)[x] == a[x]
  {
  }

  lemma ConcatAt<T>(a: seq<T>, b: seq<T>, x: int)
    requires |a| <= x < |a| + |b|
    ensures (a + b)[x] == b[x - |a|]
  {
  }
}
