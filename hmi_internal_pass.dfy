/** The HMI-internal pass of main (global_variable_generator.py:268-282): the
    HMI's own variables get "$" addresses from a cursor in whole words that
    starts at the section's base and moves by int(offset) per variable. */
module HmiInternalPass {
  import opened Wrappers
  import opened Strings
  import opened Cells
  import opened OrderedMaps
  import opened Tables
  import opened Readers
  import opened Addresses

  type InternalItems = seq<(string, HmiInternalDecl)>

  /** "$" + str(round(float(cursor), 1)) for a BIT, "$" + str(cursor) for a WORD;
      the cursor is in whole words. */
  function InternalAddress(typ: string, cursor: int): string {
    if typ == "BIT" then "$" + TenthsToString(10 * cursor) else "$" + IntToString(cursor)
  }

  /** A variable placed at a cursor, before its address is formatted. */
  datatype InternalPlaced = InternalPlaced(name: string, typ: string, cursor: int)

  /** hmi_tag_table[name] = {"type": typ, "addr": "$" + the cursor}. */
  function InternalWriteOf(p: InternalPlaced): HmiWrite {
    (p.name, HmiRec(p.typ, InternalAddress(p.typ, p.cursor)))
  }

  function InternalWritesOf(ps: seq<InternalPlaced>): (ws: seq<HmiWrite>)
    ensures |ws| == |ps| && forall i :: 0 <= i < |ps| ==> ws[i] == InternalWriteOf(ps[i])
  {
    seq(|ps|, i requires 0 <= i < |ps| => InternalWriteOf(ps[i]))
  }

  /** The pass from the k-th variable on: a type other than BIT or WORD raises
      before anything else, and int(offset) is taken after the tag is placed. */
  function InternalPass(cursor: int, items: InternalItems, k: nat): Result<seq<InternalPlaced>>
    requires k <= |items|
    decreases |items| - k
  {
    if k == |items| then Success([])
    else
      var (name, d) := items[k];
      if d.typ != "BIT" && d.typ != "WORD" then Failure(InvalidType)
      else
        match OffsetWords(d.addrOffset)
        case Failure(e) => Failure(e)
        case Success(w) => Prepend([InternalPlaced(name, d.typ, cursor)], InternalPass(cursor + w, items, k + 1))
  }

  /** A variable the pass accepts: a BIT or WORD with a non-blank offset. */
  predicate Accepted(d: HmiInternalDecl) {
    (d.typ == "BIT" || d.typ == "WORD") && d.addrOffset.Some?
  }

  /** int(offset) of the j-th variable (0 for a blank offset). */
  function InternalWords(items: InternalItems, j: nat): int
    requires j < |items|
  {
    match items[j].1.addrOffset
    case Some(t) => TruncTenths(t)
    case None => 0
  }

  /** The cursor before the variable hi: the base plus int(offset) of lo .. hi-1. */
  function InternalCursor(base: int, items: InternalItems, lo: nat, hi: nat): int
    requires lo <= hi <= |items|
    decreases hi - lo
  {
    if lo == hi then base else InternalCursor(base + InternalWords(items, lo), items, lo + 1, hi)
  }

  /** The pass succeeds exactly when every variable is accepted; then variable j
      is placed under its own name and type at the base plus int(offset) of the
      variables before it. */
  lemma {:induction false} InternalLayout(cursor: int, items: InternalItems, k: nat)
    requires k <= |items|
    ensures InternalPass(cursor, items, k).Success? <==> forall j :: k <= j < |items| ==> Accepted(items[j].1)
    ensures InternalPass(cursor, items, k).Success? ==>
      var ps := InternalPass(cursor, items, k).value;
      && |ps| == |items| - k
      && forall j :: k <= j < |items| ==>
           ps[j - k] == InternalPlaced(items[j].0, items[j].1.typ, InternalCursor(cursor, items, k, j))
    decreases |items| - k
  {
    if k < |items| {
      var d := items[k].1;
      if Accepted(d) {
        var w := TruncTenths(d.addrOffset.value);
        InternalLayout(cursor + w, items, k + 1);
        var r := InternalPass(cursor + w, items, k + 1);
        if r.Success? {
          forall j | k < j < |items|
            ensures InternalCursor(cursor, items, k, j) == InternalCursor(cursor + w, items, k + 1, j)
          {
          }
        }
      }
    }
  }

  /** The type is checked before the offset: after accepted variables, a variable
      of any type but BIT or WORD raises InvalidType, and a BIT or WORD variable
      with a blank offset raises ValueError. */
  lemma {:induction false} InternalFirstError(cursor: int, items: InternalItems, k: nat, m: nat)
    requires k <= m < |items|
    requires forall j :: k <= j < m ==> Accepted(items[j].1)
    requires !Accepted(items[m].1)
    ensures InternalPass(cursor, items, k)
         == Failure(if items[m].1.typ == "BIT" || items[m].1.typ == "WORD" then ValueError else InvalidType)
    decreases m - k
  {
    if k < m {
      InternalFirstError(cursor + InternalWords(items, k), items, k + 1, m);
    }
  }

  /** With offsets of at least one word, later variables sit at strictly higher
      addresses, so no two variables share a cursor. */
  lemma {:induction false} InternalCursorIncreases(base: int, items: InternalItems, lo: nat, i: nat, j: nat)
    requires lo <= i < j <= |items|
    requires forall x :: lo <= x < |items| ==> InternalWords(items, x) >= 1
    ensures InternalCursor(base, items, lo, i) < InternalCursor(base, items, lo, j)
    decreases j - lo
  {
    if lo < i {
      InternalCursorIncreases(base + InternalWords(items, lo), items, lo + 1, i, j);
    } else {
      InternalCursorAtLeast(base + InternalWords(items, lo), items, lo + 1, j);
    }
  }

  lemma {:induction false} InternalCursorAtLeast(base: int, items: InternalItems, lo: nat, hi: nat)
    requires lo <= hi <= |items|
    requires forall x :: lo <= x < |items| ==> InternalWords(items, x) >= 1
    ensures InternalCursor(base, items, lo, hi) >= base
    decreases hi - lo
  {
    if lo < hi {
      InternalCursorAtLeast(base + InternalWords(items, lo), items, lo + 1, hi);
    }
  }

  // ---- The loop of main ----

  /** After the variables before k: the tags of done are written to h0, giving hc,
      and the whole pass is done followed by the pass from k at the cursor. */
  ghost predicate InternalSoFar(hc: OrderedMap<HmiRec>, h0: OrderedMap<HmiRec>, base: int, items: InternalItems,
                                done: seq<InternalPlaced>, cursor: int, k: nat)
  {
    && k <= |items|
    && InternalPass(base, items, 0) == Prepend(done, InternalPass(cursor, items, k))
    && hc == InsertAll(h0, InternalWritesOf(done))
  }

  /** The HMI-internal loop (lines 268-282): the address is formatted from the
      cursor by type, the tag is written, and only then is int(offset) taken. */
  method InternalLoop(h: Table<HmiRec>, base: int, items: InternalItems) returns (r: Result<()>)
    requires h.Valid()
    modifies h
    ensures h.Valid()
    ensures r.Success? <==> InternalPass(base, items, 0).Success?
    ensures r.Failure? ==> r.error == InternalPass(base, items, 0).error
    ensures r.Success? ==> h.Contents() == InsertAll(old(h.Contents()), InternalWritesOf(InternalPass(base, items, 0).value))
  {
    ghost var done: seq<InternalPlaced> := [];
    InternalStart(old(h.Contents()), base, items);
    var cursor := base;
    var k := 0;
    while k < |items|
      invariant h.Valid()
      invariant InternalSoFar(h.Contents(), old(h.Contents()), base, items, done, cursor, k)
    {
      ghost var h1 := h.Contents();
      var (varName, d) := items[k];
      var addr := "$";
      if d.typ == "BIT" {
        addr := addr + TenthsToString(10 * cursor);
      } else if d.typ == "WORD" {
        addr := addr + IntToString(cursor);
      } else {
        InternalRaises(h1, old(h.Contents()), base, items, done, cursor, k);
        return Failure(InvalidType);
      }
      WriteRecHmiTagTable(h, varName, d.typ, addr);
      if d.addrOffset.None? {
        InternalRaises(h1, old(h.Contents()), base, items, done, cursor, k);
        return Failure(ValueError);
      }
      var w := TruncTenths(d.addrOffset.value);
      InternalAdvance(old(h.Contents()), h1, h.Contents(), base, items, done, cursor, k, w);
      done := done + [InternalPlaced(varName, d.typ, cursor)];
      cursor := cursor + w;
      k := k + 1;
    }
    InternalEnd(h.Contents(), old(h.Contents()), base, items, done, cursor);
    return Success(());
  }

  lemma InternalStart(h0: OrderedMap<HmiRec>, base: int, items: InternalItems)
    ensures InternalSoFar(h0, h0, base, items, [], base, 0)
  {
    PrependNothing([], InternalPass(base, items, 0));
  }

  /** An accepted variable is placed at the cursor and written; the rest follow it. */
  lemma InternalAdvance(h0: OrderedMap<HmiRec>, h1: OrderedMap<HmiRec>, h2: OrderedMap<HmiRec>, base: int, items: InternalItems,
                        done: seq<InternalPlaced>, cursor: int, k: nat, w: int)
    requires InternalSoFar(h1, h0, base, items, done, cursor, k)
    requires k < |items| && Accepted(items[k].1) && w == TruncTenths(items[k].1.addrOffset.value)
    requires h2 == h1.Insert(items[k].0, HmiRec(items[k].1.typ, InternalAddress(items[k].1.typ, cursor)))
    ensures InternalSoFar(h2, h0, base, items, done + [InternalPlaced(items[k].0, items[k].1.typ, cursor)], cursor + w, k + 1)
  {
    var p := InternalPlaced(items[k].0, items[k].1.typ, cursor);
    InternalPassCons(items, cursor, k, w);
    PrependTwice(done, [p], InternalPass(cursor + w, items, k + 1));
    assert InternalWritesOf(done + [p]) == InternalWritesOf(done) + [InternalWriteOf(p)];
    InsertAllSnoc(h0, InternalWritesOf(done), InternalWriteOf(p));
  }

  /** An accepted variable is placed at the cursor, before the variables after it. */
  lemma InternalPassCons(items: InternalItems, cursor: int, k: nat, w: int)
    requires k < |items| && Accepted(items[k].1) && w == TruncTenths(items[k].1.addrOffset.value)
    ensures InternalPass(cursor, items, k)
            == Prepend([InternalPlaced(items[k].0, items[k].1.typ, cursor)], InternalPass(cursor + w, items, k + 1))
  {
  }

  /** A variable that is not accepted ends the pass with its exception. */
  lemma InternalRaises(h1: OrderedMap<HmiRec>, h0: OrderedMap<HmiRec>, base: int, items: InternalItems,
                       done: seq<InternalPlaced>, cursor: int, k: nat)
    requires InternalSoFar(h1, h0, base, items, done, cursor, k)
    requires k < |items| && !Accepted(items[k].1)
    ensures InternalPass(base, items, 0)
            == Failure(if items[k].1.typ == "BIT" || items[k].1.typ == "WORD" then ValueError else InvalidType)
  {
  }

  /** After the last variable, the pass is exactly the variables placed. */
  lemma InternalEnd(hc: OrderedMap<HmiRec>, h0: OrderedMap<HmiRec>, base: int, items: InternalItems,
                    done: seq<InternalPlaced>, cursor: int)
    requires InternalSoFar(hc, h0, base, items, done, cursor, |items|)
    ensures InternalPass(base, items, 0) == Success(done)
    ensures hc == InsertAll(h0, InternalWritesOf(done))
  {
    assert done + [] == done;
  }
}
