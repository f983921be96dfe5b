/** The I/O pass of main (global_variable_generator.py:258-265): every I/O point
    goes into the global table with its literal address, and a point marked for
    the HMI also goes into the HMI table, its address behind the PLC prefix. */
module IoPass {
  import opened OrderedMaps
  import opened Tables
  import opened Readers
  import opened Addresses

  type IoItems = seq<(string, IoDecl)>

  /** The global-table write of an I/O point. */
  function IoGlobalWrite(item: (string, IoDecl)): GlobalWrite {
    (item.0, GlobalRec(item.1.addr, item.1.typ, item.1.initValue))
  }

  /** The HMI-table write of an I/O point. */
  function IoHmiWrite(item: (string, IoDecl)): HmiWrite {
    (item.0, HmiRec(item.1.typ, HmiTagPlcName + item.1.addr))
  }

  /** One global write per point, in order, each with the point's own address. */
  function IoGlobalWrites(items: IoItems): (ws: seq<GlobalWrite>)
    ensures |ws| == |items|
    ensures forall i :: 0 <= i < |items| ==> ws[i] == IoGlobalWrite(items[i])
  {
    seq(|items|, i requires 0 <= i < |items| => IoGlobalWrite(items[i]))
  }

  /** The HMI writes of the points marked for the HMI, in order. */
  function IoHmiWrites(items: IoItems): seq<HmiWrite>
    decreases |items|
  {
    if items == [] then []
    else
      var last := items[|items| - 1];
      IoHmiWrites(items[..|items| - 1]) + (if last.1.hmiTag then [IoHmiWrite(last)] else [])
  }

  /** The number of points among the first n that are marked for the HMI. */
  function VisibleCount(items: IoItems, n: nat): nat
    requires n <= |items|
  {
    if n == 0 then 0 else VisibleCount(items, n - 1) + (if items[n - 1].1.hmiTag then 1 else 0)
  }

  /** The HMI table gets exactly the marked points, in order: the marked point i
      is the write numbered by the marked points before it. */
  lemma {:induction false} IoHmiWritesAt(items: IoItems, i: nat)
    requires i < |items| && items[i].1.hmiTag
    ensures |IoHmiWrites(items)| == VisibleCount(items, |items|)
    ensures VisibleCount(items, i) < |IoHmiWrites(items)|
    ensures IoHmiWrites(items)[VisibleCount(items, i)] == IoHmiWrite(items[i])
    decreases |items|
  {
    var init := items[..|items| - 1];
    IoHmiWritesLength(items);
    IoHmiWritesLength(init);
    VisibleCountPrefix(items, |items| - 1, |items| - 1);
    VisibleCountPrefix(items, |items| - 1, i);
    if i < |items| - 1 {
      IoHmiWritesAt(init, i);
      assert init[i] == items[i];
    }
  }

  lemma {:induction false} IoHmiWritesLength(items: IoItems)
    ensures |IoHmiWrites(items)| == VisibleCount(items, |items|)
    decreases |items|
  {
    if items != [] {
      var init := items[..|items| - 1];
      IoHmiWritesLength(init);
      VisibleCountPrefix(items, |items| - 1, |items| - 1);
    }
  }

  /** Counting within a prefix is counting within the whole. */
  lemma {:induction false} VisibleCountPrefix(items: IoItems, m: nat, n: nat)
    requires n <= m <= |items|
    ensures VisibleCount(items[..m], n) == VisibleCount(items, n)
  {
    if n > 0 {
      VisibleCountPrefix(items, m, n - 1);
      assert items[..m][n - 1] == items[n - 1];
    }
  }

  /** Every HMI write of the pass comes from a point marked for the HMI. */
  lemma {:induction false} IoHmiWritesFrom(items: IoItems, k: nat)
    requires k < |IoHmiWrites(items)|
    ensures exists i :: 0 <= i < |items| && items[i].1.hmiTag && IoHmiWrites(items)[k] == IoHmiWrite(items[i])
    decreases |items|
  {
    var init := items[..|items| - 1];
    var last := items[|items| - 1];
    if k < |IoHmiWrites(init)| {
      IoHmiWritesFrom(init, k);
      var i :| 0 <= i < |init| && init[i].1.hmiTag && IoHmiWrites(init)[k] == IoHmiWrite(init[i]);
      assert items[i] == init[i];
    } else {
      assert IoHmiWrites(items)[k] == IoHmiWrite(last);
    }
  }

  // ---- The loop of main ----

  /** gc and hc are g0 and h0 after the points of items were written. */
  ghost predicate IoWritten(gc: OrderedMap<GlobalRec>, hc: OrderedMap<HmiRec>, g0: OrderedMap<GlobalRec>, h0: OrderedMap<HmiRec>, items: IoItems) {
    && gc == InsertAll(g0, IoGlobalWrites(items))
    && hc == InsertAll(h0, IoHmiWrites(items))
  }

  /** The I/O loop (lines 258-265). */
  method IoLoop(g: Table<GlobalRec>, h: Table<HmiRec>, items: IoItems)
    requires g.Valid() && h.Valid() && (g as object) != (h as object)
    modifies g, h
    ensures g.Valid() && h.Valid()
    ensures IoWritten(g.Contents(), h.Contents(), old(g.Contents()), old(h.Contents()), items)
  {
    var k := 0;
    while k < |items|
      invariant 0 <= k <= |items|
      invariant g.Valid() && h.Valid()
      invariant IoWritten(g.Contents(), h.Contents(), old(g.Contents()), old(h.Contents()), items[..k])
    {
      ghost var g1, h1 := g.Contents(), h.Contents();
      var (ioName, io) := items[k];
      WriteRecGlobVarTable(g, ioName, io.addr, io.typ, io.initValue);
      if io.hmiTag {
        WriteRecHmiTagTable(h, ioName, io.typ, HmiTagPlcName + io.addr);
      }
      IoStep(old(g.Contents()), old(h.Contents()), g1, h1, g.Contents(), h.Contents(), items, k);
      k := k + 1;
    }
    assert items[..|items|] == items;
  }

  /** Point k goes into the global table, and into the HMI table when it is
      marked; then the points 0 .. k are written. */
  lemma IoStep(g0: OrderedMap<GlobalRec>, h0: OrderedMap<HmiRec>, g1: OrderedMap<GlobalRec>, h1: OrderedMap<HmiRec>,
               g2: OrderedMap<GlobalRec>, h2: OrderedMap<HmiRec>, items: IoItems, k: nat)
    requires k < |items| && IoWritten(g1, h1, g0, h0, items[..k])
    requires g2 == g1.Insert(items[k].0, GlobalRec(items[k].1.addr, items[k].1.typ, items[k].1.initValue))
    requires h2 == if items[k].1.hmiTag then h1.Insert(items[k].0, HmiRec(items[k].1.typ, HmiTagPlcName + items[k].1.addr)) else h1
    ensures IoWritten(g2, h2, g0, h0, items[..k + 1])
  {
    var prefix := items[..k + 1];
    assert prefix[..|prefix| - 1] == items[..k];
    assert IoGlobalWrites(prefix) == IoGlobalWrites(items[..k]) + [IoGlobalWrite(items[k])];
    InsertAllSnoc(g0, IoGlobalWrites(items[..k]), IoGlobalWrite(items[k]));
    if items[k].1.hmiTag {
      InsertAllSnoc(h0, IoHmiWrites(items[..k]), IoHmiWrite(items[k]));
    } else {
      assert IoHmiWrites(items[..k]) + [] == IoHmiWrites(items[..k]);
    }
  }
}
