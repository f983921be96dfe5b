/** Address strings and the shared vocabulary of the allocation walk in main. */
module Addresses {
  import opened Wrappers
  import opened Strings
  import opened Cells
  import opened Tables

  /** The PLC link identifier that prefixes every HMI address of a PLC variable. */
  const HmiTagPlcName: string := "{EtherLink1}1@"

  /** One assignment table[name] = record, as main issues them. */
  type GlobalWrite = (string, GlobalRec)
  type HmiWrite = (string, HmiRec)

  /** main's `"BOOL" in type` test. */
  predicate IsBool(typ: string) {
    Contains(typ, "BOOL")
  }

  /** "D{}".format(round(float(c), 1) if bool else int(c)) for a cursor c in tenths. */
  function DAddress(cursor: int, isBool: bool): string {
    "D" + (if isBool then TenthsToString(cursor) else IntToString(TruncTenths(cursor)))
  }

  /** A bit address reads back as the cursor itself (one decimal digit), a word
      address as the cursor truncated to a whole word. */
  lemma DAddressReadsBack(cursor: int, isBool: bool)
    ensures DAddress(cursor, isBool)[0] == 'D'
    ensures isBool ==> ParseTenths(DAddress(cursor, isBool)[1..]) == Some(cursor)
    ensures !isBool ==> ParseInt(DAddress(cursor, isBool)[1..]) == Some(TruncTenths(cursor))
  {
    var s := DAddress(cursor, isBool);
    if isBool {
      assert s[1..] == TenthsToString(cursor);
      TenthsRoundTrip(cursor);
    } else {
      assert s[1..] == IntToString(TruncTenths(cursor));
      ParseIntOfIntToString(TruncTenths(cursor));
    }
  }

  /** "s{i}_": the name prefix of shelf unit i. */
  function ShelfPrefix(i: int): string {
    "s" + IntToString(i) + "_"
  }

  /** The writes xs followed by those of r, or r's failure. */
  function Prepend<T>(xs: seq<T>, r: Result<seq<T>>): (r': Result<seq<T>>)
    ensures r'.Success? <==> r.Success?
    ensures r'.Success? ==> r'.value == xs + r.value
    ensures r'.Failure? ==> r' == r
  {
    if r.Success? then Success(xs + r.value) else r
  }

  /** Prepending nothing changes nothing, and prepending to no writes gives the prefix. */
  lemma PrependNothing<T>(xs: seq<T>, r: Result<seq<T>>)
    ensures Prepend([], r) == r
    ensures Prepend(xs, Success([])) == Success(xs)
  {
    if r.Success? {
      assert [] + r.value == r.value;
    }
    assert xs + [] == xs;
  }

  /** Prepending twice is prepending the concatenation. */
  lemma PrependTwice<T>(xs: seq<T>, ys: seq<T>, r: Result<seq<T>>)
    ensures Prepend(xs, Prepend(ys, r)) == Prepend(xs + ys, r)
  {
    if r.Success? {
      assert xs + (ys + r.value) == (xs + ys) + r.value;
    }
  }
}
