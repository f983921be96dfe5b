/** The pure type rules: the HMI address step and tag of a declared type, and the
    parsing of "ARRAY [N] OF T" type strings (global_variable_generator.py:420-443). */
module TypeRules {
  import opened Wrappers
  import opened Strings
  import opened Cells

  /** calc_addr_offset_hmi_tag: how far the HMI cursor moves, in tenths. An array
      element moves one bit (BOOL) or one word (WORD); a plain declaration moves by
      its own offset, as given for BOOL and truncated to whole words for WORD. */
  function CalcAddrOffsetHmiTag(isArray: bool, varType: string, offset: Option<int>): (r: Result<int>)
    ensures varType != "BOOL" && varType != "WORD" ==> r == Failure(InvalidType)
    ensures r.Failure? <==> (varType != "BOOL" && varType != "WORD") || (!isArray && offset.None?)
    ensures r.Success? && isArray ==> r.value == (if varType == "BOOL" then 1 else 10)
    ensures r.Success? && !isArray && varType == "BOOL" ==> r.value == offset.value
    ensures r.Success? && !isArray && varType == "WORD" ==>
      r.value % 10 == 0 && (if offset.value >= 0 then 0 <= r.value <= offset.value else offset.value <= r.value <= 0)
      && -10 < offset.value - r.value < 10
  {
    if varType == "BOOL" then
      if isArray then Success(1) else OffsetTenths(offset)
    else if varType == "WORD" then
      if isArray then Success(10)
      else
        var w :- OffsetWords(offset);
        Success(10 * w)
    else
      Failure(InvalidType)
  }

  /** translate_var_type_hmi_tag: the HMI tool's name for a PLC type. */
  function TranslateVarTypeHmiTag(varType: string): (r: Result<string>)
    ensures r.Success? <==> varType == "BOOL" || varType == "WORD"
    ensures r.Failure? ==> r.error == InvalidType
    ensures r.Success? ==> (r.value == "BIT" <==> varType == "BOOL")
  {
    if varType == "BOOL" then Success("BIT")
    else if varType == "WORD" then Success("WORD")
    else Failure(InvalidType)
  }

  /** The offset rule and the tag rule accept exactly the same types, and an array
      element steps one bit exactly when its tag is BIT. */
  lemma OffsetRuleMatchesTag(isArray: bool, varType: string, offset: int)
    ensures CalcAddrOffsetHmiTag(isArray, varType, Some(offset)).Success?
        <==> TranslateVarTypeHmiTag(varType).Success?
    ensures TranslateVarTypeHmiTag(varType) == Success("BIT")
        <==> CalcAddrOffsetHmiTag(true, varType, Some(offset)) == Success(1)
  {
  }

  /** The declared type of an array of `size` elements of `elemType`. */
  function ArrayTypeString(size: int, elemType: string): string {
    "ARRAY [" + IntToString(size) + "] OF " + elemType
  }

  /** get_array_size: the second space-separated word with its brackets removed, read by int(). */
  function GetArraySize(data: string): Result<int> {
    var words := Split(data, ' ');
    if |words| < 2 then Failure(IndexError)
    else
      match ParseInt(RemoveChar(RemoveChar(words[1], '['), ']'))
      case Some(n) => Success(n)
      case None => Failure(ValueError)
  }

  /** get_array_type: the fourth space-separated word. */
  function GetArrayType(data: string): Result<string> {
    var words := Split(data, ' ');
    if |words| < 4 then Failure(IndexError) else Success(words[3])
  }

  lemma ArrayTypeWords(size: int, elemType: string)
    requires ' ' !in elemType
    ensures Split(ArrayTypeString(size, elemType), ' ') == ["ARRAY", "[" + IntToString(size) + "]", "OF", elemType]
  {
    var n := IntToString(size);
    IntToStringChars(size);
    var pieces := ["ARRAY", "[" + n + "]", "OF", elemType];
    assert Join(pieces[3..], ' ') == elemType;
    assert Join(pieces[2..], ' ') == "OF " + elemType;
    assert Join(pieces[1..], ' ') == "[" + n + "] OF " + elemType;
    assert Join(pieces, ' ') == ArrayTypeString(size, elemType);
    forall i | 0 <= i < |pieces| ensures ' ' !in pieces[i] {
      if i == 1 {
        assert forall c :: c in "[" + n + "]" ==> c == '[' || c == ']' || c in n;
      }
    }
    SplitJoin(pieces, ' ');
  }

  /** get_array_size reads N back from "ARRAY [N] OF T". */
  lemma GetArraySizeOfArrayType(size: int, elemType: string)
    requires ' ' !in elemType
    ensures GetArraySize(ArrayTypeString(size, elemType)) == Success(size)
  {
    ArrayTypeWords(size, elemType);
    var n := IntToString(size);
    IntToStringChars(size);
    assert "[" + n + "]" == "[" + (n + "]");
    RemoveCharAppend("[", n + "]", '[');
    assert RemoveChar("[", '[') == [];
    assert '[' !in n + "]";
    RemoveCharAbsent(n + "]", '[');
    assert RemoveChar("[" + n + "]", '[') == n + "]";
    RemoveCharAppend(n, "]", ']');
    RemoveCharAbsent(n, ']');
    assert RemoveChar(n + "]", ']') == n;
    ParseIntOfIntToString(size);
  }

  /** get_array_type reads T back from "ARRAY [N] OF T" when T is one word. */
  lemma GetArrayTypeOfArrayType(size: int, elemType: string)
    requires ' ' !in elemType
    ensures GetArrayType(ArrayTypeString(size, elemType)) == Success(elemType)
  {
    ArrayTypeWords(size, elemType);
  }

  /** An array type string passes main's "ARRAY" test, and passes its "BOOL" test
      exactly when the element type is BOOL (for the two element types the rules accept). */
  lemma ArrayTypeTests(size: int, elemType: string)
    requires elemType == "BOOL" || elemType == "WORD"
    ensures Contains(ArrayTypeString(size, elemType), "ARRAY")
    ensures Contains(ArrayTypeString(size, elemType), "BOOL") <==> elemType == "BOOL"
  {
    var s := ArrayTypeString(size, elemType);
    ContainsPrefix("ARRAY", s[5..]);
    assert "ARRAY" + s[5..] == s;
    if elemType == "BOOL" {
      ContainsSuffix("ARRAY [" + IntToString(size) + "] OF ", "BOOL");
    } else {
      WordArrayHasNoB(size);
      NotContainsWithoutFirstChar(s, "BOOL");
    }
  }

  /** A WORD array type string has no letter B: the size is digits and a sign. */
  lemma WordArrayHasNoB(size: int)
    ensures 'B' !in ArrayTypeString(size, "WORD")
  {
    var digits := IntToString(size);
    IntToStringChars(size);
    assert 'B' !in digits;
    assert ArrayTypeString(size, "WORD") == "ARRAY [" + digits + "] OF WORD";
  }
}
