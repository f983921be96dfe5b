# Global variable generator: address allocation and table generation

This project models the engine of `global_variable_generator.py`. The engine reads
a configuration workbook describing a shelf, sensor and pump installation. From it
the engine builds two tables:

- the PLC global-variable table (`global_var_table`: name to address, type and
  initial value);
- the HMI tag table (`hmi_tag_table`: name to HMI type and address).

`main` walks the workbook's sections in a fixed order. Each section has its own
address cursor, which starts at the section's base address:

1. constants, pumps and shelf units into the global table (a cursor per section,
   reset per shelf unit);
2. the same three sections again into the HMI tag table, keeping only the
   declarations marked for the HMI and expanding `ARRAY [N] OF BOOL|WORD`
   declarations into N tags;
3. the sensor fields (one counter shared by the shelf sensors and the other
   sensors) into both tables;
4. the I/O points, with their literal addresses;
5. the HMI's own variables, with `$` addresses.

Both tables are Python dicts: a later write to a name replaces its record and keeps
its position.

Modelling choices:

- Addresses and offsets are integers counting tenths of a word, so `D12.3` is the
  cursor 123. `int(x)` is truncation toward zero (`Cells.TruncTenths`), and
  `round(float(x), 1)` is the value itself.
- A blank spreadsheet cell is `None`. A non-blank cell is an integer, a decimal
  number or text (`Cells.Cell`). Every exception `main` can raise is a `Failure`
  of `Wrappers.Error` and ends the run.
- The dicts are `OrderedMaps.OrderedMap`: the keys in insertion order plus a map.
  The two tables that `main` fills in place are `Tables.Table` objects.
- Each loop of `main` is a method with loop invariants. It is proved against a
  function that computes the same pass as a list of placements (`Placed`,
  `HmiPlaced`, `InternalPlaced`). Those functions carry the layout lemmas.
- `Generator.Generate` runs the whole of `main` in place on fresh tables.
  `Generator.GenerateSpec` is the same run as a function.

One would expect the global and HMI passes over a section to use the same offset
arithmetic. In the code they do not:

- the global constants pass advances the cursor *before* assigning, and the HMI
  pass advances it after (`PassComparisons.ConstantsHmiTrailsGlobal`);
- the HMI constants and pump passes format addresses by the type of the last
  shelf declaration, not by the declaration's own type;
- the HMI shelf pass steps every plain declaration by the element type of the
  last array seen (`HmiPasses.ShelvesHmiAt`, `HmiPasses.ShelvesHmiUnbound`).

Duplicate names are overwritten silently, as in the code. The model keeps
last-write-wins (`OrderedMaps.InsertAllLastWrite`, `Generator.IoPointsLast`).

## Model

| member | source | states |
|---|---|---|
| Strings.ParseIntOfIntToString | global_variable_generator.py:67 | `int(str(i)) == i`: every word address `D<i>` reads back as its integer cursor, negative ones included |
| Strings.TenthsRoundTrip | global_variable_generator.py:67 | `str(round(x, 1))` of a tenths value has exactly one digit after the point and reads back as that value |
| Strings.SplitJoin | global_variable_generator.py:437-443 | `split(' ')` undoes a join by spaces when no piece contains a space, which is what the array-type parsers rely on |
| Strings.RemoveCharAppend | global_variable_generator.py:439 | `replace(c, '')` deletes `c` from each part of a concatenation independently |
| Cells.TruncTenths | global_variable_generator.py:66 | `int(x)` truncates toward zero: the result's tenths have the sign of x and lie within one whole unit of x, never beyond it |
| Cells.IntOf | global_variable_generator.py:293 | `int(cell)` of an integer cell is that integer; a blank cell raises ValueError |
| Cells.ShelfCount | global_variable_generator.py:82 | `range(shelf_no)` is accepted exactly when the cell holds an integer |
| Cells.RegisterTenths | global_variable_generator.py:83 | `i * shelf_reg_size` yields an address exactly when the cell is a number; text or a blank cell raises |
| TypeRules.CalcAddrOffsetHmiTag | global_variable_generator.py:420-426 | types other than BOOL and WORD raise InvalidType; an array element steps one bit (BOOL) or one word (WORD); a scalar BOOL steps by its raw offset; a scalar WORD steps by `int(offset)` words, truncated toward zero; a blank scalar WORD offset raises |
| TypeRules.TranslateVarTypeHmiTag | global_variable_generator.py:428-434 | succeeds exactly for BOOL and WORD, giving BIT exactly for BOOL; anything else raises InvalidType |
| TypeRules.OffsetRuleMatchesTag | global_variable_generator.py:420-434 | the offset rule and the tag rule accept exactly the same types, and an array element steps one bit exactly when its tag is BIT |
| TypeRules.ArrayTypeWords | global_variable_generator.py:438 | `"ARRAY [N] OF T".split(' ')` is exactly the four words ARRAY, `[N]`, OF, T |
| TypeRules.GetArraySizeOfArrayType | global_variable_generator.py:437-439 | `get_array_size` reads N back from `"ARRAY [N] OF T"` for every integer N |
| TypeRules.GetArrayTypeOfArrayType | global_variable_generator.py:442-443 | `get_array_type` reads T back from `"ARRAY [N] OF T"` when T is one word |
| TypeRules.ArrayTypeTests | global_variable_generator.py:104-116 | an array type string passes main's `"ARRAY" in type` test, and its `"BOOL" in type` test holds exactly for BOOL elements |
| OrderedMaps.InsertProperties | global_variable_generator.py:370-374 | after `d[k] = v` the dict maps k to exactly v and every other key as before; a new key is appended to the key order, an existing one keeps its place |
| OrderedMaps.InsertAllLastWrite | global_variable_generator.py:366-376 | after a sequence of writes a name maps to the value of its last write |
| OrderedMaps.InsertAllUntouched | global_variable_generator.py:366-376 | a name no write touches keeps its presence and its value |
| OrderedMaps.InsertAllKeys | global_variable_generator.py:366-376 | the key order after a sequence of writes is the order in which the names first occur |
| OrderedMaps.FirstOccurrencesFresh | global_variable_generator.py:366-376 | distinct names that were not in the dict before are appended in the order they are written |
| Tables.Table.constructor | global_variable_generator.py:58-59 | a table starts out empty |
| Tables.Table.Put | global_variable_generator.py:370-374 | `table[k] = v` in place: the new contents are the old ones with k mapped to v |
| Tables.WriteRecGlobVarTable | global_variable_generator.py:366-376 | the global table maps the name to exactly the new record of address, type and initial value; every other entry is as before |
| Tables.WriteRecHmiTagTable | global_variable_generator.py:394-402 | the HMI table maps the name to exactly the new record of type and address; every other entry is as before |
| Readers.VarTableOf | global_variable_generator.py:290-313 | reading a section succeeds exactly when its first base cell exists and is `-` or a cell `int()` accepts; that cell is the base address, and the declarations form a valid dict |
| Readers.ReadVarTable | global_variable_generator.py:290-313 | the row loop builds the dict of `Readers.VarTableOf` |
| Readers.VarTableRows | global_variable_generator.py:290-313 | base `-` reads as 0; the keys are the names in first-occurrence order; each name holds its last row, with the HMI flag set exactly when the hmi_tag cell is not blank |
| Readers.ReadSensorListTable | global_variable_generator.py:315-324 | an empty base column raises IndexError and otherwise `int()`'s error passes through; there is no `-` rule; on success the base is `int()` of the first base cell, and the shelf and other sensors are the non-blank cells of their columns in sheet order |
| Readers.PresentAppend | global_variable_generator.py:318-319 | dropping blank sensor cells keeps the order of the sheet |
| Readers.PresentMembers | global_variable_generator.py:318-319 | exactly the non-blank sensor cells are kept, as many as there are non-blank cells |
| Readers.ReadIoMappingTable | global_variable_generator.py:327-346 | the row loop builds the dict of all I/O rows keyed by name; it never raises |
| Readers.IoTableRows | global_variable_generator.py:327-346 | the keys are the names in first-occurrence order; each name holds its last row's address, type and initial value, with the HMI flag set exactly when the cell is not blank |
| Readers.HmiInternalOf | global_variable_generator.py:349-363 | an empty base column raises IndexError and otherwise `int()`'s error passes through; there is no `-` rule; on success the base is `int()` of the first base cell and the variables are every row inserted by name, a valid dict |
| Readers.HmiInternalTableRows | global_variable_generator.py:349-363 | the keys are the variable names in first-occurrence order; each name holds its last row's offset and type |
| Readers.ReadHmiInternalTable | global_variable_generator.py:349-363 | the row loop builds the dict of `Readers.HmiInternalOf` |
| Addresses.DAddressReadsBack | global_variable_generator.py:88 | a `D` address reads back as the cursor with one decimal for a BOOL type, and as `int(cursor)` otherwise |
| GlobalPasses.ConstantsGlobalLayout | global_variable_generator.py:61-69 | the constants pass succeeds exactly when no offset is blank; then constant j is placed at the base plus the `int(offset)` of constants 0..j, its own included |
| GlobalPasses.UnitGlobalLayout | global_variable_generator.py:71-79 | the pump pass (and one shelf unit) succeeds exactly when no offset is blank; then declaration j is placed at the start plus the `int(offset)` of the declarations before it, under the unit's name prefix |
| GlobalPasses.ShelvesGlobalLength | global_variable_generator.py:81-91 | with no blank offset the shelf pass writes every shelf declaration once per unit: `max(shelf_no, 0) * n` records |
| GlobalPasses.ShelvesGlobalAt | global_variable_generator.py:81-91 | record `u * n + j` of the shelf pass is declaration j of unit u, named `s{u}_<name>`, at `shelf_base + u * shelf_reg_size` plus the offsets before it |
| HmiPasses.Defined | global_variable_generator.py:130 | reading a variable no earlier branch bound raises UnboundName |
| HmiPasses.ArrayElements | global_variable_generator.py:109-119 | an array of size N ≤ 0 gives no tags; otherwise the expansion succeeds exactly for BOOL or WORD elements and gives N tags |
| HmiPasses.ArrayDeclarationExpands | global_variable_generator.py:104-121 | `ARRAY [N] OF BOOL/WORD` gives N tags `name0 .. name{N-1}`, typed BIT or WORD and one bit or one word apart; the cursor then moves by the declaration's own offset, and T becomes the last array type |
| HmiPasses.PlainOwnDecl | global_variable_generator.py:124-133 | in the constants and pump passes a visible BOOL or WORD declaration gives one tag at the cursor, typed BIT or WORD by its own type and formatted by the last shelf declaration's type; the cursor moves by the step of its own type and the array type is kept |
| HmiPasses.PlainShelfDecl | global_variable_generator.py:208-221 | in the shelf pass a visible BOOL or WORD declaration gives one tag at the cursor, typed and formatted by its own type; the cursor moves by the step of the last array element type |
| HmiPasses.OwnRunLayout | global_variable_generator.py:124-133 | in the constants and pump passes, plain tag j sits at the start plus the HMI steps of the declarations before it, each stepped by its own type and formatted by the last shelf type |
| HmiPasses.PlainUnitHmi | global_variable_generator.py:93-133 | a constants or pump pass over plain visible declarations succeeds, places exactly the tags of `HmiPasses.OwnRunLayout`, and leaves the last array type unchanged |
| HmiPasses.RuleRunLayout | global_variable_generator.py:211-221 | in a shelf unit, plain tag j sits at the unit start plus the steps of the declarations before it, all stepped by the rule of the last array type, whatever their own types |
| HmiPasses.PlainShelfUnitHmi | global_variable_generator.py:181-221 | a shelf unit of plain visible declarations succeeds, places exactly the tags of `HmiPasses.RuleRunLayout`, and keeps the last array type |
| HmiPasses.ShelvesHmiPlain | global_variable_generator.py:178-221 | with plain visible shelf declarations the HMI shelf pass succeeds, keeps the last array type, and places the units' tags one unit after the other |
| HmiPasses.RuleRunsLength | global_variable_generator.py:179-221 | the HMI shelf pass places every plain declaration once per unit |
| HmiPasses.RuleRunsAt | global_variable_generator.py:179-221 | tag `u * n + j` is declaration j of unit u, at `shelf_base + u * shelf_reg_size` plus the steps before it |
| HmiPasses.ShelvesHmiAt | global_variable_generator.py:178-221 | the HMI shelf pass restarts every unit at the same start as the global shelf pass: tag `u * n + j` is `s{u}_<name>`, stepped by the last array type and formatted by its own type |
| HmiPasses.ShelvesHmiUnbound | global_variable_generator.py:179-214 | if no array declaration has been seen and the first visible shelf declaration is a BOOL or WORD one (any number of hidden ones may precede it, anything may follow it), the shelf pass raises UnboundName at the first shelf unit |
| PassComparisons.OwnStepSumOfWords | global_variable_generator.py:66-133 | for WORD declarations the HMI steps add up to the same whole words the global pass adds |
| PassComparisons.ConstantsHmiTrailsGlobal | global_variable_generator.py:61-133 | both passes over WORD constants place every constant under the same name in the same order, but each global address lies ahead of its HMI address by the constant's own offset |
| PassComparisons.PumpsHmiMatchesGlobal | global_variable_generator.py:71-176 | both passes over WORD pumps place every pump at the same cursor. The HMI address is the global one behind the PLC prefix exactly when the last shelf type is not a BOOL type; otherwise it is the bit address of that cursor |
| SensorPass.SensorTablesAgree | global_variable_generator.py:232-238 | both tables get the same name for every field; the HMI address is the global address behind the PLC prefix; the types are equal |
| SensorPass.SensorAddressesDistinct | global_variable_generator.py:233-240 | field k's address reads back as `sensor_base + n + k`, so no two fields share an address |
| SensorPass.SensorWritesAppend | global_variable_generator.py:225-255 | the counter carries over: fields written after a batch get the addresses after that batch's |
| SensorPass.ShelfUnitFieldsAt | global_variable_generator.py:227-230 | a shelf unit has one field per sensor and data declaration; field `s * d + j` is `snsr_s{i}_<sensor>_<name>` |
| SensorPass.ShelfSensorFieldsAt | global_variable_generator.py:226-230 | field j of shelf sensor s of unit i is at position `i * (sensors * d) + s * d + j` of the shelf sensor fields |
| SensorPass.SensorFieldsCount | global_variable_generator.py:225-255 | the pass writes `max(shelf_no, 0) * shelf sensors * d + other sensors * d` fields |
| SensorPass.SensorDataLoop | global_variable_generator.py:228-240 | the innermost loop writes one sensor's fields to both tables, counter by counter |
| SensorPass.ShelfUnitLoop | global_variable_generator.py:227-240 | the loop over one unit's shelf sensors writes that unit's fields |
| SensorPass.ShelfSensorsLoop | global_variable_generator.py:226-240 | the loop over `range(shelf_no)` writes the fields of every unit, unit by unit |
| SensorPass.OtherSensorsLoop | global_variable_generator.py:242-255 | the other-sensor loop writes their fields, continuing the counter |
| SensorPass.SensorLoops | global_variable_generator.py:225-255 | the whole sensor pass, counter from 1: both tables end as the old tables plus the sensor writes of all fields |
| IoPass.IoHmiWritesAt | global_variable_generator.py:263-265 | every I/O point marked for the HMI is written, in order, behind the PLC prefix; the HMI gets as many writes as there are marked points |
| IoPass.IoHmiWritesFrom | global_variable_generator.py:263-265 | every HMI write of the I/O pass comes from a point marked for the HMI |
| IoPass.IoLoop | global_variable_generator.py:258-265 | the I/O loop leaves both tables as the old ones plus the I/O writes |
| HmiInternalPass.InternalLayout | global_variable_generator.py:268-282 | the pass succeeds exactly when every variable is BIT or WORD with a non-blank offset; then variable j keeps its name and type, at the base plus the `int(offset)` of the variables before it |
| HmiInternalPass.InternalFirstError | global_variable_generator.py:274-282 | the first rejected variable decides the error: InvalidType for a type other than BIT or WORD, checked before the offset; ValueError for a blank offset |
| HmiInternalPass.InternalCursorIncreases | global_variable_generator.py:282 | with offsets of at least one word, later variables get strictly higher cursors |
| HmiInternalPass.InternalLoop | global_variable_generator.py:268-282 | the loop raises exactly when the pass does, with the same error; otherwise the HMI table gains the `$` tags of the pass |
| Walk.ConstantsGlobalLoop | global_variable_generator.py:61-69 | the constants loop raises exactly as `ConstantsGlobal` does; otherwise it writes its placements in order |
| Walk.UnitGlobalLoop | global_variable_generator.py:71-79 | the pump loop (and one shelf unit) raises exactly as `UnitGlobal` does; otherwise it writes its placements |
| Walk.ShelvesGlobalLoop | global_variable_generator.py:81-91 | the shelf loop, restarting each unit at its start, raises or writes exactly as `ShelvesGlobal` |
| Walk.ArrayLoop | global_variable_generator.py:109-119 | the element loop raises exactly when the expansion does; otherwise it writes the element tags in order |
| Walk.ArrayDeclStep | global_variable_generator.py:104-121 | an array declaration gives the cursor after it and its element type, and writes its element tags |
| Walk.ScalarDeclStep | global_variable_generator.py:124-133 | a non-array declaration gives the cursor after it and writes its single tag |
| Walk.HmiDeclStep | global_variable_generator.py:95-133 | a hidden declaration only moves the cursor by its raw offset; a visible one is an array or scalar step |
| Walk.HmiUnitLoop | global_variable_generator.py:93-133 | the constants or pump HMI loop (or one shelf unit) raises exactly as the pass does, returns its final cursor and last array type, and writes its tags |
| Walk.ShelfUnitRound | global_variable_generator.py:180-221 | one unit of the HMI shelf loop extends the written tags by that unit's tags, or raises as the pass does |
| Walk.ShelvesHmiLoop | global_variable_generator.py:178-221 | the HMI shelf loop raises exactly as the pass does; otherwise it returns the last array type and writes the tags |
| Generator.SectionsOf | global_variable_generator.py:43-49 | reading the workbook succeeds exactly when every reader does; the sections then form valid dicts |
| Generator.ReadSections | global_variable_generator.py:43-49 | the readers run in main's order and the first one that raises ends the run |
| Generator.InitValue | global_variable_generator.py:52-53 | looking up a constant succeeds exactly when it is defined; otherwise KeyError |
| Generator.GlobalPlanOf | global_variable_generator.py:52-91 | a successful global stage has found `shelf_no` and `shelf_reg_size`, so the assert on line 56 cannot fail. Every offset the HMI passes read is numeric. The declaration last bound to `shelf_data` is the last shelf declaration, if any unit ran |
| Generator.GlobalStage | global_variable_generator.py:52-91 | the global passes in place: they raise or succeed as `Generator.GlobalPlanOf`, and the table gains the constants, pump and shelf records in that order |
| Generator.HmiStage | global_variable_generator.py:93-221 | the HMI passes in place, the last array type carried from pass to pass: they raise or succeed as the plan, and the table gains its tags in order |
| Generator.TailStage | global_variable_generator.py:225-282 | the sensor, I/O and HMI-internal passes in place: they raise exactly when the HMI-internal pass does, and otherwise each table gains its tail of writes in order |
| Generator.GenerateSpec | global_variable_generator.py:22-282 | a run that does not raise produces two valid dicts |
| Generator.Generate | global_variable_generator.py:22-282 | main in place on fresh tables: it raises exactly when `Generator.GenerateSpec` does, with the same error, and otherwise produces the same two tables |
| Generator.IoPointsLast | global_variable_generator.py:258-261 | every I/O point ends in the global table with its own address, type and initial value, whatever an earlier pass wrote under that name |
| Generator.InternalVariablesLast | global_variable_generator.py:268-282 | HMI-internal variable i ends in the HMI table with its type and the `$` address of the base plus the `int(offset)` of the variables before it |
| Generator.InternalNamesDistinct | global_variable_generator.py:270 | the HMI-internal pass writes each name once, because the names come from a dict |

## Left out

- Reading the workbook with pandas (lines 34-40) is left out: each sheet is given as its columns of cells.
- The CSV writers (`write_glob_var_table_to_csv`, `write_hmi_tag_table_to_csv`, lines 379-417) are left out: the model ends with the two tables in memory, in the order the writers would emit them.
- `print`, the file names and `os.path` (lines 24-31) are left out; they are I/O.
- The `check-results` comparison script is not part of this model.
- Floating point is not modelled. Offsets and cursors are exact tenths, so rounding drift from adding floats is not captured. Offsets with more than one decimal are out of scope.
- Strings.TenthsToString: `str()` of a float is always the fixed "whole.digit" form here. Python switches to exponent notation for very large or very small values.
- Cells.IntOf: reads text as an optional sign and decimal digits. Python's `int()` also accepts surrounding whitespace and underscores.
- Cells.RegisterTenths: a blank `shelf_reg_size` raises ValueError as soon as a shelf unit exists. In the source the cursor becomes NaN, and `int(NaN)` raises only at the first shelf declaration whose type is not a BOOL type. An empty shelf section, or one of BOOL declarations only, would instead run with "Dnan" addresses.
- Readers.VarTableOf: names and types are strings. A blank name or type cell (a NaN in the source) is not represented; at the first `in` test on such a type the source raises TypeError.
- Readers.ReadIoMappingTable: the I/O address is a string. A blank address cell makes the source raise TypeError when it is appended to the PLC prefix; that case is not represented.
- TypeRules.CalcAddrOffsetHmiTag: a blank scalar BOOL offset gives ValueError. In the source `float(nan)` returns NaN without raising, and only the WORD branch's `int(nan)` raises. `main` never reaches the difference: the global passes `int()` every offset first and raise on a blank one.
- Readers.VarTableOf: an offset cell is a number or blank. A text offset such as `"2"` is not represented. The global passes would accept it through `int()`, but the HMI passes would raise TypeError where they add it to the cursor, for a hidden declaration or after an array.
- HmiPasses.HmiUnit: it requires every offset to be numeric. The global passes, which run first and `int()` every offset, guarantee this (`Generator.GlobalPlanOf`), so the source's behaviour for a NaN offset in an HMI pass cannot be reached.
- Walk.ArrayLoop: the offset rule and the tag rule of the element type are applied once, before the first element. The source applies them in every round, with the same result, and can only raise in the first round.
- Generator.GlobalPlanOf: the type of the declaration last bound to `shelf_data` is computed after the shelf loop, not bound inside it. It is the same value.
