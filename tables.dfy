/** The two output tables and the record writers that fill them in place
    (global_variable_generator.py:366-376, 394-402). */
module Tables {
  import opened Wrappers
  import opened Cells
  import opened OrderedMaps

  /** A row of the PLC global-variable table. */
  datatype GlobalRec = GlobalRec(addr: string, typ: string, initValue: Option<Cell>)

  /** A row of the HMI tag table. */
  datatype HmiRec = HmiRec(typ: string, addr: string)

  /** A dict that main creates empty and the writers update in place. */
  class Table<V> {
    var keys: seq<string>
    var entries: map<string, V>

    function Contents(): OrderedMap<V>
      reads this
    {
      OrderedMap(keys, entries)
    }

    ghost predicate Valid()
      reads this
    {
      Contents().Valid()
    }

    constructor ()
      ensures Valid() && Contents() == Empty()
    {
      keys := [];
      entries := map[];
    }

    /** table[k] = v */
    method Put(k: string, v: V)
      requires Valid()
      modifies this
      ensures Valid()
      ensures Contents() == old(Contents()).Insert(k, v)
    {
      InsertProperties(Contents(), k, v);
      if k !in entries {
        keys := keys + [k];
      }
      entries := entries[k := v];
    }
  }

  /** write_rec_glob_var_table: the table maps varName to exactly the new record. */
  method WriteRecGlobVarTable(table: Table<GlobalRec>, varName: string, varAddr: string,
                              varType: string, varInitValue: Option<Cell>)
    requires table.Valid()
    modifies table
    ensures table.Valid()
    ensures table.Contents() == old(table.Contents()).Insert(varName, GlobalRec(varAddr, varType, varInitValue))
  {
    table.Put(varName, GlobalRec(varAddr, varType, varInitValue));
  }

  /** write_rec_hmi_tag_table: the table maps varName to exactly the new record. */
  method WriteRecHmiTagTable(table: Table<HmiRec>, varName: string, varType: string, varAddr: string)
    requires table.Valid()
    modifies table
    ensures table.Valid()
    ensures table.Contents() == old(table.Contents()).Insert(varName, HmiRec(varType, varAddr))
  {
    table.Put(varName, HmiRec(varType, varAddr));
  }
}
