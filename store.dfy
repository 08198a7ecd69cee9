/** The variable store of components/memory.py as a value: a dictionary from a variable
    name to the record of its value and the value's runtime type. */
module Store {
  import opened Values

  /** The record `{"value": ..., "data_type": ...}` kept for each name. */
  datatype Entry = Entry(value: Value, dataType: DataType)

  type Vars = map<string, Entry>

  /** `Memory.set`: the name's record becomes the new value and type, replacing both; every
      other name keeps its record, and no name is removed. */
  function Set(vars: Vars, name: string, value: Value, dataType: DataType): (r: Vars)
    ensures r.Keys == vars.Keys + {name}
    ensures name in r && r[name] == Entry(value, dataType)
    ensures forall n :: n in vars && n != name ==> r[n] == vars[n]
  {
    vars[name := Entry(value, dataType)]
  }

  /** `Memory.get`: the stored value; a name never set is a `KeyError`, here `None`, and
      never a default value. */
  function Get(vars: Vars, name: string): (r: Option<Value>)
    ensures r.Some? <==> name in vars
    ensures r.Some? ==> r.value == vars[name].value
  {
    if name in vars then Some(vars[name].value) else None
  }

  /** Reading a name after setting it gives the value just set; reading any other name gives
      what it gave before. */
  lemma GetAfterSet(vars: Vars, name: string, other: string, value: Value, dataType: DataType)
    ensures Get(Set(vars, name, value, dataType), name) == Some(value)
    ensures other != name ==> Get(Set(vars, name, value, dataType), other) == Get(vars, other)
  {
  }
}
