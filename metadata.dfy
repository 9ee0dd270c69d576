/** The metadata record of a bucket or an object (MetaData, main.py:67-136):
    a string-keyed map with existence-checked get, update and delete. */
module Metadata {
  import opened Outcomes

  /** A metadata value. Values are untyped in Python; these are the kinds the
      service stores. `Null` is Python's `None`, which `update_meta_data` and
      `add_all_meta_data` let in. */
  datatype Value = Null | Text(text: string) | Flag(flag: bool) | Timestamp(seconds: int)

  type Meta = map<string, Value>

  class MetaData {
    var entries: Meta

    /** `MetaData()`: an empty record. */
    constructor ()
      ensures entries == map[]
    {
      entries := map[];
    }

    /** `add_meta_data(key, value)`: a `None` key or value raises; otherwise the
        entry is stored, replacing any earlier value for the key. */
    method AddMetaData(key: Option<string>, value: Value) returns (r: Result<()>)
      modifies this
      ensures key.None? || value == Null ==> r == Err(NullKeyValue) && entries == old(entries)
      ensures key.Some? && value != Null ==> r == Ok(()) && entries == old(entries)[key.value := value]
    {
      if key.Some? && value != Null {
        entries := entries[key.value := value];
        return Ok(());
      }
      return Err(NullKeyValue);
    }

    /** `add_all_meta_data(m)`: every entry of `m` is stored; on a shared key
        the value from `m` wins. */
    method AddAllMetaData(m: Meta)
      modifies this
      ensures entries.Keys == old(entries).Keys + m.Keys
      ensures forall k :: k in m ==> entries[k] == m[k]
      ensures forall k :: k in old(entries) && k !in m ==> entries[k] == old(entries)[k]
    {
      if |m| != 0 {
        entries := entries + m;
      }
    }

    /** `get_meta_data(key)`: the stored value; a `None` key raises
        NullKeyValueException and an absent key NotFoundException. */
    method GetMetaData(key: Option<string>) returns (r: Result<Value>)
      ensures key.None? <==> r == Err(NullKeyValue)
      ensures key.Some? && key.value !in entries <==> r == Err(NotFound)
      ensures r.Ok? <==> key.Some? && key.value in entries
      ensures r.Ok? ==> r.value == entries[key.value]
    {
      if key.Some? {
        if key.value in entries {
          return Ok(entries[key.value]);
        }
        return Err(NotFound);
      }
      return Err(NullKeyValue);
    }

    /** `update_meta_data(key, value)`: only an existing key is overwritten;
        a `None` key or an absent key raises and changes nothing. */
    method UpdateMetaData(key: Option<string>, value: Value) returns (r: Result<()>)
      modifies this
      ensures key.None? ==> r == Err(NullKeyValue) && entries == old(entries)
      ensures key.Some? && key.value !in old(entries) ==> r == Err(NotFound) && entries == old(entries)
      ensures key.Some? && key.value in old(entries) ==>
        r == Ok(()) && entries == old(entries)[key.value := value]
      ensures entries.Keys == old(entries).Keys
    {
      if key.Some? {
        if key.value in entries {
          entries := entries[key.value := value];
          return Ok(());
        }
        return Err(NotFound);
      }
      return Err(NullKeyValue);
    }

    /** `delete_meta_data(key)`: only an existing key is removed; a `None` key
        or an absent key raises and changes nothing. */
    method DeleteMetaData(key: Option<string>) returns (r: Result<()>)
      modifies this
      ensures key.None? ==> r == Err(NullKeyValue) && entries == old(entries)
      ensures key.Some? && key.value !in old(entries) ==> r == Err(NotFound) && entries == old(entries)
      ensures key.Some? && key.value in old(entries) ==>
        r == Ok(()) && entries == old(entries) - {key.value}
    {
      if key.Some? {
        if key.value in entries {
          entries := entries - {key.value};
          return Ok(());
        }
        return Err(NotFound);
      }
      return Err(NullKeyValue);
    }
  }
}
