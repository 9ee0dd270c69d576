/** The bounded cache of main.py:449-505 (LruCache): an insertion-ordered map
    with hit / put / evict / miss counters. Despite its name it never reorders
    on access, and its trim step raises instead of evicting (see TrimToSize). */
module Cache {
  import opened Outcomes

  /** The four counters of the cache. */
  datatype Stats = Stats(hits: int, puts: int, evictions: int, misses: int)

  class LruCache<K(==, !new), V(==)> {
    /** The keys in insertion order (the OrderedDict's order). */
    var order: seq<K>
    var entries: map<K, V>
    var maxSize: int
    var trimSize: int
    var stats: Stats

    /** `order` lists each key of `entries` exactly once. */
    ghost predicate Valid()
      reads this
    {
      && (forall i, j :: 0 <= i < j < |order| ==> order[i] != order[j])
      && (forall k :: k in entries <==> k in order)
    }

    /** `LruCache(max_size, trim_size)`. The default of 1000 for a
        non-positive `max_size` is overwritten on the next line of the
        source, so the bound is always the argument. */
    constructor (maxSize: int, trimSize: int)
      ensures Valid()
      ensures order == [] && entries == map[]
      ensures this.maxSize == maxSize && this.trimSize == trimSize
      ensures stats == Stats(0, 0, 0, 0)
    {
      if maxSize <= 0 {
        this.maxSize := 1000;
      }
      order := [];
      entries := map[];
      this.maxSize := maxSize;
      this.trimSize := trimSize;
      stats := Stats(0, 0, 0, 0);
    }

    /** `trim_to_size`: a non-positive trim size is first reset to 100. The
        loop header `keys() and (current != trim_size)` is the empty key view
        when the map is empty (nothing to iterate) and a bool otherwise, and
        iterating a bool raises TypeError. So nothing is ever evicted. */
    method TrimToSize() returns (r: Result<()>)
      requires Valid()
      modifies this
      ensures Valid()
      ensures trimSize == if old(trimSize) <= 0 then 100 else old(trimSize)
      ensures order == old(order) && entries == old(entries) && stats == old(stats)
      ensures maxSize == old(maxSize)
      ensures r == if entries == map[] then Ok(()) else Err(TypeError)
    {
      if trimSize <= 0 {
        trimSize := 100;
      }
      if entries != map[] {
        return Err(TypeError);
      }
      return Ok(());
    }

    /** `add_val(key, value)`: a `None` key or value raises; a key already
        holding this value returns False; otherwise, when the map is full it
        is trimmed first (which raises if it is non-empty), then the entry is
        stored, `puts` goes up by one and the result is True. A new key goes
        to the end of the order; an existing key keeps its place. */
    method AddVal(key: Option<K>, value: Option<V>) returns (r: Result<bool>)
      requires Valid()
      modifies this
      ensures Valid() && maxSize == old(maxSize)
      ensures key.None? || value.None? ==>
        r == Err(NullKeyValue) && entries == old(entries) && order == old(order)
        && stats == old(stats) && trimSize == old(trimSize)
      ensures key.Some? && value.Some? && key.value in old(entries) && old(entries)[key.value] == value.value ==>
        r == Ok(false) && entries == old(entries) && order == old(order)
        && stats == old(stats) && trimSize == old(trimSize)
      ensures key.Some? && value.Some? && (key.value !in old(entries) || old(entries)[key.value] != value.value) ==>
        && trimSize == (if old(|entries|) == maxSize && old(trimSize) <= 0 then 100 else old(trimSize))
        && (old(|entries|) == maxSize && old(entries) != map[] ==>
              r == Err(TypeError) && entries == old(entries) && order == old(order) && stats == old(stats))
        && (old(|entries|) != maxSize || old(entries) == map[] ==>
              && r == Ok(true)
              && entries == old(entries)[key.value := value.value]
              && order == (if key.value in old(entries) then old(order) else old(order) + [key.value])
              && stats == old(stats).(puts := old(stats).puts + 1))
      ensures 1 <= maxSize && old(|entries|) <= maxSize ==> |entries| <= maxSize
    {
      if key.None? || value.None? {
        return Err(NullKeyValue);
      }
      var k, v := key.value, value.value;
      if k !in entries || entries[k] != v {
        if |entries| == maxSize {
          var trimmed := TrimToSize();
          if trimmed.Err? {
            return Err(trimmed.error);
          }
        }
        if k !in entries {
          order := order + [k];
        }
        entries := entries[k := v];
        stats := stats.(puts := stats.puts + 1);
        return Ok(true);
      }
      return Ok(false);
    }

    /** `update_value(key, value)`: a `None` key or value raises; an absent key
        goes through `add_val`; a present key has its value overwritten in
        place, keeping its insertion position and every counter. */
    method UpdateValue(key: Option<K>, value: Option<V>) returns (r: Result<()>)
      requires Valid()
      modifies this
      ensures Valid() && maxSize == old(maxSize)
      ensures key.None? || value.None? ==>
        r == Err(NullKeyValue) && entries == old(entries) && order == old(order) && stats == old(stats)
        && trimSize == old(trimSize)
      ensures key.Some? && value.Some? && key.value in old(entries) ==>
        && r == Ok(())
        && entries == old(entries)[key.value := value.value]
        && order == old(order) && stats == old(stats) && trimSize == old(trimSize)
      ensures key.Some? && value.Some? && key.value !in old(entries) ==>
        && trimSize == (if old(|entries|) == maxSize && old(trimSize) <= 0 then 100 else old(trimSize))
        && (old(|entries|) == maxSize && old(entries) != map[] ==>
              r == Err(TypeError) && entries == old(entries) && order == old(order) && stats == old(stats))
        && (old(|entries|) != maxSize || old(entries) == map[] ==>
              && r == Ok(())
              && entries == old(entries)[key.value := value.value]
              && order == old(order) + [key.value]
              && stats == old(stats).(puts := old(stats).puts + 1))
      ensures 1 <= maxSize && old(|entries|) <= maxSize ==> |entries| <= maxSize
    {
      if key.None? || value.None? {
        return Err(NullKeyValue);
      }
      if key.value !in entries {
        var added :- AddVal(key, value);
        return Ok(());
      }
      entries := entries[key.value := value.value];
      return Ok(());
    }

    /** `get_value(key)`: a `None` key raises with nothing changed; a miss
        returns `None` and counts one miss; a hit returns the stored value and
        counts one hit. The map and its order are never changed. */
    method GetValue(key: Option<K>) returns (r: Result<Option<V>>)
      requires Valid()
      modifies this`stats
      ensures key.None? ==> r == Err(NullKeyValue) && stats == old(stats)
      ensures key.Some? && key.value !in entries ==>
        r == Ok(None) && stats == old(stats).(misses := old(stats).misses + 1)
      ensures key.Some? && key.value in entries ==>
        r == Ok(Some(entries[key.value])) && stats == old(stats).(hits := old(stats).hits + 1)
    {
      if key.None? {
        return Err(NullKeyValue);
      }
      if key.value !in entries {
        stats := stats.(misses := stats.misses + 1);
        return Ok(None);
      }
      stats := stats.(hits := stats.hits + 1);
      return Ok(Some(entries[key.value]));
    }
  }
}
