/**
 * The Tablestore cache driver as the object it is: it holds the remote
 * table (here a map from row key to attribute columns) and the read and
 * write counters, and every public operation updates them in place. Every
 * method but Clear is proved to do what the matching function of
 * CacheModel says.
 */
module TablestoreDriver {
  import opened Wrappers
  import opened Codec
  import opened Rows
  import opened CacheModel

  class Tablestore {
    const options: Options
    var table: map<string, Row>
    var readTimes: nat
    var writeTimes: nat

    /** The driver's state as a value of the functional model. */
    function State(): Cache
      reads this
    {
      Cache(table, readTimes, writeTimes)
    }

    /** A driver over a table that already holds `table`, with counters at 0. */
    constructor (options: Options, table: map<string, Row>)
      ensures this.options == options
      ensures State() == Cache(table, 0, 0)
    {
      this.options := options;
      this.table := table;
      readTimes, writeTimes := 0, 0;
    }

    /** Reads the live content and expire of a name; on a stale row issues a
        delete with the already prefixed key. */
    method GetRaw(name: string, now: int) returns (raw: Option<Raw>)
      modifies this
      ensures Step(State(), raw) == CacheModel.GetRaw(old(State()), options, name, now)
    {
      var key := CacheKey(options, name);
      var cols := if key in table then table[key] else [];
      if cols == [] {
        return None;
      }
      var columns, timestamp := FoldColumns(cols);
      var expire := IntCast(Lookup(columns, "expire"));
      if IsStale(expire, timestamp, now) {
        var _ := Delete(key);
        return None;
      }
      var value := Lookup(columns, "value");
      if options.dataCompress {
        value := Uncompress(value);
      }
      raw := Some(Raw(value, expire));
    }

    /** Whether a live entry exists; a stale one is reaped on the way. */
    method Has(name: string, now: int) returns (found: bool)
      modifies this
      ensures Step(State(), found) == CacheModel.Has(old(State()), options, name, now)
    {
      var raw := GetRaw(name, now);
      found := raw.Some?;
    }

    /** Counts a read and returns the cached value, or `default` when there
        is no live entry. */
    method Get(name: string, default: Value, now: int) returns (r: Result<Value, Error>)
      modifies this
      ensures Step(State(), r) == CacheModel.Get(old(State()), options, name, default, now)
    {
      readTimes := readTimes + 1;
      var raw := GetRaw(name, now);
      r := if raw.None? then Ok(default) else UnserializeCell(raw.value.content);
    }

    /** Counts a write and overwrites the row of the name with the encoded
        value and the expire seconds, both stamped `now`. */
    method Set(name: string, value: Value, expire: Option<int>, now: int) returns (ok: bool)
      modifies this
      ensures ok
      ensures State() == CacheModel.Set(old(State()), options, name, value, expire, now)
      ensures table[CacheKey(options, name)] == StoredRow(options, value, EffectiveExpire(options, expire), now)
      ensures forall k :: k != CacheKey(options, name) ==> (k in table <==> k in old(table))
    {
      writeTimes := writeTimes + 1;
      var e := if expire.None? then options.expire else expire.value;
      var key := CacheKey(options, name);
      var payload := Serialize(value);
      var kind := ConstString;
      if options.dataCompress {
        payload := GzCompress(payload, 3);
        kind := ConstBinary;
      }
      table := table[key := [Column("value", Bytes(payload), kind, now),
                             Column("expire", Integer(e), ConstInteger, now)]];
      ok := true;
    }

    /** Adds `step` to a counter by a read followed by a write; an absent
        or stale counter starts at `step` and never expires. */
    method Inc(name: string, step: int, now: int) returns (r: Result<int, Error>)
      modifies this
      ensures Step(State(), r) == CacheModel.Inc(old(State()), options, name, step, now)
    {
      var raw := GetRaw(name, now);
      var value, expire;
      if raw.Some? {
        var sum := AddStep(raw.value.content, step);
        if sum.Err? {
          return Err(sum.error);
        }
        value, expire := sum.value, raw.value.expire;
      } else {
        value, expire := step, 0;
      }
      var _ := Set(name, Number(value), Some(expire), now);
      r := Ok(value);
    }

    /** Subtracts `step` from a counter. */
    method Dec(name: string, step: int, now: int) returns (r: Result<int, Error>)
      modifies this
      ensures Step(State(), r) == CacheModel.Dec(old(State()), options, name, step, now)
    {
      r := Inc(name, -step, now);
    }

    /** Counts a write and removes the row of the name, whether or not it
        exists. */
    method Delete(name: string) returns (ok: bool)
      modifies this
      ensures ok
      ensures State() == CacheModel.Delete(old(State()), options, name)
      ensures table == old(table) - {CacheKey(options, name)}
    {
      writeTimes := writeTimes + 1;
      table := table - {CacheKey(options, name)};
      ok := true;
    }

    /** Clearing the whole cache is not supported, whatever the table holds. */
    method Clear() returns (r: Result<bool, Error>)
      ensures r == Err(Unsupported("not support: clear"))
    {
      r := Err(Unsupported("not support: clear"));
    }

    /** Deletes each listed name in turn. */
    method ClearTag(names: seq<string>)
      modifies this
      ensures State() == CacheModel.ClearTag(old(State()), options, names)
      ensures table == old(table) - KeysOf(options, names)
      ensures writeTimes == old(writeTimes) + |names|
    {
      for i := 0 to |names|
        invariant State() == CacheModel.ClearTag(old(State()), options, names[..i])
      {
        assert names[..i + 1][..i] == names[..i];
        var _ := Delete(names[i]);
      }
      assert names[..|names|] == names;
    }
  }
}
