/**
 * What the driver's operations promise, proved about the functional model:
 * the set/get round trip, lazy expiry, compression symmetry, the counters,
 * idempotent delete and exact tag clearing.
 */
module CacheProperties {
  import opened Wrappers
  import opened Codec
  import opened Rows
  import opened CacheModel

  /** Distinct names have distinct row keys. */
  lemma CacheKeyInjective(o: Options, a: string, b: string)
    requires CacheKey(o, a) == CacheKey(o, b)
    ensures a == b
  {
    assert a == CacheKey(o, a)[|o.prefix|..];
    assert b == CacheKey(o, b)[|o.prefix|..];
  }

  /** The row set writes reads back as: the payload in the value column,
      compressed exactly when compression is on; the expire seconds; and
      the write stamp shared by both columns. */
  lemma ReadStoredRow(o: Options, v: Value, e: int, now: int)
    ensures Lookup(ColumnMap(StoredRow(o, v, e, now)), "value")
         == Bytes(if o.dataCompress then GzCompress(Serialize(v), 3) else Serialize(v))
    ensures ExpireOf(StoredRow(o, v, e, now)) == e
    ensures ValueTimestamp(StoredRow(o, v, e, now)) == now
    ensures |StoredRow(o, v, e, now)| == 2 && forall i :: 0 <= i < 2 ==> StoredRow(o, v, e, now)[i].ts == now
  {
  }

  /** The read path right after set: a live row gives back the serialized
      payload (decompressed when compression is on) with the stored expire;
      a stale one gives nothing and deletes the double-prefixed key. */
  lemma ReadAfterSet(c: Cache, o: Options, name: string, v: Value, expire: Option<int>, t: int, now: int)
    ensures var c1 := Set(c, o, name, v, expire, t);
            var e := EffectiveExpire(o, expire);
            GetRaw(c1, o, name, now)
            == if IsStale(e, t, now) then Step(Delete(c1, o, CacheKey(o, name)), None)
               else Step(c1, Some(Raw(Bytes(Serialize(v)), e)))
  {
    ReadStoredRow(o, v, EffectiveExpire(o, expire), t);
  }

  /** Round trip: get after set returns the value while the row is live,
      and the caller's default once it is stale; has agrees. */
  lemma SetThenGet(c: Cache, o: Options, name: string, v: Value, expire: Option<int>, t: int, d: Value, now: int)
    ensures var c1 := Set(c, o, name, v, expire, t);
            var live := !IsStale(EffectiveExpire(o, expire), t, now);
            && Get(c1, o, name, d, now).out == (if live then Ok(v) else Ok(d))
            && Has(c1, o, name, now).out == live
  {
    var c1 := Set(c, o, name, v, expire, t);
    ReadAfterSet(c, o, name, v, expire, t, now);
    ReadAfterSet(c.(readTimes := c.readTimes + 1), o, name, v, expire, t, now);
    assert c1.(readTimes := c1.readTimes + 1) == Set(c.(readTimes := c.readTimes + 1), o, name, v, expire, t);
  }

  /** An entry set with expire 0 is read back at any time. */
  lemma NeverExpiring(c: Cache, o: Options, name: string, v: Value, t: int, d: Value, now: int)
    ensures Get(Set(c, o, name, v, Some(0), t), o, name, d, now).out == Ok(v)
  {
    SetThenGet(c, o, name, v, Some(0), t, d, now);
  }

  /** With the default options an entry set without expire lives for 86400
      seconds: still read at the exact deadline, gone one unit later. */
  lemma DefaultExpiryIsOneDay(c: Cache, name: string, v: Value, t: int, d: Value)
    ensures Get(Set(c, Defaults, name, v, None, t), Defaults, name, d, t + 86400000).out == Ok(v)
    ensures Get(Set(c, Defaults, name, v, None, t), Defaults, name, d, t + 86400001).out == Ok(d)
  {
    SetThenGet(c, Defaults, name, v, None, t, d, t + 86400000);
    SetThenGet(c, Defaults, name, v, None, t, d, t + 86400001);
  }

  /** A stale read answers nothing and counts one write, but its delete
      targets prefix + prefix + name: the stale row itself survives
      exactly when the prefix is not empty. */
  lemma StaleReadMissesItsRow(c: Cache, o: Options, name: string, now: int)
    requires StaleAt(c, CacheKey(o, name), now)
    ensures GetRaw(c, o, name, now).out == None
    ensures GetRaw(c, o, name, now).cache.table == c.table - {o.prefix + o.prefix + name}
    ensures GetRaw(c, o, name, now).cache.writeTimes == c.writeTimes + 1
    ensures CacheKey(o, name) in GetRaw(c, o, name, now).cache.table <==> o.prefix != ""
  {
    var key := CacheKey(o, name);
    assert CacheKey(o, key) == o.prefix + o.prefix + name;
    if o.prefix != "" {
      assert |o.prefix + o.prefix + name| != |key|;
    }
  }

  /** The stray delete of a stale read hits the row of the name
      prefix + name: whatever was cached under that name, live or not,
      reads as absent afterwards. */
  lemma StaleReadDeletesNeighbour(c: Cache, o: Options, name: string, d: Value, now: int, later: int)
    requires StaleAt(c, CacheKey(o, name), now)
    ensures Get(GetRaw(c, o, name, now).cache, o, o.prefix + name, d, later).out == Ok(d)
  {
    StaleReadMissesItsRow(c, o, name, now);
    assert CacheKey(o, o.prefix + name) == o.prefix + o.prefix + name;
  }

  /** Compression is not recorded in the row: a reader whose flag differs
      from the writer's finds the entry (has is true) but cannot decode it. */
  lemma CompressionMismatch(c: Cache, o: Options, name: string, v: Value, expire: Option<int>, t: int, d: Value, now: int)
    requires !IsStale(EffectiveExpire(o, expire), t, now)
    ensures var c1 := Set(c, o, name, v, expire, t);
            var reader := o.(dataCompress := !o.dataCompress);
            && Has(c1, reader, name, now).out
            && Get(c1, reader, name, d, now).out == Err(Undecodable)
  {
    var reader := o.(dataCompress := !o.dataCompress);
    var e := EffectiveExpire(o, expire);
    ReadStoredRow(o, v, e, t);
    var c1 := Set(c, o, name, v, expire, t);
    assert c1.(readTimes := c1.readTimes + 1) == Set(c.(readTimes := c.readTimes + 1), o, name, v, expire, t);
  }

  /** set touches no other name: what get answers for another name is the
      same before and after. */
  lemma SetKeepsOtherNames(c: Cache, o: Options, name: string, other: string, v: Value, expire: Option<int>, t: int, d: Value, now: int)
    requires other != name
    ensures Get(Set(c, o, name, v, expire, t), o, other, d, now).out == Get(c, o, other, d, now).out
  {
    if CacheKey(o, other) == CacheKey(o, name) {
      CacheKeyInjective(o, other, name);
    }
  }

  /** inc on an absent or stale counter stores the step with expire 0 and
      returns it; the counter then reads back as the step at any time. */
  lemma IncOnMissing(c: Cache, o: Options, name: string, step: int, now: int, d: Value, later: int)
    requires RowAt(c, CacheKey(o, name)) == [] || StaleAt(c, CacheKey(o, name), now)
    ensures Inc(c, o, name, step, now).out == Ok(step)
    ensures Inc(c, o, name, step, now).cache.table[CacheKey(o, name)] == StoredRow(o, Number(step), 0, now)
    ensures Get(Inc(c, o, name, step, now).cache, o, name, d, later).out == Ok(Number(step))
  {
    var read := GetRaw(c, o, name, now);
    assert read.out == None;
    NeverExpiring(read.cache, o, name, Number(step), now, d, later);
  }

  /** inc on a live counter holding k stores k + step, keeps the expire
      seconds, restamps the row at `now` and returns k + step. */
  lemma IncAfterSet(c: Cache, o: Options, name: string, k: int, e: int, t: int, step: int, now: int)
    requires !IsStale(e, t, now)
    ensures var c1 := Set(c, o, name, Number(k), Some(e), t);
            Inc(c1, o, name, step, now) == Step(Set(c1, o, name, Number(k + step), Some(e), now), Ok(k + step))
  {
    ReadAfterSet(c, o, name, Number(k), Some(e), t, now);
  }

  /** dec undoes inc on a live counter whose expire is not negative. */
  lemma DecUndoesInc(c: Cache, o: Options, name: string, k: int, e: int, t: int, step: int, now: int)
    requires e >= 0 && !IsStale(e, t, now)
    ensures var c1 := Set(c, o, name, Number(k), Some(e), t);
            var c2 := Inc(c1, o, name, step, now).cache;
            Dec(c2, o, name, step, now) == Step(Set(c2, o, name, Number(k), Some(e), now), Ok(k))
  {
    var c1 := Set(c, o, name, Number(k), Some(e), t);
    IncAfterSet(c, o, name, k, e, t, step, now);
    var c2 := Inc(c1, o, name, step, now).cache;
    assert c2 == Set(c1, o, name, Number(k + step), Some(e), now);
    IncAfterSet(c1, o, name, k + step, e, now, -step, now);
  }

  /** delete is idempotent on the table, and get afterwards answers the
      default. */
  lemma DeleteIdempotent(c: Cache, o: Options, name: string, d: Value, now: int)
    ensures Delete(Delete(c, o, name), o, name).table == Delete(c, o, name).table
    ensures Get(Delete(c, o, name), o, name, d, now).out == Ok(d)
  {
  }

  /** After clearTag a listed name reads as absent, and every other name
      reads as before. */
  lemma ClearTagThenGet(c: Cache, o: Options, names: seq<string>, name: string, d: Value, now: int)
    ensures name in names ==> Get(ClearTag(c, o, names), o, name, d, now).out == Ok(d)
    ensures name !in names ==> Get(ClearTag(c, o, names), o, name, d, now).out == Get(c, o, name, d, now).out
  {
    var key := CacheKey(o, name);
    if name in names {
      assert key in KeysOf(o, names);
    } else if key in KeysOf(o, names) {
      var k :| k in names && CacheKey(o, k) == key;
      CacheKeyInjective(o, k, name);
    }
  }
}
