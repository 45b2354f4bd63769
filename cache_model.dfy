/**
 * The cache semantics the Tablestore driver layers on a row store, as
 * functions on a value: the remote table is a map from row key to row, and
 * the driver's read and write counters travel with it. The clock reading
 * `now` is a parameter of every operation that consults it.
 */
module CacheModel {
  import opened Wrappers
  import opened Codec
  import opened Rows

  /** The options the cache logic consults (the connection options are not
      part of this model). */
  datatype Options = Options(expire: int, prefix: string, dataCompress: bool, tagPrefix: string)

  /** The driver's defaults: one day of validity, no prefix, no compression. */
  const Defaults := Options(86400, "", false, "tag:")

  datatype Error =
    | Unsupported(message: string)  // an operation the driver refuses
    | Undecodable                   // a payload the codec cannot read back
    | NonNumeric                    // a counter step applied to a non-number

  /** What the read path hands back for a live row. */
  datatype Raw = Raw(content: Cell, expire: int)

  /** The remote table and the driver's counters. */
  datatype Cache = Cache(table: map<string, Row>, readTimes: nat, writeTimes: nat)

  /** The new cache after an operation, and what the operation returned. */
  datatype Step<T> = Step(cache: Cache, out: T)

  /** The row key of a cache name. */
  function CacheKey(o: Options, name: string): string
  {
    o.prefix + name
  }

  /** Lazy expiry: a non-zero expire (seconds) makes a row stale once the
      clock has passed its write timestamp plus expire * 1000 clock units. */
  predicate IsStale(expire: int, ts: int, now: int)
  {
    expire != 0 && now > ts + expire * 1000
  }

  /** The attribute columns stored under a key; none when the row is absent. */
  function RowAt(c: Cache, key: string): Row
  {
    if key in c.table then c.table[key] else []
  }

  /** The expire seconds a row carries. */
  function ExpireOf(cols: Row): int
  {
    IntCast(Lookup(ColumnMap(cols), "expire"))
  }

  /** A row is present under the key and stale at `now`. */
  predicate StaleAt(c: Cache, key: string, now: int)
  {
    var cols := RowAt(c, key);
    cols != [] && IsStale(ExpireOf(cols), ValueTimestamp(cols), now)
  }

  /** gzuncompress applied to a column value: false when it is not a
      compressed byte string. */
  function Uncompress(cell: Cell): Cell
  {
    if cell.Bytes? && GzUncompress(cell.blob).Some? then Bytes(GzUncompress(cell.blob).value)
    else False
  }

  /** unserialize applied to the content of a row. */
  function UnserializeCell(cell: Cell): Result<Value, Error>
  {
    if cell.Bytes? && Unserialize(cell.blob).Some? then Ok(Unserialize(cell.blob).value)
    else Err(Undecodable)
  }

  /** delete: removes the row of the name, present or not, and counts one write. */
  function Delete(c: Cache, o: Options, name: string): Cache
  {
    Cache(c.table - {CacheKey(o, name)}, c.readTimes, c.writeTimes + 1)
  }

  /** getRaw: the live content and expire of a name, or None. A stale row
      triggers a delete, which is given the already prefixed key. */
  function GetRaw(c: Cache, o: Options, name: string, now: int): Step<Option<Raw>>
  {
    var key := CacheKey(o, name);
    var cols := RowAt(c, key);
    if cols == [] then Step(c, None)
    else
      var expire := ExpireOf(cols);
      if IsStale(expire, ValueTimestamp(cols), now) then Step(Delete(c, o, key), None)
      else
        var value := Lookup(ColumnMap(cols), "value");
        Step(c, Some(Raw(if o.dataCompress then Uncompress(value) else value, expire)))
  }

  /** has: whether the read path finds a live row. */
  function Has(c: Cache, o: Options, name: string, now: int): Step<bool>
  {
    var read := GetRaw(c, o, name, now);
    Step(read.cache, read.out.Some?)
  }

  /** get: counts one read, then returns the unserialized content or the
      caller's default. */
  function Get(c: Cache, o: Options, name: string, default: Value, now: int): Step<Result<Value, Error>>
  {
    var read := GetRaw(c.(readTimes := c.readTimes + 1), o, name, now);
    Step(read.cache, if read.out.None? then Ok(default) else UnserializeCell(read.out.value.content))
  }

  /** The two columns set writes, both stamped `now`. */
  function StoredRow(o: Options, value: Value, expire: int, now: int): Row
  {
    var payload := Serialize(value);
    if o.dataCompress then
      [Column("value", Bytes(GzCompress(payload, 3)), ConstBinary, now),
       Column("expire", Integer(expire), ConstInteger, now)]
    else
      [Column("value", Bytes(payload), ConstString, now),
       Column("expire", Integer(expire), ConstInteger, now)]
  }

  /** The expire seconds set stores: the caller's, or the configured default. */
  function EffectiveExpire(o: Options, expire: Option<int>): int
  {
    if expire.Some? then expire.value else o.expire
  }

  /** set: counts one write and overwrites the row of the name; a missing
      expire takes the configured default. */
  function Set(c: Cache, o: Options, name: string, value: Value, expire: Option<int>, now: int): Cache
  {
    Cache(c.table[CacheKey(o, name) := StoredRow(o, value, EffectiveExpire(o, expire), now)], c.readTimes, c.writeTimes + 1)
  }

  /** The counter arithmetic of inc on a stored content: null counts as 0,
      a string is refused. */
  function AddStep(content: Cell, step: int): Result<int, Error>
  {
    match UnserializeCell(content)
    case Err(e) => Err(e)
    case Ok(v) =>
      match v
      case Nil => Ok(step)
      case Number(n) => Ok(n + step)
      case Text(_) => Err(NonNumeric)
  }

  /** inc: read, add the step, write back with the stored expire; an absent
      or stale counter starts at the step and never expires. */
  function Inc(c: Cache, o: Options, name: string, step: int, now: int): Step<Result<int, Error>>
  {
    var read := GetRaw(c, o, name, now);
    if read.out.Some? then
      match AddStep(read.out.value.content, step)
      case Err(e) => Step(read.cache, Err(e))
      case Ok(n) => Step(Set(read.cache, o, name, Number(n), Some(read.out.value.expire), now), Ok(n))
    else
      Step(Set(read.cache, o, name, Number(step), Some(0), now), Ok(step))
  }

  /** dec: inc by the negated step. */
  function Dec(c: Cache, o: Options, name: string, step: int, now: int): Step<Result<int, Error>>
  {
    Inc(c, o, name, -step, now)
  }

  /** The row keys of a list of names. */
  function KeysOf(o: Options, names: seq<string>): set<string>
  {
    set k | k in names :: CacheKey(o, k)
  }

  /** clearTag: deletes the names one after the other. It removes exactly
      their rows, counts one write per name and leaves the read count. */
  function ClearTag(c: Cache, o: Options, names: seq<string>): (d: Cache)
    ensures d.table == c.table - KeysOf(o, names)
    ensures d.readTimes == c.readTimes
    ensures d.writeTimes == c.writeTimes + |names|
  {
    if names == [] then c
    else
      var init := names[..|names| - 1];
      assert KeysOf(o, names) == KeysOf(o, init) + {CacheKey(o, names[|names| - 1])};
      Delete(ClearTag(c, o, init), o, names[|names| - 1])
  }
}
