/**
 * Value codec: the host framework's serialize/unserialize pair and zlib's
 * gzcompress/gzuncompress.
 *
 * Both pairs are foreign code; only their inverse relation matters to the
 * cache. A payload is therefore kept symbolic: a blob records how it was
 * produced, so that decoding is exact on what encoding produced and fails
 * on anything else (a compressed payload read without decompression, or a
 * plain payload handed to the decompressor).
 */
module Codec {
  import opened Wrappers

  /** A PHP value put in the cache. */
  datatype Value = Nil | Number(n: int) | Text(s: string)

  /** A byte string as the codec produced it. */
  datatype Blob = Serialized(v: Value) | Deflated(level: int, inner: Blob)

  /** The serializer: its output is read back by Unserialize. */
  function Serialize(v: Value): (b: Blob)
    ensures Unserialize(b) == Some(v)
    ensures GzUncompress(b) == None
  {
    Serialized(v)
  }

  /** The deserializer: None stands for a payload it cannot read. */
  function Unserialize(b: Blob): Option<Value>
  {
    if b.Serialized? then Some(b.v) else None
  }

  /** gzcompress at the given level: gzuncompress recovers the input, the
      deserializer cannot read the output. */
  function GzCompress(b: Blob, level: int): (z: Blob)
    ensures GzUncompress(z) == Some(b)
    ensures Unserialize(z) == None
  {
    Deflated(level, b)
  }

  /** gzuncompress: None stands for PHP's false on data that is not a
      zlib stream. */
  function GzUncompress(z: Blob): Option<Blob>
  {
    if z.Deflated? then Some(z.inner) else None
  }
}
