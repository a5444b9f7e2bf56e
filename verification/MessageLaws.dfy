/**
  Message headers on arbitrary bytes: which ones are accepted and what they say, in
  terms of the bytes alone.
*/
module MessageLaws {
  import opened Wire
  import opened Layout
  import opened Cursor
  import opened Codec
  import opened Message

  /** The little-endian integer of `n` bytes at `a`. */
  function At(bytes: seq<byte>, a: nat, n: nat): nat
    requires a + n <= |bytes|
  {
    Value(bytes[a..a + n])
  }

  /** Sixteen bytes with version 0 and no flags, or twenty-four with version 1, one of
      the two flags and a request id. */
  function HeaderIn(bytes: seq<byte>): Option<RawHeader> {
    if |bytes| >= 16 && At(bytes, 0, 4) == 16 && At(bytes, 4, 4) == 0 && At(bytes, 12, 4) == 0 then
      Some(RawHeader.MessageHeader(At(bytes, 8, 4), 0, 0))
    else if |bytes| >= 24 && At(bytes, 0, 4) == 24 && At(bytes, 4, 4) == 1 && (At(bytes, 12, 4) == 1 || At(bytes, 12, 4) == 2) then
      Some(RawHeader.MessageHeader(At(bytes, 8, 4), At(bytes, 12, 4), At(bytes, 16, 8)))
    else None
  }

  /** In an open block without padding, integers are read one after the other. */
  ghost predicate Open(bytes: seq<byte>, d: Decoding, at: nat, limit: nat) {
    && |d.stack| == 1 && d.Top().offset == at && d.Top().bitOffset == 0 && d.Top().limit == limit && !d.Top().check
    && d.end == limit <= |bytes| && d.nextHandle == 0
  }

  lemma UintAt(bytes: seq<byte>, d: Decoding, n: nat, at: nat, limit: nat)
    requires n in {4, 8} && Open(bytes, d, at, limit) && Multiple(at, n) && at + n <= limit
    ensures ReadUint(bytes, d, n).Some?
    ensures ReadUint(bytes, d, n).value.value == At(bytes, at, n) && Open(bytes, ReadUint(bytes, d, n).value.rest, at + n, limit)
  {
    hide Guard, RoundUp, Multiple;
    GuardWhole(d.Top(), n);
    RoundUpLeast(at, n, at);
  }

  lemma FieldAt(bytes: seq<byte>, ts: seq<Type>, d: Decoding, at: nat, limit: nat)
    requires ts != [] && (ts[0] == TUint(W32) || ts[0] == TUint(W64)) && Open(bytes, d, at, limit)
    requires Multiple(at, ts[0].width.Bytes()) && at + ts[0].width.Bytes() <= limit
    ensures var n := ts[0].width.Bytes(); ReadUint(bytes, d, n).Some?
    ensures var n := ts[0].width.Bytes();
      var d1 := ReadUint(bytes, d, n).value.rest;
      && Open(bytes, d1, at + n, limit)
      && var more := DecodeValues(HEADERS, ts[1..], bytes, [], d1);
         DecodeValues(HEADERS, ts, bytes, [], d) ==
           if more.None? then None else Some(Read([VUint(At(bytes, at, n))] + more.value.value, more.value.rest))
  {
    hide ReadUint, Multiple;
    UintAt(bytes, d, ts[0].width.Bytes(), at, limit);
  }

  lemma NoFields(bytes: seq<byte>, d: Decoding)
    requires d.end <= |bytes|
    ensures DecodeValues(HEADERS, [], bytes, [], d) == Some(Read([], d))
  {
  }

  lemma Aligned()
    ensures Multiple(8, 4) && Multiple(12, 4) && Multiple(16, 8)
  {
  }

  lemma FieldsIn(bytes: seq<byte>, version: nat, d: Decoding)
    requires version <= 1 && Open(bytes, d, 8, if version == 1 then 24 else 16)
    ensures var r := DecodeValues(HEADERS, HEADERS[version].fields, bytes, [], d);
      && r.Some? && |r.value.rest.stack| == 1 && !r.value.rest.Top().check
      && r.value.value == [VUint(At(bytes, 8, 4)), VUint(At(bytes, 12, 4))] + if version == 1 then [VUint(At(bytes, 16, 8))] else []
  {
    hide ReadUint, Multiple, DecodeValues, Value;
    Aligned();
    var ts, limit := HEADERS[version].fields, if version == 1 then 24 else 16;
    FieldAt(bytes, ts, d, 8, limit);
    var d1 := ReadUint(bytes, d, 4).value.rest;
    FieldAt(bytes, ts[1..], d1, 12, limit);
    var d2 := ReadUint(bytes, d1, 4).value.rest;
    if version == 1 {
      FieldAt(bytes, ts[1..][1..], d2, 16, limit);
      NoFields(bytes, ReadUint(bytes, d2, 8).value.rest);
      assert ts[1..][1..][1..] == [];
    } else {
      NoFields(bytes, d2);
      assert ts[1..][1..] == [];
    }
  }

  /** A header is accepted exactly if it has one of the two forms, and says what its
      bytes say. */
  lemma HeaderExactly(bytes: seq<byte>)
    ensures ParseHeader(bytes) == HeaderIn(bytes)
  {
    hide DecodeValues, Value;
    if |bytes| >= 8 {
      var size, version := At(bytes, 0, 4), At(bytes, 4, 4);
      if version <= 1 && size == (if version == 1 then 24 else 16) && size <= |bytes| {
        var d := OpenBlock(bytes, Decoding(8, 0, []), Header(size, version), false).value;
        FieldsIn(bytes, version, d);
      }
    }
  }

  /** The payload is what follows the header. */
  lemma MessageExactly(bytes: seq<byte>)
    ensures ParseMessage(bytes) ==
      match HeaderIn(bytes)
      case None => None
      case Some(h) => Some(Parsed(h, bytes[if h.flags == 0 then 16 else 24..]))
  {
    hide ParseHeader, Value;
    HeaderExactly(bytes);
  }
}
