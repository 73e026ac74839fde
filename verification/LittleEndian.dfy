/** Unsigned numbers as little-endian byte strings, and the list of 16-bit ids stored in boot variables. */
module LittleEndian {
  import opened Prelude

  function Pow256(n: nat): nat {
    if n == 0 then 1 else 0x100 * Pow256(n - 1)
  }

  function ToBytes(x: nat, n: nat): (bytes: seq<u8>)
    ensures |bytes| == n
  {
    if n == 0 then [] else [x % 0x100] + ToBytes(x / 0x100, n - 1)
  }

  function FromBytes(bytes: seq<u8>): nat {
    if bytes == [] then 0 else bytes[0] + 0x100 * FromBytes(bytes[1..])
  }

  lemma {:induction false} FromBytesBound(bytes: seq<u8>)
    ensures FromBytes(bytes) < Pow256(|bytes|)
  {
    if bytes != [] {
      FromBytesBound(bytes[1..]);
    }
  }

  /** A number that fits is recovered from its bytes. */
  lemma {:induction false} NumberRoundTrip(x: nat, n: nat)
    requires x < Pow256(n)
    ensures FromBytes(ToBytes(x, n)) == x
  {
    if n > 0 {
      NumberRoundTrip(x / 0x100, n - 1);
      assert ToBytes(x, n)[1..] == ToBytes(x / 0x100, n - 1);
    }
  }

  /** The number without its i least significant bytes. */
  function Shifted(x: nat, i: nat): nat {
    if i == 0 then x else Shifted(x / 0x100, i - 1)
  }

  /** The least significant byte comes first. */
  lemma {:induction false} ByteAt(x: nat, n: nat, i: nat)
    requires i < n
    ensures ToBytes(x, n)[i] == Shifted(x, i) % 0x100
  {
    if i > 0 {
      ByteAt(x / 0x100, n - 1, i - 1);
      assert ToBytes(x, n)[i] == ToBytes(x / 0x100, n - 1)[i - 1];
    }
  }

  /** Bytes are recovered from the number they encode. */
  lemma {:induction false} BytesRoundTrip(bytes: seq<u8>)
    ensures ToBytes(FromBytes(bytes), |bytes|) == bytes
  {
    if bytes != [] {
      BytesRoundTrip(bytes[1..]);
      assert FromBytes(bytes) / 0x100 == FromBytes(bytes[1..]);
    }
  }

  // ---------------------------------------------------------------- lists of ids

  function Encode(ids: seq<u16>): seq<u8> {
    if ids == [] then [] else ToBytes(ids[0], 2) + Encode(ids[1..])
  }

  lemma {:induction false} EncodeLength(ids: seq<u16>)
    ensures |Encode(ids)| == 2 * |ids|
  {
    if ids != [] {
      EncodeLength(ids[1..]);
    }
  }

  lemma {:induction false} EncodeConcat(a: seq<u16>, b: seq<u16>)
    ensures Encode(a + b) == Encode(a) + Encode(b)
  {
    if a == [] {
      assert a + b == b;
    } else {
      EncodeConcat(a[1..], b);
      assert (a + b)[1..] == a[1..] + b;
    }
  }

  /** Different lists have different encodings, so a list that encodes to the bytes read is the one written. */
  lemma {:induction false} EncodeInjective(a: seq<u16>, b: seq<u16>)
    requires Encode(a) == Encode(b)
    ensures a == b
  {
    EncodeLength(a);
    EncodeLength(b);
    if a != [] {
      assert Encode(a)[..2] == ToBytes(a[0], 2) && Encode(b)[..2] == ToBytes(b[0], 2);
      assert Pow256(2) == 0x1_0000;
      NumberRoundTrip(a[0], 2);
      NumberRoundTrip(b[0], 2);
      assert Encode(a)[2..] == Encode(a[1..]) && Encode(b)[2..] == Encode(b[1..]);
      EncodeInjective(a[1..], b[1..]);
    }
  }

  /** The ids stand one after the other, low byte first. */
  ghost predicate LowFirst(data: seq<u8>, ids: seq<u16>) {
    && |data| == 2 * |ids|
    && forall i :: 0 <= i < |ids| ==> ids[i] == (data[2 * i] as int) + 0x100 * (data[2 * i + 1] as int)
  }

  lemma FirstPair(id: u16)
    ensures ToBytes(id, 2) == [id % 0x100, id / 0x100]
  {
    ByteAt(id, 2, 0);
    ByteAt(id, 2, 1);
    assert Shifted(id, 1) == Shifted(id / 0x100, 0);
  }

  lemma {:induction false} EncodesLowFirst(ids: seq<u16>)
    ensures LowFirst(Encode(ids), ids)
  {
    EncodeLength(ids);
    if ids != [] {
      var data, rest := Encode(ids), Encode(ids[1..]);
      EncodesLowFirst(ids[1..]);
      FirstPair(ids[0]);
      assert data == [ids[0] % 0x100, ids[0] / 0x100] + rest;
      hide Encode, ToBytes;
      forall i | 0 <= i < |ids| ensures ids[i] == (data[2 * i] as int) + 0x100 * (data[2 * i + 1] as int) {
        if i > 0 {
          assert ids[i] == ids[1..][i - 1];
          assert data[2 * i] == rest[2 * (i - 1)] && data[2 * i + 1] == rest[2 * (i - 1) + 1];
        }
      }
    }
  }

  /** Decoding succeeds exactly on even lengths, with the list whose encoding was read. */
  method ReadU16(data: seq<u8>) returns (r: Result<seq<u16>>)
    ensures r.Ok? <==> |data| % 2 == 0
    ensures r.Ok? ==> Encode(r.value) == data && LowFirst(data, r.value)
  {
    var ids: seq<u16> := [];
    var at := 0;
    while at < |data|
      invariant at <= |data| && at % 2 == 0
      invariant Encode(ids) == data[..at]
      decreases |data| - at
    {
      if |data| - at < 2 { return Err("unexpected EOF"); }
      var id: u16 := FromPair(data[at], data[at + 1]);
      EncodeConcat(ids, [id]);
      PairEncodes(data[at], data[at + 1]);
      assert data[..at + 2] == data[..at] + [data[at], data[at + 1]];
      ids := ids + [id];
      at := at + 2;
    }
    assert data[..at] == data;
    EncodesLowFirst(ids);
    return Ok(ids);
  }

  function FromPair(lo: u8, hi: u8): u16 {
    lo + 0x100 * hi
  }

  lemma PairEncodes(lo: u8, hi: u8)
    ensures Encode([FromPair(lo, hi)]) == [lo, hi]
  {
    var x := FromPair(lo, hi);
    assert ToBytes(x, 2) == [x % 0x100] + ToBytes(x / 0x100, 1);
    assert ToBytes(x / 0x100, 1) == [x / 0x100 % 0x100] + ToBytes(x / 0x100 / 0x100, 0);
    assert [x][1..] == [];
  }

  method WriteU16(ids: seq<u16>) returns (data: seq<u8>)
    ensures data == Encode(ids) && LowFirst(data, ids)
  {
    data := [];
    for k := 0 to |ids|
      invariant data == Encode(ids[..k])
    {
      var id := ids[k];
      EncodeConcat(ids[..k], [id]);
      PairEncodes(id % 0x100, id / 0x100);
      assert ids[..k + 1] == ids[..k] + [id];
      data := data + [id % 0x100, id / 0x100];
    }
    assert ids[..|ids|] == ids;
    EncodesLowFirst(ids);
  }
}
