/**
  Unsigned base-128 varints, as Go's encoding/binary writes and reads them:
  seven value bits per byte, least significant group first, the top bit set on
  every byte but the last, at most ten bytes for 64 bits.
 */
module Varint {
  import opened Base

  /** `Bad` stands for the results of binary.Uvarint whose byte count is not positive. */
  datatype Varint = Value(x: uint64, n: nat) | Bad

  const MAX_VARINT_LEN := 10

  /** The first value that does not fit when `room` more bytes may be read. */
  function Limit(room: nat): (limit: nat)
    ensures room >= 1 ==> limit >= 2
    ensures room >= 2 ==> limit >= 256
  {
    if room == 0 then 0 else if room == 1 then 2 else 128 * Limit(room - 1)
  }

  datatype Scanned = Found(x: nat, n: nat) | NotFound

  function Scan(buf: seq<byte>, room: nat): (r: Scanned)
    ensures r.Found? ==> r.x < Limit(room) && 1 <= r.n <= |buf|
  {
    if buf == [] || room == 0 then NotFound
    else if buf[0] < 0x80 then
      if room == 1 && buf[0] > 1 then NotFound else Found(buf[0], 1)
    else
      var rest := Scan(buf[1..], room - 1);
      if rest.NotFound? then NotFound else Found(buf[0] - 0x80 + 128 * rest.x, rest.n + 1)
  }

  function Uvarint(buf: seq<byte>): (r: Varint)
    ensures r.Value? ==> 1 <= r.n <= |buf|
  {
    var r := Scan(buf, MAX_VARINT_LEN);
    if r.Found? then assert Limit(10) == 0x1_0000_0000_0000_0000; Value(r.x, r.n) else Bad
  }

  function PutUvarint(x: uint64): (b: seq<byte>)
    ensures |b| >= 1
  {
    if x < 0x80 then [x] else [x % 0x80 + 0x80] + PutUvarint(x / 0x80)
  }

  // ---- reference: what the bytes denote ----------------------------------

  /** The number written by the seven low bits of each byte, least significant first. */
  function Base128(s: seq<byte>): nat
  {
    if s == [] then 0 else s[0] % 128 + 128 * Base128(s[1..])
  }

  /** The first n bytes of buf are one complete varint: only the last has its top bit clear. */
  predicate IsTerminated(buf: seq<byte>, n: nat)
  {
    1 <= n <= |buf| && buf[n - 1] < 0x80 && forall i | 0 <= i < n - 1 :: buf[i] >= 0x80
  }

  lemma {:induction false} ScanSound(buf: seq<byte>, room: nat)
    requires Scan(buf, room).Found?
    ensures var Found(x, n) := Scan(buf, room);
            IsTerminated(buf, n) && n <= room && x == Base128(buf[..n])
    decreases room
  {
    var n := Scan(buf, room).n;
    if buf[0] < 0x80 {
      assert buf[..1][1..] == [];
    } else {
      ScanSound(buf[1..], room - 1);
      assert buf[..n][1..] == buf[1..][..n - 1];
      TailTerminated(buf, n);
    }
  }

  lemma {:induction false} ScanComplete(buf: seq<byte>, room: nat, n: nat)
    requires IsTerminated(buf, n) && n <= room && Base128(buf[..n]) < Limit(room)
    ensures Scan(buf, room) == Found(Base128(buf[..n]), n)
    decreases room
  {
    if n == 1 {
      assert buf[..1][1..] == [];
    } else {
      assert buf[..n][1..] == buf[1..][..n - 1];
      TailTerminated(buf, n);
      ScanComplete(buf[1..], room - 1, n - 1);
    }
  }

  lemma TailTerminated(buf: seq<byte>, n: nat)
    requires n >= 2 && |buf| >= 1 && buf[0] >= 0x80
    ensures IsTerminated(buf, n) <==> IsTerminated(buf[1..], n - 1)
  {
  }

  /** Uvarint returns exactly the value denoted by a terminated run of at most ten bytes below 2^64. */
  lemma UvarintExact(buf: seq<byte>, x: uint64, n: nat)
    ensures Uvarint(buf) == Value(x, n) <==>
            IsTerminated(buf, n) && n <= MAX_VARINT_LEN && Base128(buf[..n]) == x
  {
    assert Limit(10) == 0x1_0000_0000_0000_0000;
    if Scan(buf, MAX_VARINT_LEN).Found? {
      ScanSound(buf, MAX_VARINT_LEN);
    }
    if IsTerminated(buf, n) && n <= MAX_VARINT_LEN && Base128(buf[..n]) == x {
      ScanComplete(buf, MAX_VARINT_LEN, n);
    }
  }

  lemma {:induction false} ScanUndoesPut(x: uint64, room: nat, rest: seq<byte>)
    requires x < Limit(room)
    ensures Scan(PutUvarint(x) + rest, room) == Found(x, |PutUvarint(x)|)
    decreases room
  {
    if x >= 0x80 {
      assert (PutUvarint(x) + rest)[1..] == PutUvarint(x / 0x80) + rest;
      ScanUndoesPut(x / 0x80, room - 1, rest);
    }
  }

  /** Reading back what AppendUvarint wrote, whatever follows it. */
  lemma UvarintUndoesPut(x: uint64, rest: seq<byte>)
    ensures Uvarint(PutUvarint(x) + rest) == Value(x, |PutUvarint(x)|)
  {
    assert Limit(10) == 0x1_0000_0000_0000_0000;
    ScanUndoesPut(x, MAX_VARINT_LEN, rest);
  }

  /** No terminated run of bytes that denotes x is shorter than what AppendUvarint writes. */
  lemma {:induction false} PutIsShortest(x: uint64, buf: seq<byte>, n: nat)
    requires IsTerminated(buf, n) && Base128(buf[..n]) == x
    ensures |PutUvarint(x)| <= n
    decreases n
  {
    assert buf[..n][1..] == buf[1..][..n - 1];
    if x >= 0x80 && n > 1 {
      TailTerminated(buf, n);
      PutIsShortest(x / 0x80, buf[1..], n - 1);
    }
  }

  /** The payload comment promises 1 to 9 bytes; ids from 2^63 on take ten. */
  lemma EncodedLength(x: uint64)
    ensures |PutUvarint(x)| <= 10
    ensures |PutUvarint(x)| <= 9 <==> x < 0x8000_0000_0000_0000
  {
    LengthBelow(x, 9);
    LengthBelow(x, 10);
    assert Pow128(9) == 0x8000_0000_0000_0000;
    assert Pow128(10) == 0x40_0000_0000_0000_0000;
  }

  function Pow128(k: nat): nat
  {
    if k == 0 then 1 else 128 * Pow128(k - 1)
  }

  lemma {:induction false} LengthBelow(x: uint64, k: nat)
    requires k >= 1
    ensures |PutUvarint(x)| <= k <==> x < Pow128(k)
    decreases k
  {
    if k == 1 {
      assert Pow128(1) == 128;
    } else {
      assert Pow128(k) == 128 * Pow128(k - 1);
      LengthBelow(x / 0x80, k - 1);
      Pow128Positive(k - 1);
    }
  }

  lemma {:induction false} Pow128Positive(k: nat)
    ensures Pow128(k) >= 1
    ensures k >= 1 ==> Pow128(k) >= 128
  {
    if k >= 1 {
      Pow128Positive(k - 1);
    }
  }
}
