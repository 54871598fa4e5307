/** Little-endian numbers in byte strings. */
module LittleEndian {

  newtype Byte = x: int | 0 <= x < 256

  type Bytes = seq<Byte>

  /** A byte past the end counts as zero, as in `int.from_bytes` of a shortened little-endian slice. */
  function ByteAt(buf: Bytes, i: nat): nat {
    if i < |buf| then buf[i] as nat else 0
  }

  function U16(buf: Bytes, offset: nat): nat {
    ByteAt(buf, offset) + 0x100 * ByteAt(buf, offset + 1)
  }

  function U32(buf: Bytes, offset: nat): nat {
    U16(buf, offset) + 0x1_0000 * U16(buf, offset + 2)
  }

  function Put16(n: nat): Bytes
    requires n < 0x1_0000
  {
    [(n % 0x100) as Byte, (n / 0x100) as Byte]
  }

  function Put32(n: nat): Bytes
    requires n < 0x1_0000_0000
  {
    Put16(n % 0x1_0000) + Put16(n / 0x1_0000)
  }

  lemma Get16(buf: Bytes, offset: nat, n: nat)
    requires n < 0x1_0000 && offset + 2 <= |buf| && buf[offset..offset + 2] == Put16(n)
    ensures U16(buf, offset) == n
  {
    assert buf[offset] == buf[offset..offset + 2][0];
    assert buf[offset + 1] == buf[offset..offset + 2][1];
  }

  lemma Get32(buf: Bytes, offset: nat, n: nat)
    requires n < 0x1_0000_0000 && offset + 4 <= |buf| && buf[offset..offset + 4] == Put32(n)
    ensures U32(buf, offset) == n
  {
    var w := buf[offset..offset + 4];
    assert buf[offset..offset + 2] == w[..2] == Put16(n % 0x1_0000);
    assert buf[offset + 2..offset + 4] == w[2..] == Put16(n / 0x1_0000);
    Get16(buf, offset, n % 0x1_0000);
    Get16(buf, offset + 2, n / 0x1_0000);
  }

  lemma InMiddle(a: Bytes, b: Bytes, c: Bytes, from: nat, upto: nat)
    requires from <= upto <= |b|
    ensures (a + (b + c))[|a| + from..|a| + upto] == b[from..upto]
  {
  }

  lemma AtEnd(a: Bytes, b: Bytes, c: Bytes, from: nat, upto: nat)
    requires from <= upto <= |c|
    ensures (a + (b + c))[|a| + |b| + from..|a| + |b| + upto] == c[from..upto]
  {
  }
}
