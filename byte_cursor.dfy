/**
 * The forward-only byte cursor that `VMClassLoader::defineClass` builds from
 * its `read8`/`read16`/`read32`/`consume`/`readn` lambdas.
 *
 * The functions below say what each read yields and where it leaves the
 * cursor; the `Cursor` class performs the reads on a mutable offset and is
 * proved to agree with them. Reading at or past the end yields EOF truncated
 * to a byte (0xFF) and leaves the offset where it is; `consume` adds to the
 * offset without any bound check.
 */
module ByteCursor {
  import opened Bytes

  /** The byte `read8` yields with the cursor at `off`. */
  function ByteAt(data: seq<byte>, off: nat): byte
  {
    if off < |data| then data[off] else 0xFF
  }

  /** The cursor after one `read8` at `off`: it moves only while inside the buffer. */
  function After8(data: seq<byte>, off: nat): nat
  {
    if off < |data| then off + 1 else off
  }

  /** `read16`: two `read8`s, the first one the high byte (left-to-right order fixed). */
  function U16At(data: seq<byte>, off: nat): u16
  {
    ByteAt(data, off) as int * 0x100 + ByteAt(data, After8(data, off))
  }

  function After16(data: seq<byte>, off: nat): nat
  {
    After8(data, After8(data, off))
  }

  /** `read32`: two `read16`s, the first one the high half. */
  function U32At(data: seq<byte>, off: nat): u32
  {
    U16At(data, off) as int * 0x1_0000 + U16At(data, After16(data, off))
  }

  function After32(data: seq<byte>, off: nat): nat
  {
    After16(data, After16(data, off))
  }

  /** The cursor after `n` successive `read8`s. */
  function AfterN(data: seq<byte>, off: nat, n: nat): nat
  {
    if n == 0 then off else After8(data, AfterN(data, off, n - 1))
  }

  /** The bytes `readn` copies: `n` successive `read8`s. */
  function BytesAt(data: seq<byte>, off: nat, n: nat): seq<byte>
  {
    if n == 0 then [] else BytesAt(data, off, n - 1) + [ByteAt(data, AfterN(data, off, n - 1))]
  }

  // ---------------------------------------------------------------------------
  // What the reads mean

  /** Successive reads stop at the end of the buffer and never move once past it. */
  lemma {:induction false} AfterNClamps(data: seq<byte>, off: nat, n: nat)
    ensures AfterN(data, off, n) == if off >= |data| then off
                                    else if off + n <= |data| then off + n else |data|
  {
    if n > 0 {
      AfterNClamps(data, off, n - 1);
    }
  }

  /** `readn` yields the byte at each successive position, 0xFF wherever the buffer has ended. */
  lemma {:induction false} BytesAtPositions(data: seq<byte>, off: nat, n: nat)
    ensures |BytesAt(data, off, n)| == n
    ensures forall k :: 0 <= k < n ==> BytesAt(data, off, n)[k] == ByteAt(data, off + k)
  {
    if n > 0 {
      BytesAtPositions(data, off, n - 1);
      AfterNClamps(data, off, n - 1);
    }
  }

  /** Inside the buffer `readn` copies exactly the `n` bytes at the cursor and advances by `n`. */
  lemma BytesAtInBounds(data: seq<byte>, off: nat, n: nat)
    requires off + n <= |data|
    ensures BytesAt(data, off, n) == data[off..off + n]
    ensures AfterN(data, off, n) == off + n
  {
    BytesAtPositions(data, off, n);
    AfterNClamps(data, off, n);
  }

  /** Inside the buffer `read16` is big-endian and advances by two. */
  lemma U16InBounds(data: seq<byte>, off: nat)
    requires off + 2 <= |data|
    ensures U16At(data, off) == data[off] as int * 0x100 + data[off + 1]
    ensures After16(data, off) == off + 2
  {
  }

  /** Inside the buffer `read32` is big-endian and advances by four. */
  lemma U32InBounds(data: seq<byte>, off: nat)
    requires off + 4 <= |data|
    ensures U32At(data, off) ==
      ((data[off] as int * 0x100 + data[off + 1]) * 0x100 + data[off + 2]) * 0x100 + data[off + 3]
    ensures After32(data, off) == off + 4
  {
    U16InBounds(data, off);
    U16InBounds(data, off + 2);
  }

  /** At or past the end every read yields all-ones bits and leaves the cursor in place. */
  lemma ReadsPastEnd(data: seq<byte>, off: nat)
    requires off >= |data|
    ensures ByteAt(data, off) == 0xFF && After8(data, off) == off
    ensures U16At(data, off) == 0xFFFF && After16(data, off) == off
    ensures U32At(data, off) == 0xFFFF_FFFF && After32(data, off) == off
  {
  }

  // ---------------------------------------------------------------------------
  // The cursor itself

  class Cursor {
    const data: seq<byte>
    var offset: nat

    constructor (data: seq<byte>)
      ensures this.data == data && offset == 0
    {
      this.data := data;
      offset := 0;
    }

    method Read8() returns (b: byte)
      modifies this
      ensures b == ByteAt(data, old(offset))
      ensures offset == After8(data, old(offset))
    {
      if offset < |data| {
        b := data[offset];
        offset := offset + 1;
      } else {
        b := 0xFF;
      }
    }

    method Read16() returns (v: u16)
      modifies this
      ensures v == U16At(data, old(offset))
      ensures offset == After16(data, old(offset))
    {
      var hi := Read8();
      var lo := Read8();
      v := hi as int * 0x100 + lo;
    }

    method Read32() returns (v: u32)
      modifies this
      ensures v == U32At(data, old(offset))
      ensures offset == After32(data, old(offset))
    {
      var hi := Read16();
      var lo := Read16();
      v := hi as int * 0x1_0000 + lo;
    }

    method Consume(n: nat)
      modifies this
      ensures offset == old(offset) + n
    {
      offset := offset + n;
    }

    /** `readn(buf, n)`: `n` successive `read8`s into the front of `buf`. */
    method ReadN(buf: array<byte>, n: nat)
      requires n <= buf.Length
      modifies this, buf
      ensures buf[..n] == BytesAt(data, old(offset), n)
      ensures buf[n..] == old(buf[n..])
      ensures offset == AfterN(data, old(offset), n)
    {
      var i := 0;
      while i < n
        invariant 0 <= i <= n
        invariant buf[..i] == BytesAt(data, old(offset), i)
        invariant buf[n..] == old(buf[n..])
        invariant offset == AfterN(data, old(offset), i)
      {
        var b := Read8();
        buf[i] := b;
        assert buf[..i + 1] == buf[..i] + [b];
        i := i + 1;
      }
    }
  }
}
