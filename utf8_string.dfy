/**
 * `Utf8String`: a size and an owned, NUL-terminated byte buffer, with the
 * `CharView` iterator over it. Pointers into the buffer are offsets.
 */
module Utf8Strings {
  import opened Bytes

  class Utf8String {
    var size: nat
    var data: array?<byte>

    /** Either no buffer and size 0, or a buffer of `size` bytes followed by a NUL. */
    predicate Valid()
      reads this, data
    {
      (data == null ==> size == 0) &&
      (data != null ==> data.Length == size + 1 && data[size] == 0)
    }

    /** The `size` bytes the string holds (`to_s()`). */
    function Text(): (t: seq<byte>)
      requires Valid()
      reads this, data
      ensures |t| == size
    {
      if data == null then [] else data[..size]
    }

    /** `dup(bytes, n)`: a new buffer with the first `n` bytes and a NUL after them. */
    static method Dup(bytes: seq<byte>, n: nat) returns (v: array<byte>)
      requires n <= |bytes|
      ensures fresh(v)
      ensures v.Length == n + 1 && v[..n] == bytes[..n] && v[n] == 0
    {
      v := new byte[n + 1];
      forall i | 0 <= i < n {
        v[i] := bytes[i];
      }
      v[n] := 0;
    }

    /** `Utf8String()`: empty, with no buffer. */
    constructor ()
      ensures Valid() && size == 0 && data == null && Text() == []
    {
      size := 0;
      data := null;
    }

    /** `Utf8String(bytes, size)`: a private copy of the first `size` bytes. */
    constructor FromBytes(bytes: seq<byte>, size: nat)
      requires size <= |bytes|
      ensures Valid() && this.size == size && data != null && fresh(data)
      ensures Text() == bytes[..size]
    {
      var buffer := Dup(bytes, size);
      this.size := size;
      data := buffer;
    }

    /**
     * `Utf8String(const Utf8String&&)`: the source is const, so nothing is
     * moved; the bytes are copied into a buffer of its own.
     */
    constructor Duplicate(v: Utf8String)
      requires v.Valid()
      ensures Valid() && size == v.size && data != null && fresh(data)
      ensures Text() == v.Text()
    {
      var source := if v.data == null then [] else v.data[..];
      var buffer := Dup(source, v.size);
      size := v.size;
      data := buffer;
    }

    /** `empty()`. */
    function IsEmpty(): (e: bool)
      requires Valid()
      reads this, data
      ensures e <==> Text() == []
    {
      size == 0
    }

    /** `size()`. */
    function Size(): (n: nat)
      requires Valid()
      reads this, data
      ensures n == |Text()|
    {
      size
    }

    /** `operator=(const Utf8String&)`: does not copy anything and hands back the target. */
    method CopyAssign(v: Utf8String) returns (r: Utf8String)
      ensures r == this
    {
      r := this;
    }

    /**
     * `operator=(Utf8String&&)`: the target takes the source's buffer and
     * size, and the source is left empty. Moving a string into itself
     * leaves it empty as well (its own buffer is released first).
     */
    method MoveAssign(v: Utf8String) returns (r: Utf8String)
      requires Valid() && v.Valid()
      modifies this, v
      ensures r == this
      ensures v != this ==> data == old(v.data) && size == old(v.size)
      ensures v.data == null && v.size == 0 && v.Valid()
      ensures Valid()
      ensures v != this ==> Text() == old(v.Text())
      ensures v == this ==> Text() == []
    {
      data := v.data;
      v.data := null;
      size := v.size;
      v.size := 0;
      r := this;
    }
  }

  /** `CharView::iterator`: a position in the bytes and the end position. */
  class CharIterator {
    var current: nat
    const end: nat

    /** `CharView::begin()`: from the first byte to the end of the text. */
    constructor Begin(s: Utf8String)
      ensures current == 0 && end == s.size
    {
      current := 0;
      end := s.size;
    }

    /** `CharView::end()`: already at the end. */
    constructor End(s: Utf8String)
      ensures current == s.size && end == s.size
    {
      current := s.size;
      end := s.size;
    }

    /** `operator++`: one byte on, but never past the end. */
    method Next()
      requires current <= end
      modifies this
      ensures current <= end
      ensures old(current) < end ==> current == old(current) + 1
      ensures old(current) == end ==> current == end
    {
      if current != end {
        current := current + 1;
      }
    }
  }
}
