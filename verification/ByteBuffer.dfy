/** The growable byte buffer: an array of signed bytes, the first `len` of which it holds. */
module ByteBuffer {
  import opened Basics
  import opened BigEndian
  import opened JvmInt
  import opened Growth

  type sbyte = n: int | -0x80 <= n < 0x80
  type ubyte = n: int | 0 <= n < 0x100

  function Signed(b: ubyte): sbyte {
    if b < 0x80 then b else b - 0x100
  }

  function Unsigned(b: sbyte): ubyte {
    if b < 0 then b + 0x100 else b
  }

  function UnsignedAll(s: seq<sbyte>): (r: seq<ubyte>) {
    seq(|s|, i requires 0 <= i < |s| => Unsigned(s[i]))
  }

  /** The hash of a buffer's bytes, taken one by one in `Int` arithmetic. */
  function HashOf(s: seq<ubyte>): int {
    if s == [] then 1 else Wrap(31 * HashOf(s[..|s| - 1]) + Signed(s[|s| - 1]), INT)
  }

  /** The polynomial the hash evaluates. */
  ghost function Polynomial(s: seq<ubyte>): int {
    if s == [] then 1 else 31 * Polynomial(s[..|s| - 1]) + Signed(s[|s| - 1])
  }

  /** Wrapping at every step is wrapping once. */
  lemma {:induction false} HashWrapsOnce(s: seq<ubyte>)
    ensures HashOf(s) == Wrap(Polynomial(s), INT)
  {
    if s != [] {
      var init, last := s[..|s| - 1], Signed(s[|s| - 1]);
      HashWrapsOnce(init);
      var t := WrapIsShifted(Polynomial(init));
      assert 31 * HashOf(init) + last == 31 * Polynomial(init) + last + (31 * t) * INT;
      WrapOfShifted(31 * Polynomial(init) + last, 31 * t, INT);
    } else {
      WrapFacts(1, INT);
    }
  }

  /** The sum of two lengths, as `Int` has it. */
  lemma WrapSum(a: nat, b: nat)
    requires a <= MAX_INT && b <= MAX_INT
    ensures Wrap(a + b, INT) == if a + b <= MAX_INT then a + b else a + b - INT
  {
    WrapFacts(a + b, INT);
    WrapOfShifted(a + b - INT, 1, INT);
    WrapFacts(a + b - INT, INT);
  }

  class SalvoBytes {
    var buf: array<sbyte>
    var len: nat
    /** How many bytes growing has copied so far. */
    ghost var copied: nat

    ghost predicate Valid()
      reads this, buf
    {
      len <= buf.Length <= MAX_INT
    }

    ghost function Contents(): (s: seq<ubyte>)
      reads this, buf
      requires Valid()
    {
      UnsignedAll(buf[..len])
    }

    constructor ()
      ensures Valid() && fresh(buf) && Contents() == [] && buf.Length == 16 && copied == 0
    {
      buf := new sbyte[16](_ => 0);
      len, copied := 0, 0;
    }

    /** A copy, with no room to spare. */
    constructor CopyOf(other: SalvoBytes)
      requires other.Valid()
      ensures Valid() && fresh(buf) && Contents() == other.Contents() && copied == 0
    {
      var source, n := other.buf, other.len;
      buf := new sbyte[n](i requires 0 <= i < n <= source.Length reads source => source[i]);
      len, copied := n, 0;
      new;
      assert buf[..len] == other.buf[..other.len];
    }

    /** Takes the array itself. */
    constructor Owning(bytes: array<sbyte>)
      requires bytes.Length <= MAX_INT
      ensures Valid() && buf == bytes && Contents() == UnsignedAll(bytes[..]) && copied == 0
    {
      buf, len, copied := bytes, bytes.Length, 0;
      new;
      assert buf[..len] == bytes[..];
    }

    /** Room for `need` bytes, wherever doubling can find it. */
    method Ensure(need: int)
      requires Valid() && need <= MAX_INT && CanGrow(buf.Length, need)
      modifies this`buf, this`copied
      ensures Valid() && (buf == old(buf) || fresh(buf)) && need <= buf.Length
      ensures buf[..len] == old(buf[..len])
      ensures need <= old(buf.Length) ==> buf == old(buf) && copied == old(copied)
      ensures need > old(buf.Length) ==>
                fresh(buf) && Some(buf.Length) == Grown(Start(old(buf.Length)), need, 32) && copied == old(copied) + old(buf.Length)
    {
      if need <= buf.Length { return; }
      var cap := if buf.Length < 16 then 16 else buf.Length;
      ghost var rounds: nat := 32;
      while cap < need
        invariant Grown(cap, need, rounds) == Grown(Start(buf.Length), need, 32) && Grown(cap, need, rounds).Some?
        invariant Fits(cap, INT)
        decreases rounds
      {
        cap := Wrap(cap * 2, INT);
        rounds := rounds - 1;
      }
      var source, size := buf, buf.Length;
      copied := copied + size;
      buf := new sbyte[cap](i requires 0 <= i && size <= source.Length reads source => if i < size then source[i] else 0);
    }

    /** Adds one byte. At 2^31 - 1 bytes the length overflows and the array write throws. */
    method Add(byte: ubyte) returns (ok: bool)
      requires Valid() && CanGrow(buf.Length, Wrap(len + 1, INT))
      modifies this, buf
      ensures Valid() && (buf == old(buf) || fresh(buf))
      ensures ok <==> old(len) < MAX_INT
      ensures Contents() == if ok then old(Contents()) + [byte] else old(Contents())
      ensures ok && old(len) < old(buf.Length) ==> buf == old(buf) && copied == old(copied)
      ensures ok && old(len) == old(buf.Length) ==>
                Some(buf.Length) == Grown(Start(old(buf.Length)), old(len) + 1, 32) && copied == old(copied) + old(buf.Length)
    {
      WrapFacts(len + 1, INT);
      Ensure(Wrap(len + 1, INT));
      if len >= buf.Length { return false; }
      buf[len] := Signed(byte);
      len := len + 1;
      ok := true;
      assert buf[..len] == old(buf[..len]) + [Signed(byte)];
    }

    /** Appends another buffer, or itself. */
    method Append(more: SalvoBytes) returns (ok: bool)
      requires Valid() && more.Valid() && (more == this || more.buf != buf)
      requires CanGrow(buf.Length, Wrap(len + more.len, INT))
      modifies this, buf
      ensures Valid() && (buf == old(buf) || fresh(buf))
      ensures ok <==> old(len) + old(more.len) <= MAX_INT
      ensures Contents() == if ok then old(Contents()) + old(more.Contents()) else old(Contents())
      ensures more != this ==> more.Valid() && more.Contents() == old(more.Contents())
    {
      WrapSum(len, more.len);
      Ensure(Wrap(len + more.len, INT));
      ok := CopyIn(more.buf, more.len);
    }

    /** Copies the first `n` bytes of an array behind the contents, or throws. */
    method CopyIn(source: array<sbyte>, n: nat) returns (ok: bool)
      requires Valid() && n <= source.Length && (source == buf ==> n <= len)
      modifies this`len, buf
      ensures Valid() && buf == old(buf) && (ok <==> old(len) + n <= buf.Length)
      ensures Contents() == if ok then old(Contents()) + UnsignedAll(old(source[..n])) else old(Contents())
      ensures source != buf ==> source[..] == old(source[..])
    {
      if len + n > buf.Length { return false; }
      var at := len;
      forall i | 0 <= i < n {
        buf[at + i] := source[i];
      }
      len := len + n;
      ok := true;
      assert buf[..len] == old(buf[..len]) + old(source[..n]);
    }

    /** The host's fill: `count` bytes of an array of its own. */
    method AppendArray(bytes: array<sbyte>, count: int) returns (ok: bool)
      requires Valid() && bytes != buf && bytes.Length <= MAX_INT && Fits(count, INT)
      requires CanGrow(buf.Length, Wrap(len + count, INT))
      modifies this, buf
      ensures Valid() && (buf == old(buf) || fresh(buf))
      ensures ok <==> 0 <= count <= bytes.Length && old(len) + count <= MAX_INT
      ensures Contents() == if ok then old(Contents()) + UnsignedAll(old(bytes[..count])) else old(Contents())
    {
      if count >= 0 { WrapSum(len, count); } else { WrapFacts(len + count, INT); }
      Ensure(Wrap(len + count, INT));
      if count < 0 || count > bytes.Length { return false; }
      ok := CopyIn(bytes, count);
    }

    /** Writes one byte in place, if there is one there. */
    method SetAt(index: int, byte: ubyte) returns (wrote: bool)
      requires Valid()
      modifies buf
      ensures Valid() && (wrote <==> 0 <= index < len)
      ensures Contents() == if wrote then old(Contents())[index := byte] else old(Contents())
    {
      if index < 0 || index >= len { return false; }
      buf[index] := Signed(byte);
      wrote := true;
      assert buf[..len] == old(buf[..len])[index := Signed(byte)];
    }

    method GetOrNull(index: int) returns (byte: Option<ubyte>)
      requires Valid()
      ensures byte == if 0 <= index < len then Some(Contents()[index]) else None
    {
      if 0 <= index < len { return Some(Unsigned(buf[index])); }
      return None;
    }

    /** Forgets the contents and keeps the room. */
    method Clear()
      requires Valid()
      modifies this`len
      ensures Valid() && Contents() == [] && buf == old(buf)
    {
      len := 0;
    }

    method Slice(start: int, end: int) returns (part: Option<SalvoBytes>)
      requires Valid()
      ensures part.Some? <==> 0 <= start <= end <= len
      ensures part.Some? ==>
                fresh(part.value) && fresh(part.value.buf) && part.value.Valid() && part.value.Contents() == Contents()[start..end]
    {
      if !(start >= 0 && end >= start && end <= len) { return None; }
      var source, n := buf, end - start;
      var copy := new sbyte[n](i requires 0 <= i && start + i < source.Length reads source => source[start + i]);
      var owner := new SalvoBytes.Owning(copy);
      assert copy[..] == buf[start..end];
      return Some(owner);
    }

    /** The first place a byte stands at. */
    method IndexOf(byte: ubyte) returns (at: Option<nat>)
      requires Valid()
      ensures at.None? <==> byte !in Contents()
      ensures at.Some? ==> at.value < len && Contents()[at.value] == byte && byte !in Contents()[..at.value]
    {
      for i := 0 to len
        invariant byte !in Contents()[..i]
      {
        if buf[i] == Signed(byte) {
          assert Contents()[i] == byte;
          return Some(i);
        }
        assert Contents()[..i + 1] == Contents()[..i] + [Contents()[i]];
      }
      assert Contents()[..len] == Contents();
      return None;
    }

    /** Buffers are equal exactly when their contents are, whatever their spare room holds. */
    method Equals(other: SalvoBytes) returns (same: bool)
      requires Valid() && other.Valid()
      ensures same <==> Contents() == other.Contents()
    {
      if len != other.len { return false; }
      for i := 0 to len
        invariant Contents()[..i] == other.Contents()[..i]
      {
        if buf[i] != other.buf[i] {
          assert Contents()[i] != other.Contents()[i];
          return false;
        }
        assert Contents()[..i + 1] == Contents()[..i] + [Contents()[i]];
        assert other.Contents()[..i + 1] == other.Contents()[..i] + [other.Contents()[i]];
      }
      assert Contents()[..len] == Contents() && other.Contents()[..len] == other.Contents();
      return true;
    }

    method HashCode() returns (h: int)
      requires Valid()
      ensures h == HashOf(Contents())
    {
      h := 1;
      ghost var all := Contents();
      for i := 0 to len
        invariant h == HashOf(all[..i])
      {
        assert all[..i + 1][..i] == all[..i];
        h := Wrap(31 * h + buf[i], INT);
      }
      assert all[..len] == all;
    }
  }

  /** Room enough for a growing buffer, and what finding it has cost. */
  ghost predicate Amortized(size: nat, len: nat, copied: nat) {
    copied + 16 == size && (size == 16 || size < 2 * len)
  }

  /** A buffer of given bytes, added one by one. Up to 2^30 of them nothing overflows, and growing
      copies fewer than twice as many bytes as the buffer holds. */
  method Of(elems: seq<ubyte>) returns (out: SalvoBytes)
    requires |elems| <= SAFE
    ensures fresh(out) && fresh(out.buf) && out.Valid() && out.Contents() == elems
    ensures out.copied <= 2 * |elems|
  {
    out := new SalvoBytes();
    for i := 0 to |elems|
      invariant fresh(out) && fresh(out.buf) && out.Valid() && out.Contents() == elems[..i]
      invariant Amortized(out.buf.Length, i, out.copied)
    {
      WrapFacts(i + 1, INT);
      RoomUpTo(out.buf.Length, i + 1);
      var ok := out.Add(elems[i]);
    }
    assert elems[..|elems|] == elems;
  }
}
