/** `Buffer`: a growing array with a readable window, refined to the plain sequence of bytes in that
    window, and the big-endian integers stored in it. */
module Buffers {
  import opened Bytes

  // ----- big-endian integers

  function Pow256(w: nat): nat {
    if w == 0 then 1 else 256 * Pow256(w - 1)
  }

  function EncodeNat(v: nat, w: nat): (s: Text)
    ensures |s| == w
  {
    if w == 0 then [] else EncodeNat(v / 256, w - 1) + [(v % 256) as char]
  }

  function DecodeNat(s: Text): (v: nat)
    ensures v < Pow256(|s|)
  {
    if s == [] then 0
    else
      var v := DecodeNat(s[..|s| - 1]);
      assert v <= Pow256(|s| - 1) - 1;
      256 * v + s[|s| - 1] as int
  }

  lemma {:induction false} NatRoundTrip(v: nat, w: nat)
    requires v < Pow256(w)
    ensures DecodeNat(EncodeNat(v, w)) == v
  {
    if w > 0 {
      NatRoundTrip(v / 256, w - 1);
      var s := EncodeNat(v, w);
      assert s[..|s| - 1] == EncodeNat(v / 256, w - 1);
    }
  }

  lemma {:induction false} BytesRoundTrip(s: Text)
    ensures EncodeNat(DecodeNat(s), |s|) == s
  {
    if s != [] {
      var h := s[..|s| - 1];
      BytesRoundTrip(h);
      assert DecodeNat(s) / 256 == DecodeNat(h) && DecodeNat(s) % 256 == s[|s| - 1] as int;
      assert s == h + [s[|s| - 1]];
    }
  }

  /** The range of a signed integer of `w` bytes. */
  predicate FitsSigned(x: int, w: nat) {
    -(Pow256(w) / 2) <= x < Pow256(w) / 2
  }

  /** Two's complement, most significant byte first. */
  function EncodeInt(x: int, w: nat): (s: Text)
    requires w > 0 && FitsSigned(x, w)
    ensures |s| == w
  {
    EncodeNat(if x < 0 then x + Pow256(w) else x, w)
  }

  function DecodeInt(s: Text): int {
    var v := DecodeNat(s);
    if v < Pow256(|s|) / 2 then v else v - Pow256(|s|)
  }

  lemma Pow256IsEven(w: nat)
    requires w > 0
    ensures Pow256(w) == 2 * (Pow256(w) / 2)
  {
    assert Pow256(w) == 2 * (128 * Pow256(w - 1));
  }

  /** Signed integers survive the way through the buffer, whatever their width and sign. */
  lemma IntRoundTrip(x: int, w: nat)
    requires w > 0 && FitsSigned(x, w)
    ensures DecodeInt(EncodeInt(x, w)) == x
  {
    Pow256IsEven(w);
    NatRoundTrip(if x < 0 then x + Pow256(w) else x, w);
  }

  lemma DecodeIntFits(s: Text)
    requires s != []
    ensures FitsSigned(DecodeInt(s), |s|) && EncodeInt(DecodeInt(s), |s|) == s
  {
    Pow256IsEven(|s|);
    BytesRoundTrip(s);
  }

  // ----- the buffer

  const CHEAP_PREPEND: nat := 8
  const INITIAL_SIZE: nat := 1024
  const EXTRABUF_SIZE: nat := 65536

  class Buffer {
    var buffer: array<Byte>
    var readerIndex: nat
    var writerIndex: nat

    ghost predicate Valid()
      reads this
    {
      readerIndex <= writerIndex <= buffer.Length && CHEAP_PREPEND <= buffer.Length
    }

    /** The readable window: what peek() and toStringPiece() show. */
    function Content(): Text
      requires Valid()
      reads this, buffer
    {
      buffer[readerIndex..writerIndex]
    }

    constructor ()
      ensures Valid() && fresh(buffer) && Content() == []
      ensures readerIndex == 8 && buffer.Length == 8 + 1024
    {
      buffer := new Byte[CHEAP_PREPEND + INITIAL_SIZE](_ => '\0');
      readerIndex, writerIndex := CHEAP_PREPEND, CHEAP_PREPEND;
    }

    function ReadableBytes(): nat
      requires Valid()
      reads this, buffer
      ensures ReadableBytes() == |Content()|
    {
      writerIndex - readerIndex
    }

    function WritableBytes(): nat
      requires Valid()
      reads this
    {
      buffer.Length - writerIndex
    }

    /** std::copy within the array, toward its front: the source may overlap the destination. */
    method MoveDown()
      requires Valid() && CHEAP_PREPEND < readerIndex
      modifies this`readerIndex, this`writerIndex, buffer
      ensures Valid() && Content() == old(Content())
      ensures readerIndex == CHEAP_PREPEND && buffer == old(buffer)
    {
      var readable := writerIndex - readerIndex;
      for i := 0 to readable
        invariant readerIndex == old(readerIndex) && writerIndex == old(writerIndex)
        invariant buffer[CHEAP_PREPEND..CHEAP_PREPEND + i] == old(Content())[..i]
        invariant buffer[readerIndex + i..writerIndex] == old(Content())[i..]
      {
        assert buffer[readerIndex + i] == buffer[readerIndex + i..writerIndex][0] == old(Content())[i];
        buffer[CHEAP_PREPEND + i] := buffer[readerIndex + i];
        assert buffer[CHEAP_PREPEND..CHEAP_PREPEND + i + 1] == buffer[CHEAP_PREPEND..CHEAP_PREPEND + i] + [old(Content())[i]];
      }
      readerIndex := CHEAP_PREPEND;
      writerIndex := readerIndex + readable;
    }

    method Resize(size: nat)
      requires Valid() && size >= buffer.Length
      modifies this`buffer
      ensures Valid() && fresh(buffer) && buffer.Length == size && Content() == old(Content())
    {
      var bigger := new Byte[size](_ => '\0');
      for i := 0 to buffer.Length
        invariant buffer == old(buffer)
        invariant forall j :: 0 <= j < i ==> bigger[j] == old(buffer[j])
      {
        bigger[i] := buffer[i];
      }
      buffer := bigger;
    }

    /** The array grows only if the bytes in front of the window would not make room. */
    method MakeSpace(len: nat)
      requires Valid() && WritableBytes() < len
      modifies this, buffer
      ensures Valid() && Content() == old(Content()) && WritableBytes() >= len
      ensures if old(buffer.Length) - |old(Content())| < len + CHEAP_PREPEND
              then fresh(buffer) && readerIndex == old(readerIndex) && WritableBytes() == len
              else buffer == old(buffer) && readerIndex == CHEAP_PREPEND
    {
      if WritableBytes() + readerIndex < len + CHEAP_PREPEND {
        Resize(writerIndex + len);
      } else {
        assert CHEAP_PREPEND < readerIndex;
        MoveDown();
      }
    }

    method EnsureWritableBytes(len: nat)
      requires Valid()
      modifies this, buffer
      ensures Valid() && Content() == old(Content()) && WritableBytes() >= len
      ensures buffer == old(buffer) || fresh(buffer)
      ensures readerIndex == old(readerIndex) || readerIndex == CHEAP_PREPEND
    {
      if WritableBytes() < len {
        MakeSpace(len);
      }
    }

    /** Copies `data` to `buffer[at..]`. */
    method CopyIn(at: nat, data: Text)
      requires Valid() && at + |data| <= buffer.Length
      modifies buffer
      ensures buffer[..] == old(buffer[..at]) + data + old(buffer[at + |data|..])
    {
      for i := 0 to |data|
        invariant buffer[..at] == old(buffer[..at])
        invariant buffer[at..at + i] == data[..i]
        invariant buffer[at + i..] == old(buffer[at + i..])
      {
        buffer[at + i] := data[i];
      }
      assert buffer[..] == buffer[..at] + buffer[at..at + |data|] + buffer[at + |data|..];
    }

    method Append(data: Text)
      requires Valid()
      modifies this, buffer
      ensures Valid() && Content() == old(Content()) + data
      ensures buffer == old(buffer) || fresh(buffer)
      ensures readerIndex == old(readerIndex) || readerIndex == CHEAP_PREPEND
    {
      EnsureWritableBytes(|data|);
      ghost var before := Content();
      CopyIn(writerIndex, data);
      writerIndex := writerIndex + |data|;
      assert buffer[readerIndex..writerIndex] == buffer[..][readerIndex..writerIndex] == before + data;
    }

    method Prepend(data: Text)
      requires Valid() && |data| <= readerIndex
      modifies this, buffer
      ensures Valid() && Content() == data + old(Content()) && buffer == old(buffer)
      ensures readerIndex == old(readerIndex) - |data|
    {
      ghost var before := Content();
      readerIndex := readerIndex - |data|;
      CopyIn(readerIndex, data);
      assert buffer[readerIndex..writerIndex] == buffer[..][readerIndex..writerIndex] == data + before;
    }

    method RetrieveAll()
      requires Valid()
      modifies this`readerIndex, this`writerIndex
      ensures Valid() && Content() == []
    {
      readerIndex, writerIndex := CHEAP_PREPEND, CHEAP_PREPEND;
    }

    method Retrieve(len: nat)
      requires Valid() && len <= ReadableBytes()
      modifies this`readerIndex, this`writerIndex
      ensures Valid() && Content() == old(Content())[len..]
    {
      if len < writerIndex - readerIndex {
        readerIndex := readerIndex + len;
      } else {
        RetrieveAll();
      }
    }

    method RetrieveAsString(len: nat) returns (result: Text)
      requires Valid() && len <= ReadableBytes()
      modifies this`readerIndex, this`writerIndex
      ensures Valid() && result + Content() == old(Content()) && |result| == len
    {
      result := buffer[readerIndex..readerIndex + len];
      Retrieve(len);
    }

    method Unwrite(len: nat)
      requires Valid() && len <= ReadableBytes()
      modifies this`writerIndex
      ensures Valid() && Content() == old(Content())[..|old(Content())| - len]
    {
      writerIndex := writerIndex - len;
    }

    /** Moves the content to a fresh buffer and takes its storage over. */
    method Shrink(reserve: nat)
      requires Valid()
      modifies this
      ensures Valid() && fresh(buffer) && Content() == old(Content()) && WritableBytes() >= reserve
    {
      var other := new Buffer();
      var readable := buffer[readerIndex..writerIndex];
      other.EnsureWritableBytes(|readable| + reserve);
      other.AppendInPlace(readable);
      buffer, readerIndex, writerIndex := other.buffer, other.readerIndex, other.writerIndex;
    }

    /** `append` when the room is already there: the storage stays. */
    method AppendInPlace(data: Text)
      requires Valid() && |data| <= WritableBytes()
      modifies this`writerIndex, buffer
      ensures Valid() && Content() == old(Content()) + data && buffer == old(buffer)
      ensures WritableBytes() == old(WritableBytes()) - |data|
    {
      ghost var before := Content();
      CopyIn(writerIndex, data);
      writerIndex := writerIndex + |data|;
      assert buffer[readerIndex..writerIndex] == buffer[..][readerIndex..writerIndex] == before + data;
    }

    /** `readFd`. The kernel holds `input` and hands out its first `n` bytes, filling the writable
        part of the buffer first and the stack array after it; a negative `n` is an error. */
    method ReadFd(input: Text, n: int) returns (result: int)
      requires Valid() && n <= |input|
      requires n <= WritableBytes() + if WritableBytes() < EXTRABUF_SIZE then EXTRABUF_SIZE else 0
      modifies this, buffer
      ensures Valid() && result == n
      ensures Content() == old(Content()) + if n < 0 then [] else input[..n]
      ensures buffer == old(buffer) || fresh(buffer)
    {
      var writable := WritableBytes();
      if n < 0 {
        assert Content() == old(Content()) + [];
      } else if n <= writable {
        AppendInPlace(input[..n]);
      } else {
        AppendInPlace(input[..writable]);
        var extrabuf := input[writable..n];
        assert writerIndex == buffer.Length;
        Append(extrabuf);
        assert input[..writable] + extrabuf == input[..n];
      }
      result := n;
    }

    method AppendInt(x: int, w: nat)
      requires Valid() && w > 0 && FitsSigned(x, w)
      modifies this, buffer
      ensures Valid() && Content() == old(Content()) + EncodeInt(x, w)
      ensures buffer == old(buffer) || fresh(buffer)
    {
      Append(EncodeInt(x, w));
    }

    method PrependInt(x: int, w: nat)
      requires Valid() && 0 < w <= readerIndex && FitsSigned(x, w)
      modifies this, buffer
      ensures Valid() && Content() == EncodeInt(x, w) + old(Content()) && buffer == old(buffer)
    {
      Prepend(EncodeInt(x, w));
    }

    function PeekInt(w: nat): (x: int)
      requires Valid() && 0 < w <= ReadableBytes()
      reads this, buffer
      ensures forall y, rest :: FitsSigned(y, w) && Content() == EncodeInt(y, w) + rest ==> x == y
    {
      var bytes := buffer[readerIndex..readerIndex + w];
      assert forall y, rest :: FitsSigned(y, w) && Content() == EncodeInt(y, w) + rest ==> DecodeInt(bytes) == y by {
        forall y, rest | FitsSigned(y, w) && Content() == EncodeInt(y, w) + rest ensures DecodeInt(bytes) == y {
          assert bytes == Content()[..w] == EncodeInt(y, w);
          IntRoundTrip(y, w);
        }
      }
      DecodeInt(bytes)
    }

    method ReadInt(w: nat) returns (x: int)
      requires Valid() && 0 < w <= ReadableBytes()
      modifies this`readerIndex, this`writerIndex
      ensures Valid() && x == DecodeInt(old(Content())[..w]) && Content() == old(Content())[w..]
    {
      assert buffer[readerIndex..readerIndex + w] == Content()[..w];
      x := PeekInt(w);
      Retrieve(w);
    }
  }
}
