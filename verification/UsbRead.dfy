// The chunked reader of tests/dummy/UsbHostSerial_read.cpp.
module UsbRead {

  import opened Common

  // How many bytes the mock hands over at once.
  const CHUNK := 5

  function Min(a: nat, b: nat): nat {
    if a <= b then a else b
  }

  // The ring buffer: all it will ever hold, and how much has been taken (a function-static offset).
  class RingBuffer {
    const data: seq<Byte>
    var offset: nat

    ghost predicate Valid()
      reads this
    {
      offset <= |data|
    }

    constructor (data: seq<Byte>)
      ensures this.data == data && offset == 0 && Valid()
    {
      this.data, offset := data, 0;
    }

    // The next bytes, at most max and at most five; None when there are no more.
    method ReceiveUpTo(max: nat) returns (chunk: Option<seq<Byte>>)
      requires Valid()
      modifies this
      ensures Valid()
      ensures chunk.None? <==> old(offset) == |data|
      ensures chunk.None? ==> offset == old(offset)
      ensures chunk.Some? ==> offset == old(offset) + Min(Min(|data| - old(offset), max), CHUNK)
      ensures chunk.Some? ==> chunk.value == data[old(offset)..offset]
    {
      if offset >= |data| {
        return None;
      }
      var remaining := |data| - offset;
      var chunkSize := if remaining < max then remaining else max;
      if chunkSize > CHUNK {
        chunkSize := CHUNK;
      }
      chunk := Some(data[offset..offset + chunkSize]);
      offset := offset + chunkSize;
    }
  }

  // Index `at` on holds the n bytes of data from `from` on; the rest of the buffer is as before.
  ghost predicate Copied(data: seq<Byte>, from: nat, before: seq<Byte>, at: nat, n: nat,
                         buffer: seq<Byte>) {
    && from + n <= |data| && at + n <= |before| == |buffer|
    && (forall k :: at <= k < at + n ==> buffer[k] == data[from + k - at])
    && (forall k :: 0 <= k < |before| && !(at <= k < at + n) ==> buffer[k] == before[k])
  }

  // Two pieces copied one behind the other are one piece copied.
  lemma CopiedTwice(data: seq<Byte>, from: nat, before: seq<Byte>, at: nat, n: nat, m: nat,
                    middle: seq<Byte>, buffer: seq<Byte>)
    requires Copied(data, from, before, at, n, middle)
    requires Copied(data, from + n, middle, at + n, m, buffer)
    ensures Copied(data, from, before, at, n + m, buffer)
  {
    forall k | at <= k < at + n + m ensures buffer[k] == data[from + k - at] {
      assert k < at + n ==> buffer[k] == middle[k];
    }
  }

  // memcpy into dest from index `at` on.
  method Copy(dest: array<Byte>, at: nat, bytes: seq<Byte>)
    requires at + |bytes| <= dest.Length
    modifies dest
    ensures Copied(bytes, 0, old(dest[..]), at, |bytes|, dest[..])
  {
    for i := 0 to |bytes|
      invariant forall k :: at <= k < at + i ==> dest[k] == bytes[k - at]
      invariant forall k :: 0 <= k < dest.Length && !(at <= k < at + i) ==> dest[k] == old(dest[k])
    {
      dest[at + i] := bytes[i];
    }
  }

  // `read` into the buffer that starts `at` bytes into dest.
  method Read(ring: RingBuffer, dest: array<Byte>, at: nat, size: nat) returns (retVal: nat)
    requires ring.Valid() && at + size <= dest.Length
    modifies ring, dest
    ensures retVal == Min(size, |ring.data| - old(ring.offset))
    ensures ring.Valid() && ring.offset == old(ring.offset) + retVal
    ensures Copied(ring.data, old(ring.offset), old(dest[..]), at, retVal, dest[..])
  {
    retVal := 0;
    ghost var from, before := ring.offset, dest[..];
    while size > retVal
      invariant ring.Valid() && retVal <= size && ring.offset == from + retVal
      invariant Copied(ring.data, from, before, at, retVal, dest[..])
    {
      ghost var middle := dest[..];
      var ret := ring.ReceiveUpTo(size - retVal);
      if ret.None? {
        break;
      }
      Copy(dest, at + retVal, ret.value);
      CopiedPart(ring.data, from + retVal, ret.value, middle, at + retVal, dest[..]);
      CopiedTwice(ring.data, from, before, at, retVal, |ret.value|, middle, dest[..]);
      retVal := retVal + |ret.value|;
    }
  }

  lemma CopiedPart(data: seq<Byte>, from: nat, bytes: seq<Byte>, before: seq<Byte>, at: nat,
                   buffer: seq<Byte>)
    requires from + |bytes| <= |data| && bytes == data[from..from + |bytes|]
    requires Copied(bytes, 0, before, at, |bytes|, buffer)
    ensures Copied(data, from, before, at, |bytes|, buffer)
  {
  }

  function Sum(sizes: seq<nat>): nat {
    if sizes == [] then 0 else sizes[0] + Sum(sizes[1..])
  }

  // A read in any number of parts is the one read of their sum, although the chunks fall differently.
  method ReadInParts(ring: RingBuffer, dest: array<Byte>, at: nat, sizes: seq<nat>)
      returns (total: nat)
    requires ring.Valid() && at + Sum(sizes) <= dest.Length
    modifies ring, dest
    ensures total == Min(Sum(sizes), |ring.data| - old(ring.offset))
    ensures ring.Valid() && ring.offset == old(ring.offset) + total
    ensures Copied(ring.data, old(ring.offset), old(dest[..]), at, total, dest[..])
    decreases sizes
  {
    if sizes == [] {
      return 0;
    }
    ghost var from, before := ring.offset, dest[..];
    var first := Read(ring, dest, at, sizes[0]);
    ghost var middle := dest[..];
    var others := ReadInParts(ring, dest, at + first, sizes[1..]);
    CopiedTwice(ring.data, from, before, at, first, others, middle, dest[..]);
    total := first + others;
  }

  // testRead, whose data is byte i at index i, truncated; there are fSize = 9999 of them.
  method TestRead(fSize: nat, length: nat) returns (bytes: nat, checkBuff: array<Byte>)
    ensures checkBuff.Length == length && bytes == Min(length, fSize)
    ensures forall i :: 0 <= i < bytes ==> checkBuff[i] == i % 256
    ensures forall i :: bytes <= i < length ==> checkBuff[i] == 0
  {
    var fakeResponses: seq<Byte> := seq(fSize, i requires 0 <= i => i % 256);
    var ring := new RingBuffer(fakeResponses);
    checkBuff := new Byte[length](_ => 0);
    bytes := Read(ring, checkBuff, 0, length);
    assert forall i :: 0 <= i < length ==> checkBuff[i] == checkBuff[..][i];
  }
}
