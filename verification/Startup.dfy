// The reset handler of src/embedded/startup.c: copies .data from flash and clears .bss, four bytes
// at a time, whatever the section sizes are.
module Startup {

  import opened Common

  // The linker symbols, as byte addresses.
  datatype Layout = Layout(sidata: nat, sdata: nat, edata: nat, sbss: nat, ebss: nat) {
    function DataSpan(): nat { Span(sdata, edata) }

    function BssSpan(): nat { Span(sbss, ebss) }

    // The bytes the second loop writes.
    predicate Clears(a: int) { sbss <= a < sbss + BssSpan() }

    // Every word read or written exists, and the image in flash is apart from what is copied over.
    predicate Fits(size: nat) {
      && sidata + DataSpan() <= size && sdata + DataSpan() <= size && sbss + BssSpan() <= size
      && (sidata + DataSpan() <= sdata || sdata + DataSpan() <= sidata)
    }
  }

  // The length of a section in whole words, rounded up.
  function Span(start: nat, end: nat): (n: nat)
    ensures n % 4 == 0
    ensures start < end ==> end - start <= n < end - start + 4
    ensures end <= start ==> n == 0
  {
    if end <= start then 0 else (end - start + 3) / 4 * 4
  }

  // Memory once the data has been copied up to `end`.
  function Copied(old': seq<Byte>, l: Layout, end: nat, a: nat): Byte
    requires l.Fits(|old'|) && a < |old'| && end <= l.sdata + l.DataSpan()
  {
    if l.sdata <= a < end then old'[l.sidata + (a - l.sdata)] else old'[a]
  }

  // What the handler leaves at an address.
  function Final(old': seq<Byte>, l: Layout, a: nat): Byte
    requires l.Fits(|old'|) && a < |old'|
  {
    if l.Clears(a) then 0 else Copied(old', l, l.sdata + l.DataSpan(), a)
  }

  method ResetHandler(memory: array<Byte>, l: Layout)
    requires l.Fits(memory.Length)
    modifies memory
    ensures forall a :: 0 <= a < memory.Length ==> memory[a] == Final(old(memory[..]), l, a)
  {
    CopyData(memory, l);
    ghost var copied := memory[..];
    ClearBss(memory, l);
    assert forall a :: 0 <= a < memory.Length && !l.Clears(a) ==> memory[a] == copied[a];
  }

  method CopyData(memory: array<Byte>, l: Layout)
    requires l.Fits(memory.Length)
    modifies memory
    ensures forall a :: 0 <= a < memory.Length ==>
      memory[a] == Copied(old(memory[..]), l, l.sdata + l.DataSpan(), a)
  {
    ghost var before := memory[..];
    var src, dst := l.sidata, l.sdata;
    while dst < l.edata
      invariant l.sdata <= dst <= l.sdata + l.DataSpan() && (dst - l.sdata) % 4 == 0
      invariant src == l.sidata + (dst - l.sdata)
      invariant forall a :: 0 <= a < memory.Length ==> memory[a] == Copied(before, l, dst, a)
    {
      assert dst + 4 <= l.sdata + l.DataSpan();
      forall i | src <= i < src + 4 ensures memory[i] == before[i] {
        assert memory[i] == Copied(before, l, dst, i);
      }
      ghost var now := memory[..];
      CopyWord(memory, src, dst);
      forall a | 0 <= a < memory.Length ensures memory[a] == Copied(before, l, dst + 4, a) {
        assert now[a] == Copied(before, l, dst, a);
        if dst <= a < dst + 4 {
          assert memory[a] == now[src + (a - dst)] == before[src + (a - dst)];
        }
      }
      src, dst := src + 4, dst + 4;
    }
    assert dst == l.sdata + l.DataSpan();
  }

  method ClearBss(memory: array<Byte>, l: Layout)
    requires l.sbss + l.BssSpan() <= memory.Length
    modifies memory
    ensures forall a :: 0 <= a < memory.Length ==>
      memory[a] == if l.Clears(a) then 0 else old(memory[a])
  {
    var dst := l.sbss;
    while dst < l.ebss
      invariant l.sbss <= dst <= l.sbss + l.BssSpan() && (dst - l.sbss) % 4 == 0
      invariant forall a :: 0 <= a < memory.Length ==>
        memory[a] == if l.sbss <= a < dst then 0 else old(memory[a])
    {
      ClearWord(memory, dst);
      dst := dst + 4;
    }
    assert dst == l.sbss + l.BssSpan();
  }

  // *dst = *src on 32-bit words.
  method CopyWord(memory: array<Byte>, src: nat, dst: nat)
    requires src + 4 <= memory.Length && dst + 4 <= memory.Length
    requires src + 4 <= dst || dst + 4 <= src
    modifies memory
    ensures forall a :: 0 <= a < memory.Length ==>
      memory[a] == if dst <= a < dst + 4 then old(memory[src + (a - dst)]) else old(memory[a])
  {
    for i := 0 to 4
      invariant forall a :: 0 <= a < memory.Length ==>
        memory[a] == if dst <= a < dst + i then old(memory[src + (a - dst)]) else old(memory[a])
    {
      memory[dst + i] := memory[src + i];
    }
  }

  method ClearWord(memory: array<Byte>, dst: nat)
    requires dst + 4 <= memory.Length
    modifies memory
    ensures forall a :: 0 <= a < memory.Length ==>
      memory[a] == if dst <= a < dst + 4 then 0 else old(memory[a])
  {
    memory[dst], memory[dst + 1], memory[dst + 2], memory[dst + 3] := 0, 0, 0, 0;
  }

  // ----- what main finds -----

  // .data holds its flash image, .bss is zero.
  ghost predicate Initialised(old': seq<Byte>, l: Layout)
    requires l.Fits(|old'|)
  {
    && (forall a :: l.sdata <= a < l.edata ==> Final(old', l, a) == old'[l.sidata + (a - l.sdata)])
    && (forall a :: l.sbss <= a < l.ebss ==> Final(old', l, a) == 0)
  }

  // With the linker script's order, .bss after .data, every byte of both sections is right, for
  // sizes that are not whole words too, and nothing more than 3 bytes past an end is touched.
  lemma ReadyForMain(old': seq<Byte>, l: Layout)
    requires l.Fits(|old'|) && l.edata <= l.sbss
    ensures Initialised(old', l)
    ensures forall a :: 0 <= a < |old'| && Final(old', l, a) != old'[a] ==>
      l.sdata <= a < l.edata + 3 || l.sbss <= a < l.ebss + 3
  {
  }

  // Exactly which layouts work for every flash content: those where clearing misses .data.
  lemma LayoutsThatWork(size: nat, l: Layout)
    requires l.Fits(size)
    ensures (forall old': seq<Byte> :: |old'| == size ==> Initialised(old', l))
       <==> forall a :: l.sdata <= a < l.edata ==> !l.Clears(a)
  {
    if a :| l.sdata <= a < l.edata && l.Clears(a) {
      var ones: seq<Byte> := seq(size, i => 1);
      assert Final(ones, l, a) == 0 && ones[l.sidata + (a - l.sdata)] == 1;
      assert !Initialised(ones, l);
    }
  }
}
