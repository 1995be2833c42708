// The binary account records of src/core/filehandle/BinaryFileHandling.cpp, on a little-endian
// host with 4-byte int, 8-byte double and 8-byte size_t. A balance is its 64-bit pattern.
module AccountFile {

  import opened Common

  const INT_LIMIT := 0x1_0000_0000
  const WORD_LIMIT := 0x1_0000_0000_0000_0000

  type Int32 = i: int | -0x8000_0000 <= i < 0x8000_0000

  datatype Record = Record(code: Int32, name: seq<Byte>, balance: nat) {
    // The name's length and the balance fit their 8 bytes.
    predicate Representable() { |name| < WORD_LIMIT && balance < WORD_LIMIT }
  }

  // ----- integers as bytes -----

  function Pow256(k: nat): nat { if k == 0 then 1 else 256 * Pow256(k - 1) }

  function ToBytes(v: nat, k: nat): (bs: seq<Byte>)
    ensures |bs| == k
    decreases k, v
  {
    if k == 0 then [] else [v % 256] + ToBytes(v / 256, k - 1)
  }

  function FromBytes(bs: seq<Byte>): nat {
    if bs == [] then 0 else bs[0] + 256 * FromBytes(bs[1..])
  }

  lemma {:induction false} FromToBytes(v: nat, k: nat)
    requires v < Pow256(k)
    ensures FromBytes(ToBytes(v, k)) == v
    decreases k
  {
    if k > 0 {
      FromToBytes(v / 256, k - 1);
      assert ToBytes(v, k)[1..] == ToBytes(v / 256, k - 1);
    }
  }

  lemma {:induction false} ToFromBytes(bs: seq<Byte>)
    ensures FromBytes(bs) < Pow256(|bs|) && ToBytes(FromBytes(bs), |bs|) == bs
  {
    if bs != [] {
      ToFromBytes(bs[1..]);
      var v := FromBytes(bs);
      assert v % 256 == bs[0] && v / 256 == FromBytes(bs[1..]);
      assert bs == [bs[0]] + bs[1..];
    }
  }

  lemma Widths()
    ensures Pow256(4) == INT_LIMIT && Pow256(8) == WORD_LIMIT
  {
    assert Pow256(2) == 0x1_0000;
    assert Pow256(4) == 0x1_0000 * Pow256(2);
    assert Pow256(6) == 0x1_0000 * Pow256(4);
    assert Pow256(8) == 0x1_0000 * Pow256(6);
  }

  // Two's complement.
  function Pattern(i: Int32): nat { if i < 0 then i + INT_LIMIT else i }

  function FromPattern(p: nat): Int32
    requires p < INT_LIMIT
  {
    if p < 0x8000_0000 then p else p - INT_LIMIT
  }

  // ----- records as bytes -----

  function Encode(r: Record): (bs: seq<Byte>)
    ensures |bs| == 20 + |r.name|
  {
    ToBytes(Pattern(r.code), 4) + ToBytes(r.balance, 8) + ToBytes(|r.name|, 8) + r.name
  }

  // The record at the start of bs and its length there, if bs is long enough.
  function Decode(bs: seq<Byte>): Option<(Record, nat)> {
    if |bs| < 20 then None
    else
      var length := FromBytes(bs[12..20]);
      if |bs| < 20 + length then None
      else
        Widths();
        ToFromBytes(bs[..4]);
        Some((Record(FromPattern(FromBytes(bs[..4])), bs[20..20 + length], FromBytes(bs[4..12])),
              20 + length))
  }

  // The lowest byte comes first.
  lemma FourBytes(a: Byte, b: Byte, c: Byte, d: Byte)
    ensures FromBytes([a, b, c, d]) == a + 0x100 * b + 0x1_0000 * c + 0x100_0000 * d
  {
    assert [a, b, c, d][1..] == [b, c, d] && [b, c, d][1..] == [c, d] && [c, d][1..] == [d];
    assert FromBytes([d]) == d + 256 * FromBytes([d][1..]);
    assert FromBytes([c, d]) == c + 256 * d;
  }

  // Where the fields are: code, in two's complement, balance and length from byte 0, 4 and 12 on,
  // and then the name.
  lemma Layout(r: Record)
    requires r.Representable()
    ensures FromBytes(Encode(r)[0..4]) == r.code % 0x1_0000_0000
    ensures FromBytes(Encode(r)[4..12]) == r.balance
    ensures FromBytes(Encode(r)[12..20]) == |r.name|
    ensures Encode(r)[20..] == r.name
  {
    Widths();
    var bs := Encode(r);
    var a, b, c := ToBytes(Pattern(r.code), 4), ToBytes(r.balance, 8), ToBytes(|r.name|, 8);
    assert bs[0..4] == a && bs[4..12] == b && bs[12..20] == c;
    FromToBytes(Pattern(r.code), 4);
    FromToBytes(r.balance, 8);
    FromToBytes(|r.name|, 8);
  }

  // Reading undoes writing, whatever follows.
  lemma DecodeEncode(r: Record, rest: seq<Byte>)
    requires r.Representable()
    ensures Decode(Encode(r) + rest) == Some((r, |Encode(r)|))
  {
    Widths();
    var bs := Encode(r) + rest;
    var a, b, c := ToBytes(Pattern(r.code), 4), ToBytes(r.balance, 8), ToBytes(|r.name|, 8);
    assert bs[..4] == a && bs[4..12] == b && bs[12..20] == c;
    FromToBytes(Pattern(r.code), 4);
    FromToBytes(r.balance, 8);
    FromToBytes(|r.name|, 8);
    assert bs[20..20 + |r.name|] == r.name;
  }

  // Writing undoes reading: the bytes read are those the record would be written as.
  lemma EncodeDecode(bs: seq<Byte>)
    requires Decode(bs).Some?
    ensures Decode(bs).value.0.Representable()
    ensures Encode(Decode(bs).value.0) == bs[..Decode(bs).value.1]
  {
    Widths();
    ToFromBytes(bs[..4]);
    ToFromBytes(bs[4..12]);
    ToFromBytes(bs[12..20]);
    var (r, n) := Decode(bs).value;
    assert Pattern(r.code) == FromBytes(bs[..4]);
    assert |r.name| == FromBytes(bs[12..20]);
    FieldsJoin(bs, n);
  }

  lemma FieldsJoin(bs: seq<Byte>, n: nat)
    requires 20 <= n <= |bs|
    ensures bs[..4] + bs[4..12] + bs[12..20] + bs[20..n] == bs[..n]
  {
  }

  // No encoding starts another one, so a file can be cut in one way only.
  lemma PrefixFree(r: Record, s: seq<Byte>, q: Record, t: seq<Byte>)
    requires r.Representable() && q.Representable() && Encode(r) + s == Encode(q) + t
    ensures r == q && s == t
  {
    DecodeEncode(r, s);
    DecodeEncode(q, t);
    assert s == (Encode(r) + s)[|Encode(r)|..];
    assert t == (Encode(q) + t)[|Encode(q)|..];
  }

  function EncodeAll(rs: seq<Record>): seq<Byte> {
    if rs == [] then [] else Encode(rs[0]) + EncodeAll(rs[1..])
  }

  predicate AllRepresentable(rs: seq<Record>) {
    forall i :: 0 <= i < |rs| ==> rs[i].Representable()
  }

  lemma {:induction false} FilesAreUnambiguous(rs: seq<Record>, qs: seq<Record>)
    requires AllRepresentable(rs) && AllRepresentable(qs) && EncodeAll(rs) == EncodeAll(qs)
    ensures rs == qs
  {
    if rs == [] {
    } else {
      PrefixFree(rs[0], EncodeAll(rs[1..]), qs[0], EncodeAll(qs[1..]));
      FilesAreUnambiguous(rs[1..], qs[1..]);
      assert rs == [rs[0]] + rs[1..] && qs == [qs[0]] + qs[1..];
    }
  }

  // ----- the code -----

  class OutStream {
    var bytes: seq<Byte>

    constructor ()
      ensures bytes == []
    {
      bytes := [];
    }

    method Write(bs: seq<Byte>)
      modifies this
      ensures bytes == old(bytes) + bs
    {
      bytes := bytes + bs;
    }
  }

  class InStream {
    const bytes: seq<Byte>
    var pos: nat

    ghost predicate Valid()
      reads this
    {
      pos <= |bytes|
    }

    ghost function Rest(): seq<Byte>
      requires Valid()
      reads this
    {
      bytes[pos..]
    }

    constructor (bytes: seq<Byte>)
      ensures Valid() && this.bytes == bytes && pos == 0
    {
      this.bytes, pos := bytes, 0;
    }

    // The part of read() that finds enough bytes.
    method Read(n: nat) returns (bs: seq<Byte>)
      requires Valid() && n <= |Rest()|
      modifies this
      ensures Valid() && pos == old(pos) + n && bs == old(Rest())[..n]
    {
      bs := bytes[pos..pos + n];
      pos := pos + n;
    }
  }

  class Account {
    var code: Int32
    var name: seq<Byte>
    var balance: nat

    function Now(): Record
      reads this
    {
      Record(code, name, balance)
    }

    constructor (code: Int32 := 0, name: seq<Byte> := [], balance: nat := 0)
      ensures Now() == Record(code, name, balance)
    {
      this.code, this.name, this.balance := code, name, balance;
    }

    method Write(os: OutStream)
      modifies os
      ensures os.bytes == old(os.bytes) + Encode(Now())
    {
      ghost var before := os.bytes;
      os.Write(ToBytes(Pattern(code), 4));
      os.Write(ToBytes(balance, 8));
      os.Write(ToBytes(|name|, 8));
      os.Write(name);
      Join(before, ToBytes(Pattern(code), 4), ToBytes(balance, 8), ToBytes(|name|, 8), name);
    }

    method Read(input: InStream)
      requires input.Valid() && Decode(input.Rest()).Some?
      modifies this, input
      ensures input.Valid()
      ensures Now() == old(Decode(input.Rest()).value.0)
      ensures input.pos == old(input.pos + Decode(input.Rest()).value.1)
    {
      ghost var rest := input.Rest();
      var codeBytes := input.Read(4);
      assert input.Rest() == rest[4..];
      Widths();
      ToFromBytes(codeBytes);
      code := FromPattern(FromBytes(codeBytes));
      var balanceBytes := input.Read(8);
      assert input.Rest() == rest[12..] && balanceBytes == rest[4..12];
      balance := FromBytes(balanceBytes);
      var lengthBytes := input.Read(8);
      assert input.Rest() == rest[20..] && lengthBytes == rest[12..20];
      var length := FromBytes(lengthBytes);
      name := input.Read(length);
      assert name == rest[20..20 + length];
    }
  }

  lemma Join<T>(x: seq<T>, a: seq<T>, b: seq<T>, c: seq<T>, d: seq<T>)
    ensures x + a + b + c + d == x + (a + b + c + d)
  {
  }

  // Writes the records in order to a fresh stream.
  method WriteAll(accounts: seq<Account>) returns (os: OutStream)
    ensures fresh(os) && os.bytes == EncodeAll(Records(accounts))
  {
    os := new OutStream();
    ghost var all := Records(accounts);
    for i := 0 to |accounts|
      invariant fresh(os) && os.bytes == EncodeAll(all[..i])
    {
      EncodeAllNext(all, i);
      accounts[i].Write(os);
    }
    assert all[..|accounts|] == all;
  }

  ghost function Records(accounts: seq<Account>): (rs: seq<Record>)
    reads accounts
    ensures |rs| == |accounts| && forall i :: 0 <= i < |rs| ==> rs[i] == accounts[i].Now()
  {
    if accounts == [] then [] else [accounts[0].Now()] + Records(accounts[1..])
  }

  lemma {:induction false} EncodeAllAppend(rs: seq<Record>, qs: seq<Record>)
    ensures EncodeAll(rs + qs) == EncodeAll(rs) + EncodeAll(qs)
  {
    if rs == [] {
      assert rs + qs == qs;
    } else {
      assert (rs + qs)[1..] == rs[1..] + qs;
      EncodeAllAppend(rs[1..], qs);
    }
  }

  lemma EncodeAllNext(rs: seq<Record>, i: nat)
    requires i < |rs|
    ensures EncodeAll(rs[..i + 1]) == EncodeAll(rs[..i]) + Encode(rs[i])
    ensures EncodeAll(rs[i..]) == Encode(rs[i]) + EncodeAll(rs[i + 1..])
  {
    assert rs[..i + 1] == rs[..i] + [rs[i]];
    EncodeAllAppend(rs[..i], [rs[i]]);
    assert rs[i..][1..] == rs[i + 1..];
    assert EncodeAll([rs[i]]) == Encode(rs[i]);
  }

  const WANTED: Int32 := 2

  // Record i is the first with the wanted code.
  predicate First(rs: seq<Record>, i: nat)
    requires i < |rs|
  {
    rs[i].code == WANTED && forall j :: 0 <= j < i ==> rs[j].code != WANTED
  }

  // The search loop, on a file of written records: it stops right after the first record with
  // the wanted code, or at the end of the file if there is none.
  method Find(input: InStream, ghost rs: seq<Record>) returns (found: bool, temp: Account)
    requires input.pos == 0 && input.bytes == EncodeAll(rs) && AllRepresentable(rs)
    modifies input
    ensures found <==> exists i :: 0 <= i < |rs| && rs[i].code == WANTED
    ensures found ==> exists i :: 0 <= i < |rs| && First(rs, i) && temp.Now() == rs[i]
                                  && input.pos == |EncodeAll(rs[..i + 1])|
    ensures !found ==> input.pos == |input.bytes|
  {
    temp := new Account();
    ghost var i := 0;
    assert rs[0..] == rs;
    while input.pos < |input.bytes|
      invariant input.Valid() && fresh(temp) && i <= |rs|
      invariant input.Rest() == EncodeAll(rs[i..]) && input.pos == |EncodeAll(rs[..i])|
      invariant forall j :: 0 <= j < i ==> rs[j].code != WANTED
      decreases |rs| - i
    {
      EncodeAllNext(rs, i);
      DecodeEncode(rs[i], EncodeAll(rs[i + 1..]));
      temp.Read(input);
      assert input.Rest() == EncodeAll(rs[i..])[|Encode(rs[i])|..] == EncodeAll(rs[i + 1..]);
      if temp.code == WANTED {
        assert First(rs, i);
        return true, temp;
      }
      i := i + 1;
    }
    assert i == |rs| by {
      if i < |rs| {
        EncodeAllNext(rs, i);
      }
    }
    found := false;
  }
}
