// The owner of a C string with all five special members (`role_of_five::Model` of
// src/core/class/RoleOfThreeFiveZero.cpp), over an allocator that refuses double frees.
module RuleOfFive {

  import opened Common

  const NUL := '\0'

  type Address = int

  type Name = int

  // The characters of one allocation.
  type Buffer = seq<char>

  predicate Terminated(b: Buffer) { NUL in b }

  // What strlen and strcpy take: the characters up to and with the first terminator.
  function Duplicated(b: Buffer): (r: Buffer)
    requires Terminated(b)
    ensures Terminated(r) && r <= b && forall i :: 0 <= i < |r| - 1 ==> r[i] != NUL
  {
    if b[0] == NUL then [NUL]
    else
      assert NUL in b[1..];
      [b[0]] + Duplicated(b[1..])
  }

  class Heap {
    var memory: map<Address, Buffer>  // the live allocations
    var next: Address

    ghost predicate Valid()
      reads this
    {
      forall p :: p in memory ==> p < next
    }

    constructor ()
      ensures Valid() && memory == map[]
    {
      memory, next := map[], 0;
    }

    method New(contents: Buffer) returns (p: Address)
      requires Valid()
      modifies this
      ensures Valid() && p !in old(memory) && memory == old(memory)[p := contents]
    {
      p := next;
      memory := memory[p := contents];
      next := next + 1;
    }

    // delete[] of a null pointer does nothing; anything else must be live.
    method Delete(p: Option<Address>)
      requires Valid() && (p.Some? ==> p.value in memory)
      modifies this
      ensures Valid() && memory == if p.None? then old(memory) else old(memory) - {p.value}
    {
      if p.Some? {
        memory := memory - {p.value};
      }
    }
  }

  function Contents(memory: map<Address, Buffer>, p: Option<Address>): Option<Buffer>
    requires p.Some? ==> p.value in memory
  {
    if p.None? then None else Some(memory[p.value])
  }

  class Model {
    var cstring: Option<Address>

    ghost predicate Points(heap: Heap)
      reads this, heap
    {
      cstring.Some? ==> cstring.value in heap.memory
    }

    constructor (heap: Heap, s: Option<Buffer>)
      requires heap.Valid() && (s.Some? ==> Terminated(s.value))
      modifies heap
      ensures heap.Valid() && (cstring.Some? <==> s.Some?)
      ensures s.Some? ==> cstring.value !in old(heap.memory)
      ensures s.Some? ==> heap.memory == old(heap.memory)[cstring.value := Duplicated(s.value)]
      ensures s.None? ==> heap.memory == old(heap.memory)
    {
      cstring := None;
      new;
      if s.Some? {
        var p := heap.New(Duplicated(s.value));
        cstring := Some(p);
      }
    }

    constructor Move(other: Model)
      modifies other
      ensures cstring == old(other.cstring) && other.cstring == None
    {
      cstring := other.cstring;
      new;
      other.cstring := None;
    }

    // The destructor.
    method Destroy(heap: Heap)
      requires heap.Valid() && Points(heap)
      modifies heap
      ensures heap.Valid()
      ensures heap.memory
           == if cstring.None? then old(heap.memory) else old(heap.memory) - {cstring.value}
    {
      heap.Delete(cstring);
    }

    // Copy assignment: copy, swap, and destroy the copy with what was owned before.
    method CopyAssign(heap: Heap, other: Model)
      requires heap.Valid() && Points(heap) && other.Points(heap)
      requires other.cstring.Some? ==> Terminated(heap.memory[other.cstring.value])
      modifies this, heap
      ensures heap.Valid() && (cstring.Some? <==> old(other.cstring).Some?)
      ensures cstring.Some? ==> cstring.value !in old(heap.memory)
      ensures heap.memory == Reassigned(old(heap.memory), old(cstring), old(other.cstring), cstring)
    {
      var temp := new Model(heap, Contents(heap.memory, other.cstring));
      cstring, temp.cstring := temp.cstring, cstring;
      temp.Destroy(heap);
    }

    // Move assignment only swaps.
    method MoveAssign(other: Model)
      modifies this, other
      ensures cstring == old(other.cstring) && other.cstring == old(cstring)
    {
      cstring, other.cstring := other.cstring, cstring;
    }

    method SetFirstChar(heap: Heap, ch: char)
      requires heap.Valid() && Points(heap)
      requires cstring.Some? ==> heap.memory[cstring.value] != []
      modifies heap
      ensures heap.Valid() && heap.memory ==
        if cstring.None? then old(heap.memory)
        else old(heap.memory)[cstring.value := old(heap.memory)[cstring.value][0 := ch]]
    {
      if cstring.Some? {
        heap.memory := heap.memory[cstring.value := heap.memory[cstring.value][0 := ch]];
      }
    }
  }

  // The memory after an owner of `mine` has copied what `theirs` points to into `new'`.
  ghost function Reassigned(memory: map<Address, Buffer>, mine: Option<Address>,
                            theirs: Option<Address>, new': Option<Address>): map<Address, Buffer>
    requires theirs.Some? ==> theirs.value in memory && Terminated(memory[theirs.value])
    requires new'.Some? <==> theirs.Some?
  {
    var copied := if new'.None? then memory
                  else memory[new'.value := Duplicated(memory[theirs.value])];
    if mine.None? then copied else copied - {mine.value}
  }

  // ----- independent values -----

  type Values = map<Name, Option<Buffer>>

  datatype Op =
    | Construct(id: Name, text: Option<Buffer>)
    | CopyConstruct(id: Name, from: Name)
    | MoveConstruct(id: Name, from: Name)
    | CopyAssign(id: Name, from: Name)
    | MoveAssign(id: Name, from: Name)
    | SetFirstChar(id: Name, ch: char)
    | Destroy(id: Name)

  predicate Good(v: Option<Buffer>) { v.Some? ==> Terminated(v.value) }

  function Copied(v: Option<Buffer>): Option<Buffer>
    requires Good(v)
  {
    if v.None? then None else Some(Duplicated(v.value))
  }

  // Objects are built under new names and used while they exist; writing the first char must
  // leave a terminator.
  predicate Legal(vs: Values, op: Op) {
    match op
    case Construct(id, text) => id !in vs && Good(text)
    case CopyConstruct(id, from) => id !in vs && from in vs
    case MoveConstruct(id, from) => id !in vs && from in vs
    case CopyAssign(id, from) => id in vs && from in vs
    case MoveAssign(id, from) => id in vs && from in vs
    case SetFirstChar(id, ch) =>
      id in vs && (vs[id].Some? ==> |vs[id].value| > 0 && Terminated(vs[id].value[0 := ch]))
    case Destroy(id) => id in vs
  }

  predicate AllGood(vs: Values) { forall id :: id in vs ==> Good(vs[id]) }

  // Every object is its own string: an operation changes the objects it names, and only those.
  function Apply(vs: Values, op: Op): Values
    requires AllGood(vs) && Legal(vs, op)
  {
    match op
    case Construct(id, text) => vs[id := Copied(text)]
    case CopyConstruct(id, from) => vs[id := Copied(vs[from])]
    case MoveConstruct(id, from) => vs[id := vs[from]][from := None]
    case CopyAssign(id, from) => vs[id := Copied(vs[from])]
    case MoveAssign(id, from) => vs[id := vs[from]][from := vs[id]]
    case SetFirstChar(id, ch) =>
      if vs[id].Some? then vs[id := Some(vs[id].value[0 := ch])] else vs
    case Destroy(id) => vs - {id}
  }

  // The write leaves a C string exactly when it writes a terminator or there is a later one.
  lemma FirstCharKeepsString(b: Buffer, ch: char)
    requires |b| > 0
    ensures Terminated(b[0 := ch]) <==> ch == NUL || NUL in b[1..]
  {
    var b' := b[0 := ch];
    assert b'[1..] == b[1..];
    if NUL in b' {
      var i :| 0 <= i < |b'| && b'[i] == NUL;
      assert i > 0 ==> b[1..][i - 1] == NUL;
    }
    if NUL in b[1..] {
      var i :| 0 <= i < |b| - 1 && b[1..][i] == NUL;
      assert b'[i + 1] == NUL;
    }
    if ch == NUL {
      assert b'[0] == NUL;
    }
  }

  // ----- the objects of a program -----

  class Store {
    const heap: Heap
    var objects: map<Name, Model>

    // Distinct objects; live buffers and owning objects correspond one to one.
    ghost predicate Valid()
      reads this, heap, objects.Values
    {
      && heap.Valid()
      && (forall i, j :: i in objects && j in objects && i != j ==> objects[i] != objects[j])
      && OneToOne(heap.memory, Pointers())
      && AllGood(Now())
    }

    ghost function Pointers(): map<Name, Option<Address>>
      reads this, objects.Values
    {
      map id | id in objects :: objects[id].cstring
    }

    ghost function Now(): Values
      requires OneToOne(heap.memory, Pointers())
      reads this, heap, objects.Values
    {
      ValuesOf(heap.memory, Pointers())
    }

    constructor ()
      ensures Valid() && Now() == map[] && fresh(heap)
    {
      heap := new Heap();
      objects := map[];
    }

    method Construct(id: Name, text: Option<Buffer>)
      requires Valid() && Legal(Now(), Op.Construct(id, text))
      modifies this, heap
      ensures Valid() && Now() == Apply(old(Now()), Op.Construct(id, text))
      ensures fresh(objects.Values - old(objects.Values))
    {
      GoodStep(Now(), Op.Construct(id, text));
      ghost var ps := Pointers();
      var m := new Model(heap, text);
      objects := objects[id := m];
      assert Pointers() == ps[id := m.cstring];
      OwnNew(old(heap.memory), ps, id, text, m.cstring, heap.memory);
    }

    method CopyConstruct(id: Name, from: Name)
      requires Valid() && Legal(Now(), Op.CopyConstruct(id, from))
      modifies this, heap
      ensures Valid() && Now() == Apply(old(Now()), Op.CopyConstruct(id, from))
      ensures fresh(objects.Values - old(objects.Values))
    {
      GoodStep(Now(), Op.CopyConstruct(id, from));
      ghost var ps := Pointers();
      var v := Contents(heap.memory, objects[from].cstring);
      var m := new Model(heap, v);
      objects := objects[id := m];
      assert Pointers() == ps[id := m.cstring];
      OwnNew(old(heap.memory), ps, id, v, m.cstring, heap.memory);
    }

    method MoveConstruct(id: Name, from: Name)
      requires Valid() && Legal(Now(), Op.MoveConstruct(id, from))
      modifies this, objects[from]
      ensures Valid() && Now() == Apply(old(Now()), Op.MoveConstruct(id, from))
      ensures fresh(objects.Values - old(objects.Values))
    {
      GoodStep(Now(), Op.MoveConstruct(id, from));
      ghost var ps := Pointers();
      var m := new Model.Move(objects[from]);
      objects := objects[id := m];
      forall i | i in objects && i != id && i != from ensures objects[i].cstring == ps[i] {
        assert old(objects)[i] != old(objects)[from];
      }
      assert Pointers() == ps[id := ps[from]][from := None];
      OwnMoved(heap.memory, ps, id, from);
    }

    method CopyAssign(id: Name, from: Name)
      requires Valid() && Legal(Now(), Op.CopyAssign(id, from))
      modifies heap, objects[id]
      ensures Valid() && Now() == Apply(old(Now()), Op.CopyAssign(id, from))
      ensures fresh(objects.Values - old(objects.Values))
    {
      GoodStep(Now(), Op.CopyAssign(id, from));
      ghost var ps := Pointers();
      objects[id].CopyAssign(heap, objects[from]);
      forall i | i in objects && i != id ensures objects[i].cstring == ps[i] {
        assert objects[i] != objects[id];
      }
      assert Pointers() == ps[id := objects[id].cstring];
      OwnCopied(old(heap.memory), ps, id, from, objects[id].cstring, heap.memory);
    }

    method MoveAssign(id: Name, from: Name)
      requires Valid() && Legal(Now(), Op.MoveAssign(id, from))
      modifies objects[id], objects[from]
      ensures Valid() && Now() == Apply(old(Now()), Op.MoveAssign(id, from))
      ensures fresh(objects.Values - old(objects.Values))
    {
      GoodStep(Now(), Op.MoveAssign(id, from));
      ghost var ps := Pointers();
      objects[id].MoveAssign(objects[from]);
      forall i | i in objects && i != id && i != from ensures objects[i].cstring == ps[i] {
        assert objects[i] != objects[id] && objects[i] != objects[from];
      }
      assert Pointers() == ps[id := ps[from]][from := ps[id]];
      OwnSwapped(heap.memory, ps, id, from);
    }

    method SetFirstChar(id: Name, ch: char)
      requires Valid() && Legal(Now(), Op.SetFirstChar(id, ch))
      modifies heap
      ensures Valid() && Now() == Apply(old(Now()), Op.SetFirstChar(id, ch))
      ensures fresh(objects.Values - old(objects.Values))
    {
      GoodStep(Now(), Op.SetFirstChar(id, ch));
      objects[id].SetFirstChar(heap, ch);
      OwnWritten(old(heap.memory), Pointers(), id, ch, heap.memory);
    }

    method Destroy(id: Name)
      requires Valid() && Legal(Now(), Op.Destroy(id))
      modifies this, heap
      ensures Valid() && Now() == Apply(old(Now()), Op.Destroy(id))
      ensures fresh(objects.Values - old(objects.Values))
    {
      GoodStep(Now(), Op.Destroy(id));
      ghost var ps := Pointers();
      objects[id].Destroy(heap);
      objects := objects - {id};
      assert Pointers() == ps - {id};
      OwnFreed(old(heap.memory), ps, id, heap.memory);
    }

    method Do(op: Op)
      requires Valid() && Legal(Now(), op)
      modifies this, heap, objects.Values
      ensures Valid() && Now() == Apply(old(Now()), op)
      ensures fresh(objects.Values - old(objects.Values))
    {
      match op {
        case Construct(id, text) => Construct(id, text);
        case CopyConstruct(id, from) => CopyConstruct(id, from);
        case MoveConstruct(id, from) => MoveConstruct(id, from);
        case CopyAssign(id, from) => CopyAssign(id, from);
        case MoveAssign(id, from) => MoveAssign(id, from);
        case SetFirstChar(id, ch) => SetFirstChar(id, ch);
        case Destroy(id) => Destroy(id);
      }
    }

    // Any legal program: the objects behave as independent strings throughout, no buffer is freed
    // twice (Delete would refuse), and the live buffers are exactly those owned.
    method Execute(ops: seq<Op>)
      requires Valid() && LegalRun(Now(), ops)
      modifies this, heap, objects.Values
      ensures Valid() && Now() == ApplyAll(old(Now()), ops)
      ensures objects == map[] ==> heap.memory == map[]
    {
      ghost var start := Now();
      for i := 0 to |ops|
        invariant Valid() && LegalRun(Now(), ops[i..])
        invariant ApplyAll(Now(), ops[i..]) == ApplyAll(start, ops)
        invariant fresh(objects.Values - old(objects.Values))
      {
        assert ops[i..][1..] == ops[i + 1..];
        GoodStep(Now(), ops[i]);
        Do(ops[i]);
      }
      if objects == map[] {
        NothingOwned(heap.memory, Pointers());
      }
    }
  }

  predicate LegalRun(vs: Values, ops: seq<Op>)
    requires AllGood(vs)
    decreases ops
  {
    ops != [] ==> Legal(vs, ops[0]) && (GoodStep(vs, ops[0]); LegalRun(Apply(vs, ops[0]), ops[1..]))
  }

  function ApplyAll(vs: Values, ops: seq<Op>): Values
    requires AllGood(vs) && LegalRun(vs, ops)
    decreases ops
  {
    if ops == [] then vs
    else
      GoodStep(vs, ops[0]);
      ApplyAll(Apply(vs, ops[0]), ops[1..])
  }

  // ----- what independence means -----

  function Named(op: Op): set<Name> {
    match op
    case Construct(id, _) => {id}
    case CopyConstruct(id, _) => {id}
    case MoveConstruct(id, from) => {id, from}
    case CopyAssign(id, _) => {id}
    case MoveAssign(id, from) => {id, from}
    case SetFirstChar(id, _) => {id}
    case Destroy(id) => {id}
  }

  // An object that no operation names as a target keeps its string through any legal program:
  // copies share nothing with what they were copied from, in either direction.
  lemma {:induction false} OthersKeepTheirString(vs: Values, ops: seq<Op>, id: Name)
    requires AllGood(vs) && LegalRun(vs, ops) && id in vs
    requires forall i :: 0 <= i < |ops| ==> id !in Named(ops[i])
    ensures id in ApplyAll(vs, ops) && ApplyAll(vs, ops)[id] == vs[id]
    decreases ops
  {
    if ops != [] {
      GoodStep(vs, ops[0]);
      var rest := ops[1..];
      assert forall i :: 0 <= i < |rest| ==> rest[i] == ops[i + 1];
      OthersKeepTheirString(Apply(vs, ops[0]), rest, id);
    }
  }

  // The characters a reader of the string sees: those before the first terminator.
  function Text(b: Buffer): (t: seq<char>)
    requires Terminated(b)
    ensures NUL !in t && |t| < |b| && b[..|t|] == t && b[|t|] == NUL
  {
    if b[0] == NUL then []
    else
      assert NUL in b[1..];
      [b[0]] + Text(b[1..])
  }

  lemma TextIsUnique(b: Buffer, t: seq<char>)
    requires Terminated(b) && NUL !in t && |t| < |b| && b[..|t|] == t && b[|t|] == NUL
    ensures Text(b) == t
  {
    assert forall i :: 0 <= i < |t| ==> b[i] == t[i];
    var u := Text(b);
    assert forall i :: 0 <= i < |u| ==> b[i] == u[i];
    assert |t| == |u|;
  }

  // A copy reads the same, in a buffer with no room to spare.
  lemma CopyReadsTheSame(b: Buffer)
    requires Terminated(b)
    ensures Text(Duplicated(b)) == Text(b) && |Duplicated(b)| == |Text(b)| + 1
  {
    var r := Duplicated(b);
    var n := |r| - 1;
    assert r[n] == NUL && b[n] == r[n];
    assert r[..n] == b[..n];
    TextIsUnique(b, r[..n]);
    TextIsUnique(r, r[..n]);
  }

  // Nothing but the objects named changes.
  predicate OnlyChanges(vs: Values, r: Values, ids: set<Name>) {
    && r.Keys + ids == vs.Keys + ids
    && forall id :: id in vs && id !in ids ==> r[id] == vs[id]
  }

  // What a reader sees of an object.
  function Reading(v: Option<Buffer>): Option<seq<char>>
    requires Good(v)
  {
    if v.None? then None else Some(Text(v.value))
  }

  // A new object reads as the text it was made from, without a byte to spare, or is null.
  lemma ConstructReads(vs: Values, id: Name, text: Option<Buffer>)
    requires AllGood(vs) && Legal(vs, Construct(id, text))
    ensures var r := Apply(vs, Construct(id, text));
      && OnlyChanges(vs, r, {id}) && id in r && Good(r[id])
      && Reading(r[id]) == Reading(text)
      && (text.Some? ==> |r[id].value| == |Text(text.value)| + 1)
  {
    if text.Some? {
      CopyReadsTheSame(text.value);
    }
  }

  // A copy reads as the object it was made from, which keeps its own buffer.
  lemma CopyConstructReads(vs: Values, id: Name, from: Name)
    requires AllGood(vs) && Legal(vs, CopyConstruct(id, from))
    ensures var r := Apply(vs, CopyConstruct(id, from));
      && OnlyChanges(vs, r, {id}) && id in r && Good(r[id])
      && Reading(r[id]) == Reading(vs[from]) && r[from] == vs[from]
  {
    if vs[from].Some? {
      CopyReadsTheSame(vs[from].value);
    }
  }

  // So does the target of a copy assignment.
  lemma CopyAssignReads(vs: Values, id: Name, from: Name)
    requires AllGood(vs) && Legal(vs, CopyAssign(id, from))
    ensures var r := Apply(vs, CopyAssign(id, from));
      && OnlyChanges(vs, r, {id}) && id in r && from in r && Good(r[id]) && Good(r[from])
      && Reading(r[id]) == Reading(vs[from]) == Reading(r[from])
      && (id != from ==> r[from] == vs[from])
  {
    if vs[from].Some? {
      CopyReadsTheSame(vs[from].value);
    }
  }

  // A move construction takes the very buffer and leaves null.
  lemma MoveConstructTakes(vs: Values, id: Name, from: Name)
    requires AllGood(vs) && Legal(vs, MoveConstruct(id, from))
    ensures var r := Apply(vs, MoveConstruct(id, from));
      OnlyChanges(vs, r, {id, from}) && id in r && from in r && r[id] == vs[from] && r[from] == None
  {
    assert id != from;
  }

  // A move assignment exchanges the two.
  lemma MoveAssignExchanges(vs: Values, id: Name, from: Name)
    requires AllGood(vs) && Legal(vs, MoveAssign(id, from))
    ensures var r := Apply(vs, MoveAssign(id, from));
      OnlyChanges(vs, r, {id, from}) && id in r && from in r && r[id] == vs[from] && r[from] == vs[id]
  {
  }

  // Writing the first character changes that one of that object, and a null object not at all.
  lemma SetFirstCharWrites(vs: Values, id: Name, ch: char)
    requires AllGood(vs) && Legal(vs, SetFirstChar(id, ch))
    ensures var r := Apply(vs, SetFirstChar(id, ch));
      && OnlyChanges(vs, r, {id}) && id in r && (r[id].Some? <==> vs[id].Some?)
      && (vs[id].Some? ==>
            |r[id].value| == |vs[id].value| && r[id].value[0] == ch && r[id].value[1..] == vs[id].value[1..])
      && (ch != NUL && vs[id].Some? && Text(vs[id].value) != [] ==>
            Terminated(r[id].value) && Text(r[id].value) == [ch] + Text(vs[id].value)[1..])
  {
    if ch != NUL && vs[id].Some? && Text(vs[id].value) != [] {
      var b := vs[id].value;
      var t := Text(b);
      TextIsUnique(b[0 := ch], [ch] + t[1..]);
    }
  }

  // A destroyed object is gone, and only that.
  lemma DestroyRemoves(vs: Values, id: Name)
    requires AllGood(vs) && Legal(vs, Destroy(id))
    ensures var r := Apply(vs, Destroy(id)); OnlyChanges(vs, r, {id}) && id !in r
  {
  }

  // Assigning an object to itself changes nothing a reader sees, by copy or by move.
  lemma SelfAssignment(vs: Values, id: Name)
    requires AllGood(vs) && id in vs
    ensures Apply(vs, MoveAssign(id, id)) == vs
    ensures var r := Apply(vs, CopyAssign(id, id));
      && r == vs[id := r[id]] && (r[id].Some? <==> vs[id].Some?)
      && (vs[id].Some? ==> Terminated(r[id].value) && Text(r[id].value) == Text(vs[id].value))
  {
    if vs[id].Some? {
      CopyReadsTheSame(vs[id].value);
    }
  }

  // ----- pointers and buffers -----

  type Pointers = map<Name, Option<Address>>

  ghost predicate OneToOne(memory: map<Address, Buffer>, ps: Pointers) {
    && (forall id :: id in ps && ps[id].Some? ==> ps[id].value in memory)
    && (forall i, j :: i in ps && j in ps && i != j && ps[i].Some? ==> ps[i] != ps[j])
    && (forall p :: p in memory ==> exists id :: id in ps && ps[id] == Some(p))
  }

  ghost function ValuesOf(memory: map<Address, Buffer>, ps: Pointers): Values
    requires OneToOne(memory, ps)
  {
    map id | id in ps :: Contents(memory, ps[id])
  }

  lemma NothingOwned(memory: map<Address, Buffer>, ps: Pointers)
    requires OneToOne(memory, ps) && forall id :: id in ps ==> ps[id] == None
    ensures memory == map[]
  {
    assert forall p :: p !in memory;
  }

  lemma OwnNew(memory: map<Address, Buffer>, ps: Pointers, id: Name, v: Option<Buffer>,
               p: Option<Address>, memory': map<Address, Buffer>)
    requires OneToOne(memory, ps) && id !in ps && Good(v) && (p.Some? <==> v.Some?)
    requires v.Some? ==> p.value !in memory && memory' == memory[p.value := Duplicated(v.value)]
    requires v.None? ==> memory' == memory
    ensures OneToOne(memory', ps[id := p])
    ensures ValuesOf(memory', ps[id := p]) == ValuesOf(memory, ps)[id := Copied(v)]
  {
    var ps' := ps[id := p];
    forall q | q in memory' ensures exists i :: i in ps' && ps'[i] == Some(q) {
      if q in memory {
        var i :| i in ps && ps[i] == Some(q);
        assert ps'[i] == Some(q);
      } else {
        assert ps'[id] == Some(q);
      }
    }
    var vs, vs' := ValuesOf(memory, ps)[id := Copied(v)], ValuesOf(memory', ps');
    assert vs'.Keys == vs.Keys;
    assert forall i :: i in vs ==> vs'[i] == vs[i];
  }

  lemma OwnMoved(memory: map<Address, Buffer>, ps: Pointers, id: Name, from: Name)
    requires OneToOne(memory, ps) && id !in ps && from in ps
    ensures OneToOne(memory, ps[id := ps[from]][from := None])
    ensures ValuesOf(memory, ps[id := ps[from]][from := None])
         == var vs := ValuesOf(memory, ps); vs[id := vs[from]][from := None]
  {
    var ps' := ps[id := ps[from]][from := None];
    forall q | q in memory ensures exists i :: i in ps' && ps'[i] == Some(q) {
      var i :| i in ps && ps[i] == Some(q);
      assert ps'[if i == from then id else i] == Some(q);
    }
    var vs, vs' := ValuesOf(memory, ps), ValuesOf(memory, ps');
    var expected := vs[id := vs[from]][from := None];
    assert vs'.Keys == expected.Keys;
    assert forall i :: i in expected ==> vs'[i] == expected[i];
  }

  lemma OwnSwapped(memory: map<Address, Buffer>, ps: Pointers, id: Name, from: Name)
    requires OneToOne(memory, ps) && id in ps && from in ps
    ensures OneToOne(memory, ps[id := ps[from]][from := ps[id]])
    ensures ValuesOf(memory, ps[id := ps[from]][from := ps[id]])
         == var vs := ValuesOf(memory, ps); vs[id := vs[from]][from := vs[id]]
  {
    SwapIsOneToOne(memory, ps, id, from);
    var vs, vs' := ValuesOf(memory, ps), ValuesOf(memory, ps[id := ps[from]][from := ps[id]]);
    var expected := vs[id := vs[from]][from := vs[id]];
    assert vs'.Keys == expected.Keys;
    assert forall i :: i in expected ==> vs'[i] == expected[i];
  }

  lemma SwapIsOneToOne(memory: map<Address, Buffer>, ps: Pointers, id: Name, from: Name)
    requires OneToOne(memory, ps) && id in ps && from in ps
    ensures OneToOne(memory, ps[id := ps[from]][from := ps[id]])
  {
    var ps' := ps[id := ps[from]][from := ps[id]];
    forall q | q in memory ensures exists i :: i in ps' && ps'[i] == Some(q) {
      var i :| i in ps && ps[i] == Some(q);
      assert ps'[if i == from then id else if i == id then from else i] == Some(q);
    }
  }

  lemma OwnCopied(memory: map<Address, Buffer>, ps: Pointers, id: Name, from: Name,
                  p: Option<Address>, memory': map<Address, Buffer>)
    requires OneToOne(memory, ps) && AllGood(ValuesOf(memory, ps)) && id in ps && from in ps
    requires Good(Contents(memory, ps[from]))
    requires (p.Some? <==> ps[from].Some?) && (p.Some? ==> p.value !in memory)
    requires memory' == Reassigned(memory, ps[id], ps[from], p)
    ensures OneToOne(memory', ps[id := p])
    ensures ValuesOf(memory', ps[id := p])
         == var vs := ValuesOf(memory, ps); vs[id := Copied(vs[from])]
  {
    CopyIsOneToOne(memory, ps, id, from, p, memory');
    var vs, vs' := ValuesOf(memory, ps), ValuesOf(memory', ps[id := p]);
    var expected := vs[id := Copied(vs[from])];
    assert vs'.Keys == expected.Keys;
    assert forall i :: i in expected ==> vs'[i] == expected[i];
  }

  lemma CopyIsOneToOne(memory: map<Address, Buffer>, ps: Pointers, id: Name, from: Name,
                       p: Option<Address>, memory': map<Address, Buffer>)
    requires OneToOne(memory, ps) && id in ps && from in ps && Good(Contents(memory, ps[from]))
    requires (p.Some? <==> ps[from].Some?) && (p.Some? ==> p.value !in memory)
    requires memory' == Reassigned(memory, ps[id], ps[from], p)
    ensures OneToOne(memory', ps[id := p])
  {
    var ps' := ps[id := p];
    forall q | q in memory' ensures exists i :: i in ps' && ps'[i] == Some(q) {
      if q in memory {
        var i :| i in ps && ps[i] == Some(q);
        assert i != id && ps'[i] == Some(q);
      } else {
        assert ps'[id] == Some(q);
      }
    }
  }

  lemma OwnWritten(memory: map<Address, Buffer>, ps: Pointers, id: Name, ch: char,
                   memory': map<Address, Buffer>)
    requires OneToOne(memory, ps) && id in ps
    requires ps[id].Some? ==> memory[ps[id].value] != []
    requires memory' == if ps[id].None? then memory
                        else memory[ps[id].value := memory[ps[id].value][0 := ch]]
    ensures OneToOne(memory', ps)
    ensures ValuesOf(memory', ps)
         == var vs := ValuesOf(memory, ps);
            if vs[id].Some? then vs[id := Some(vs[id].value[0 := ch])] else vs
  {
    forall q | q in memory' ensures exists i :: i in ps && ps[i] == Some(q) {
      assert q in memory;
    }
    var vs, vs' := ValuesOf(memory, ps), ValuesOf(memory', ps);
    assert vs'.Keys == vs.Keys;
    assert forall i :: i in vs && i != id ==> vs'[i] == vs[i];
  }

  lemma OwnFreed(memory: map<Address, Buffer>, ps: Pointers, id: Name,
                 memory': map<Address, Buffer>)
    requires OneToOne(memory, ps) && id in ps
    requires memory' == if ps[id].None? then memory else memory - {ps[id].value}
    ensures OneToOne(memory', ps - {id})
    ensures ValuesOf(memory', ps - {id}) == ValuesOf(memory, ps) - {id}
  {
    var ps' := ps - {id};
    forall q | q in memory' ensures exists i :: i in ps' && ps'[i] == Some(q) {
      var i :| i in ps && ps[i] == Some(q);
      assert i != id && ps'[i] == Some(q);
    }
    var vs, vs' := ValuesOf(memory, ps) - {id}, ValuesOf(memory', ps');
    assert vs'.Keys == vs.Keys;
    assert forall i :: i in vs ==> vs'[i] == vs[i];
  }

  lemma GoodStep(vs: Values, op: Op)
    requires AllGood(vs) && Legal(vs, op)
    ensures AllGood(Apply(vs, op))
  {
  }
}
