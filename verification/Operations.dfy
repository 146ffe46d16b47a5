/**
 Run-length operations and the two cursor loops over them (src/services/document/ot.h, ot.cc).

 A component keeps its stored `length` beside its `text`, as the program does.  The two agree when a
 component is made, and stop agreeing once `OpInsert` has merged more text into it: the merge
 appends to `text` and leaves `length` alone.  Attributes are not modelled; they never influence
 kind, length or text.
 */
module Operations {
  import opened Edits

  type uint32 = x: int | 0 <= x < 0x1_0000_0000
  const UINT32_MAX: uint32 := 0xFFFF_FFFF

  /** `x` in 32 bits. */
  function Wrap32(x: nat): uint32 { if x <= UINT32_MAX then x else Wrap32(x - 0x1_0000_0000) }

  lemma {:induction false} WrapsByRemainder(x: nat)
    ensures Wrap32(x) == x % 0x1_0000_0000
  {
    if x > UINT32_MAX {
      WrapsByRemainder(x - 0x1_0000_0000);
    }
  }

  function Min(x: uint32, y: uint32): uint32 { if x < y then x else y }

  datatype OpType = RETAIN | INSERT | DELETE

  datatype Component = Component(kind: OpType, length: uint32, text: string) {
    /** What every constructor and every builder leaves: the stored length never exceeds the text. */
    predicate Stored() {
      kind == INSERT ==> length <= |text| <= UINT32_MAX && (length == 0 ==> text == "")
    }

    function Span(): nat { if kind == INSERT then |text| else length }
  }

  type Ops = seq<Component>

  function Retain(n: uint32): Component { Component(RETAIN, n, "") }
  function Insert(text: string): Component { Component(INSERT, Wrap32(|text|), text) }
  function Delete(n: uint32): Component { Component(DELETE, n, "") }

  predicate AllStored(ops: Ops) { forall i :: 0 <= i < |ops| ==> ops[i].Stored() }

  /** No component is empty and no two neighbours are of one kind. */
  predicate Normal(ops: Ops) {
    && AllStored(ops)
    && (forall i :: 0 <= i < |ops| ==> ops[i].length > 0)
    && (forall i :: 0 <= i < |ops| - 1 ==> ops[i].kind != ops[i + 1].kind)
  }

  function Weight(ops: Ops): nat {
    if ops == [] then 0 else ops[0].Span() + Weight(ops[1..])
  }

  // ---------- the meaning of an operation ----------

  function KeepRun(n: nat, e: Edit): Edit { if n == 0 then e else Keep(KeepRun(n - 1, e)) }
  function DropRun(n: nat, e: Edit): Edit { if n == 0 then e else Drop(DropRun(n - 1, e)) }
  function PutRun(text: string, e: Edit): Edit { if text == "" then e else Put(text[0], PutRun(text[1..], e)) }

  function Lay(c: Component, e: Edit): Edit {
    match c.kind
    case RETAIN => KeepRun(c.length, e)
    case INSERT => PutRun(c.text, e)
    case DELETE => DropRun(c.length, e)
  }

  /** The operation read unit by unit. */
  function Expand(ops: Ops): Edit {
    if ops == [] then End else Lay(ops[0], Expand(ops[1..]))
  }

  function Append(e: Edit, f: Edit): Edit {
    match e
    case End => f
    case Keep(r) => Keep(Append(r, f))
    case Put(c, r) => Put(c, Append(r, f))
    case Drop(r) => Drop(Append(r, f))
  }

  // ---------- the builders ----------

  function PushRetain(ops: Ops, n: uint32): Ops {
    if n == 0 then ops
    else if ops != [] && ops[|ops| - 1].kind == RETAIN then
      var last := ops[|ops| - 1];
      ops[..|ops| - 1] + [last.(length := Wrap32(last.length + n))]
    else ops + [Retain(n)]
  }

  function PushInsert(ops: Ops, text: string): Ops {
    if text == "" then ops
    else if ops != [] && ops[|ops| - 1].kind == INSERT then
      var last := ops[|ops| - 1];
      ops[..|ops| - 1] + [last.(text := last.text + text)]
    else ops + [Insert(text)]
  }

  function PushDelete(ops: Ops, n: uint32): Ops {
    if n == 0 then ops
    else if ops != [] && ops[|ops| - 1].kind == DELETE then
      var last := ops[|ops| - 1];
      ops[..|ops| - 1] + [last.(length := Wrap32(last.length + n))]
    else ops + [Delete(n)]
  }

  class Operation {
    var ops: Ops

    constructor ()
      ensures ops == []
    {
      ops := [];
    }

    method OpRetain(n: uint32)
      modifies this
      ensures ops == PushRetain(old(ops), n)
    {
      if n == 0 { return; }
      if ops != [] && ops[|ops| - 1].kind == RETAIN {
        var last := ops[|ops| - 1];
        ops := ops[|ops| - 1 := last.(length := Wrap32(last.length + n))];
        return;
      }
      ops := ops + [Retain(n)];
    }

    method OpInsert(text: string)
      modifies this
      ensures ops == PushInsert(old(ops), text)
    {
      if text == "" { return; }
      if ops != [] && ops[|ops| - 1].kind == INSERT {
        var last := ops[|ops| - 1];
        ops := ops[|ops| - 1 := last.(text := last.text + text)];
        return;
      }
      ops := ops + [Insert(text)];
    }

    method OpDelete(n: uint32)
      modifies this
      ensures ops == PushDelete(old(ops), n)
    {
      if n == 0 { return; }
      if ops != [] && ops[|ops| - 1].kind == DELETE {
        var last := ops[|ops| - 1];
        ops := ops[|ops| - 1 := last.(length := Wrap32(last.length + n))];
        return;
      }
      ops := ops + [Delete(n)];
    }
  }

  // ---------- the cursor ----------

  /** What is left of a component behind an offset into it: stored length and text shrink together. */
  function Residual(c: Component, offset: uint32): Component
    requires c.Stored() && offset <= c.length
  {
    Component(c.kind, c.length - offset, if c.kind == INSERT then c.text[offset..] else c.text)
  }

  /** The component a cursor shows at the front of `ops`: always a freshly made one, whose length is
      the length of its text; an endless retain once the operation is exhausted. */
  function Front(ops: Ops): (c: Component)
    requires AllStored(ops)
    ensures c.kind == INSERT ==> c.length == |c.text|
  {
    if ops == [] then Retain(UINT32_MAX)
    else match ops[0].kind
      case INSERT => Insert(ops[0].text)
      case DELETE => Delete(ops[0].length)
      case RETAIN => Retain(ops[0].length)
  }

  /** What is left of `ops` after the cursor moves by `n`.  The stored length of the component, not
      the length of its text, decides whether the component is finished. */
  function Advance(ops: Ops, n: uint32): Ops
    requires AllStored(ops)
  {
    if ops == [] then []
    else if n >= ops[0].length then ops[1..]
    else [Residual(ops[0], n)] + ops[1..]
  }

  /** What a cursor at component `index`, `offset` into it, has still to read. */
  function From(ops: Ops, index: nat, offset: uint32): (r: Ops)
    requires AllStored(ops) && index <= |ops|
    requires offset == 0 || (index < |ops| && offset < ops[index].length)
    ensures AllStored(r)
    ensures r == [] <==> index == |ops|
  {
    if index == |ops| then [] else [Residual(ops[index], offset)] + ops[index + 1..]
  }

  lemma ResidualOfResidual(c: Component, offset: uint32, n: uint32)
    requires c.Stored() && offset + n < c.length
    ensures Residual(c, offset).Stored()
    ensures Residual(Residual(c, offset), n) == Residual(c, offset + n)
  {
  }

  lemma CursorFinishes(ops: Ops, index: nat, offset: uint32, n: uint32)
    requires AllStored(ops) && index < |ops| && (offset == 0 || offset < ops[index].length)
    requires offset + n >= ops[index].length
    ensures Advance(From(ops, index, offset), n) == From(ops, index + 1, 0)
  {
  }

  lemma CursorMoves(ops: Ops, index: nat, offset: uint32, n: uint32)
    requires AllStored(ops) && index < |ops| && offset + n < ops[index].length
    ensures Advance(From(ops, index, offset), n) == From(ops, index, offset + n)
  {
    var rest := From(ops, index, offset);
    assert rest[0] == Residual(ops[index], offset) && rest[1..] == ops[index + 1..];
    assert ops[index].Stored();
    ResidualOfResidual(ops[index], offset, n);
  }

  lemma PastEnd(n: uint32)
    ensures Advance([], n) == []
  {
  }

  class OpIterator {
    const op_: Ops
    var index_: nat
    var offset_: uint32
    ghost var remaining: Ops  // what the cursor has still to read

    ghost predicate Valid()
      reads this
    {
      && AllStored(op_)
      && index_ <= |op_|
      && (offset_ == 0 || (index_ < |op_| && offset_ < op_[index_].length))
      && remaining == From(op_, index_, offset_)
    }

    constructor (op: Ops)
      requires AllStored(op)
      ensures Valid() && remaining == op
    {
      op_ := op;
      index_ := 0;
      offset_ := 0;
      remaining := op;
    }

    predicate HasNext()
      requires Valid()
      reads this
      ensures HasNext() <==> remaining != []
    {
      index_ < |op_|
    }

    function Peek(): (c: Component)
      requires Valid()
      reads this
      ensures AllStored(remaining) && c == Front(remaining)
    {
      if !HasNext() then Retain(UINT32_MAX)
      else
        var opc := op_[index_];
        if opc.kind == INSERT then Insert(opc.text[offset_..])
        else if opc.kind == DELETE then Delete(opc.length - offset_)
        else Retain(opc.length - offset_)
    }

    method Next(n: uint32)
      requires Valid()
      requires HasNext() ==> n <= Peek().length
      modifies this
      ensures Valid()
      ensures AllStored(old(remaining)) && remaining == Advance(old(remaining), n)
    {
      hide From, Advance, Residual;
      if !HasNext() {
        PastEnd(n);
        return;
      }
      assert op_[index_].Stored();
      assert offset_ + n <= UINT32_MAX;
      remaining := Advance(remaining, n);
      if offset_ + n >= op_[index_].length {
        CursorFinishes(op_, index_, offset_, n);
      } else {
        CursorMoves(op_, index_, offset_, n);
      }
      offset_ := Wrap32(offset_ + n);
      if offset_ >= op_[index_].length {
        index_ := index_ + 1;
        offset_ := 0;
      }
    }
  }
}
