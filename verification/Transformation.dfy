/**
 The two cursor loops of the operational transformation engine and what they mean.

 `TransformRuns` and `ComposeRuns` say what the loops build; the methods `Transform` and `Compose`
 are the loops.  The lemmas tie both to the unit rules of module `Edits`.
 */
module Transformation {
  import opened Edits
  import opened Operations

  /** A loop between two iterations: what the two cursors have still to read, and what is built. */
  datatype Progress = Progress(first: Ops, second: Ops, built: Ops) {
    ghost predicate Valid() { AllStored(first) && AllStored(second) }
    predicate Done() { first == [] && second == [] }
    function Left(): nat { |first| + |second| }
  }

  /** One iteration of the loop of `transform`, `first` being the client's operation. */
  function TransformStep(p: Progress): (q: Progress)
    requires p.Valid() && !p.Done()
    ensures q.Valid() && q.Left() < p.Left()
  {
    var a, b := Front(p.first), Front(p.second);
    if b.kind == INSERT then
      Progress(p.first, Advance(p.second, b.length), PushRetain(p.built, b.length))
    else if a.kind == INSERT then
      Progress(Advance(p.first, a.length), p.second, PushInsert(p.built, a.text))
    else
      var n := Min(a.length, b.length);
      Progress(Advance(p.first, n), Advance(p.second, n),
               if b.kind != RETAIN then p.built
               else if a.kind == RETAIN then PushRetain(p.built, n)
               else PushDelete(p.built, n))
  }

  function TransformRuns(p: Progress): Ops
    requires p.Valid()
    decreases p.Left()
  {
    if p.Done() then p.built else TransformRuns(TransformStep(p))
  }

  /** The body of the loop of `transform`. */
  method TransformOnce(builder: Operation, iterA: OpIterator, iterB: OpIterator)
    requires iterA.Valid() && iterB.Valid() && iterA != iterB
    requires iterA.HasNext() || iterB.HasNext()
    modifies builder, iterA, iterB
    ensures iterA.Valid() && iterB.Valid()
    ensures Progress(iterA.remaining, iterB.remaining, builder.ops)
         == TransformStep(old(Progress(iterA.remaining, iterB.remaining, builder.ops)))
  {
    var opA, opB := iterA.Peek(), iterB.Peek();
    if opB.kind == INSERT {
      builder.OpRetain(opB.length);
      iterB.Next(opB.length);
      return;
    }
    if opA.kind == INSERT {
      builder.OpInsert(opA.text);
      iterA.Next(opA.length);
      return;
    }
    var minLen := Min(opA.length, opB.length);
    if opA.kind == RETAIN {
      if opB.kind == RETAIN {
        builder.OpRetain(minLen);
      }
    } else if opA.kind == DELETE {
      if opB.kind == RETAIN {
        builder.OpDelete(minLen);
      }
    }
    iterA.Next(minLen);
    iterB.Next(minLen);
  }

  method Transform(client: Ops, server: Ops) returns (result: Ops)
    requires AllStored(client) && AllStored(server)
    ensures result == TransformRuns(Progress(client, server, []))
  {
    var builder := new Operation();
    var iterA := new OpIterator(client);
    var iterB := new OpIterator(server);
    ghost var p := Progress(client, server, []);
    while iterA.HasNext() || iterB.HasNext()
      invariant iterA.Valid() && iterB.Valid() && iterA != iterB
      invariant p == Progress(iterA.remaining, iterB.remaining, builder.ops) && p.Valid()
      invariant TransformRuns(p) == TransformRuns(Progress(client, server, []))
      decreases p.Left()
    {
      TransformOnce(builder, iterA, iterB);
      p := TransformStep(p);
    }
    result := builder.ops;
  }

  /** One iteration of the loop of `compose`, `first` being the older operation. */
  function ComposeStep(p: Progress): (q: Progress)
    requires p.Valid() && !p.Done()
    ensures q.Valid() && q.Left() < p.Left()
  {
    var a, b := Front(p.first), Front(p.second);
    if b.kind == INSERT then
      Progress(p.first, Advance(p.second, b.length), PushInsert(p.built, b.text))
    else if a.kind == DELETE then
      Progress(Advance(p.first, a.length), p.second, PushDelete(p.built, a.length))
    else
      var n := Min(a.length, b.length);
      Progress(Advance(p.first, n), Advance(p.second, n),
               if a.kind == INSERT then (if b.kind == RETAIN then PushInsert(p.built, a.text[..n]) else p.built)
               else if b.kind == DELETE then PushDelete(p.built, n)
               else PushRetain(p.built, n))
  }

  function ComposeRuns(p: Progress): Ops
    requires p.Valid()
    decreases p.Left()
  {
    if p.Done() then p.built else ComposeRuns(ComposeStep(p))
  }

  /** The body of the loop of `compose`. */
  method ComposeOnce(builder: Operation, iterA: OpIterator, iterB: OpIterator)
    requires iterA.Valid() && iterB.Valid() && iterA != iterB
    requires iterA.HasNext() || iterB.HasNext()
    modifies builder, iterA, iterB
    ensures iterA.Valid() && iterB.Valid()
    ensures Progress(iterA.remaining, iterB.remaining, builder.ops)
         == ComposeStep(old(Progress(iterA.remaining, iterB.remaining, builder.ops)))
  {
    var compA, compB := iterA.Peek(), iterB.Peek();
    if compB.kind == INSERT {
      builder.OpInsert(compB.text);
      iterB.Next(compB.length);
      return;
    }
    if compA.kind == DELETE {
      builder.OpDelete(compA.length);
      iterA.Next(compA.length);
      return;
    }
    var minLen := Min(compA.length, compB.length);
    if compA.kind == INSERT {
      if compB.kind == RETAIN {
        builder.OpInsert(compA.text[..minLen]);
      }
    } else if compA.kind == RETAIN {
      if compB.kind == DELETE {
        builder.OpDelete(minLen);
      } else if compB.kind == RETAIN {
        builder.OpRetain(minLen);
      }
    }
    iterA.Next(minLen);
    iterB.Next(minLen);
  }

  method Compose(opOld: Ops, opNew: Ops) returns (result: Ops)
    requires AllStored(opOld) && AllStored(opNew)
    ensures result == ComposeRuns(Progress(opOld, opNew, []))
  {
    var builder := new Operation();
    var iterA := new OpIterator(opOld);
    var iterB := new OpIterator(opNew);
    ghost var p := Progress(opOld, opNew, []);
    while iterA.HasNext() || iterB.HasNext()
      invariant iterA.Valid() && iterB.Valid() && iterA != iterB
      invariant p == Progress(iterA.remaining, iterB.remaining, builder.ops) && p.Valid()
      invariant ComposeRuns(p) == ComposeRuns(Progress(opOld, opNew, []))
      decreases p.Left()
    {
      ComposeOnce(builder, iterA, iterB);
      p := ComposeStep(p);
    }
    result := builder.ops;
  }
}
