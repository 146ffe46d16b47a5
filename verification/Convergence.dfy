/**
 What the loop of `transform` is for, on every pair of operations.

 The loop does not follow the unit rule when a server edit hides an insertion behind an empty run, but
 it converges all the same: `ToBuild` is what it builds, unit by unit, and `ToCarry` what the author of
 the client's edit has to do with the server's edit, reading both as the loop reads them.
 */
module Convergence {
  import opened Edits
  import opened Operations
  import opened Transformation
  import opened Refinement

  /** What the loop has still to build, unit by unit. */
  function ToBuild(p: Progress): Edit
    requires p.Valid()
    decreases p.Left()
  {
    if p.Done() then End
    else
      var a, b, later := Front(p.first), Front(p.second), ToBuild(TransformStep(p));
      if b.kind == INSERT then KeepRun(b.length, later)
      else if a.kind == INSERT then PutRun(a.text, later)
      else if b.kind == DELETE then later
      else Run(a.kind, Min(a.length, b.length), later)
  }

  /** The mirror image: the server's edit for a text that has the client's edit already. */
  function ToCarry(p: Progress): Edit
    requires p.Valid()
    decreases p.Left()
  {
    if p.Done() then End
    else
      var a, b, later := Front(p.first), Front(p.second), ToCarry(TransformStep(p));
      if b.kind == INSERT then PutRun(b.text, later)
      else if a.kind == INSERT then KeepRun(a.length, later)
      else if a.kind == DELETE then later
      else Run(b.kind, Min(a.length, b.length), later)
  }

  /** The loop adds exactly that to what it has built, whatever the two operations are. */
  lemma {:induction false} TransformBuilds(p: Progress)
    requires p.Valid() && Normal(p.built) && Reach(p) <= UINT32_MAX
    ensures Expand(TransformRuns(p)) == Append(Expand(p.built), ToBuild(p))
    decreases p.Left()
  {
    if p.Done() {
      AppendEnd(Expand(p.built));
    } else {
      TransformStepMeaning(p);
      StepBuilds(p);
      TransformBuilds(TransformStep(p));
    }
  }

  lemma StepBuilds(p: Progress)
    requires p.Valid() && !p.Done() && Normal(p.built) && Reach(p) <= UINT32_MAX
    ensures Append(Expand(TransformStep(p).built), ToBuild(TransformStep(p))) == Append(Expand(p.built), ToBuild(p))
  {
    hide Normal, Inserts, Base, Weight, Expand, PushRetain, PushInsert, PushDelete, Advance, ToBuild;
    var a, b, later := Front(p.first), Front(p.second), ToBuild(TransformStep(p));
    ToBuildStep(p);
    if b.kind == INSERT {
      RoomForInsert(p);
      PushRetainMeaning(p.built, b.length);
      Laid(p.built, Retain(b.length), later);
    } else if a.kind == INSERT {
      RoomForInsert(p);
      PushInsertMeaning(p.built, a.text);
      Laid(p.built, Insert(a.text), later);
    } else if b.kind == RETAIN {
      var n := Min(a.length, b.length);
      RoomForRun(p, n);
      PushRetainMeaning(p.built, n);
      PushDeleteMeaning(p.built, n);
      Laid(p.built, if a.kind == RETAIN then Retain(n) else Delete(n), later);
    }
  }

  lemma ToBuildStep(p: Progress)
    requires p.Valid() && !p.Done()
    ensures var a, b, later := Front(p.first), Front(p.second), ToBuild(TransformStep(p));
      ToBuild(p) ==
        if b.kind == INSERT then KeepRun(b.length, later)
        else if a.kind == INSERT then PutRun(a.text, later)
        else if b.kind == DELETE then later
        else Run(a.kind, Min(a.length, b.length), later)
  {
  }

  lemma RoomForInsert(p: Progress)
    requires p.Valid() && Reach(p) <= UINT32_MAX
    ensures Front(p.first).kind == INSERT ==> Weight(p.built) + |Front(p.first).text| <= UINT32_MAX
    ensures Front(p.second).kind == INSERT ==> Weight(p.built) + Front(p.second).length <= UINT32_MAX
  {
  }

  // ---------- runs on texts ----------

  lemma {:induction false} ApplyRun(kind: OpType, u: string, e: Edit, t: string)
    requires kind != INSERT && BaseLength(e) <= |t|
    ensures BaseLength(Run(kind, |u|, e)) <= |u + t|
    ensures Apply(Run(kind, |u|, e), u + t) == (if kind == RETAIN then u else "") + Apply(e, t)
    decreases |u|
  {
    if u == "" {
      assert u + t == t;
    } else {
      assert (u + t)[1..] == u[1..] + t;
      ApplyRun(kind, u[1..], e, t);
    }
  }

  lemma {:induction false} ApplyPut(text: string, e: Edit, t: string)
    requires BaseLength(e) <= |t|
    ensures BaseLength(PutRun(text, e)) == BaseLength(e)
    ensures Apply(PutRun(text, e), t) == text + Apply(e, t)
  {
    if text != "" {
      ApplyPut(text[1..], e, t);
    }
  }

  lemma {:induction false} BaseLengthRun(kind: OpType, n: nat, e: Edit)
    requires kind != INSERT
    ensures BaseLength(Run(kind, n, e)) == n + BaseLength(e)
  {
    if n > 0 {
      BaseLengthRun(kind, n - 1, e);
    }
  }

  lemma {:induction false} BaseLengthPut(text: string, e: Edit)
    ensures BaseLength(PutRun(text, e)) == BaseLength(e)
  {
    if text != "" {
      BaseLengthPut(text[1..], e);
    }
  }

  lemma {:induction false} BaseIsBaseLength(ops: Ops)
    ensures Base(ops) == BaseLength(Expand(ops))
  {
    if ops != [] {
      BaseIsBaseLength(ops[1..]);
      if ops[0].kind == INSERT {
        BaseLengthPut(ops[0].text, Expand(ops[1..]));
      } else {
        BaseLengthRun(ops[0].kind, ops[0].length, Expand(ops[1..]));
      }
    }
  }

  /** Reading a run of an edit takes as much off the front of the text. */
  lemma ApplySplits(e: Edit, kind: OpType, n: nat, rest: Edit, t: string)
    requires Splits(e, kind, n, rest) && BaseLength(e) <= |t| && n <= |t|
    ensures BaseLength(rest) <= |t[n..]|
    ensures Apply(e, t) == (if kind == RETAIN then t[..n] else "") + Apply(rest, t[n..])
  {
    assert t[..n] + t[n..] == t;
    if e == Run(kind, n, rest) {
      BaseLengthRun(kind, n, rest);
      ApplyRun(kind, t[..n], rest, t[n..]);
    }
  }

  // ---------- convergence ----------

  /** The server's order and the author's order of the same two edits. */
  ghost predicate Meet(p: Progress, t: string)
    requires p.Valid() && BaseLength(Expand(p.first)) <= |t| && BaseLength(Expand(p.second)) <= |t|
  {
    && BaseLength(ToBuild(p)) <= |Apply(Expand(p.second), t)|
    && BaseLength(ToCarry(p)) <= |Apply(Expand(p.first), t)|
    && Apply(ToBuild(p), Apply(Expand(p.second), t)) == Apply(ToCarry(p), Apply(Expand(p.first), t))
  }

  /** From any point of the loop, what is built after the server's edit and what is carried after the
      client's give one text. */
  lemma {:induction false} LoopConverges(p: Progress, t: string)
    requires p.Valid() && BaseLength(Expand(p.first)) <= |t| && BaseLength(Expand(p.second)) <= |t|
    ensures Meet(p, t)
    decreases p.Left()
  {
    if !p.Done() {
      var a, b, q := Front(p.first), Front(p.second), TransformStep(p);
      if b.kind == INSERT {
        AdvanceInsert(p.second, b.length);
        BaseLengthPut(b.text, Expand(q.second));
        LoopConverges(q, t);
        ServerPut(p, t);
      } else if a.kind == INSERT {
        AdvanceInsert(p.first, a.length);
        BaseLengthPut(a.text, Expand(q.first));
        LoopConverges(q, t);
        ClientPut(p, t);
      } else {
        var n := Min(a.length, b.length);
        RunInText(p, n, t);
        LoopConverges(q, t[n..]);
        BothRun(p, n, t);
      }
    }
  }

  lemma ServerPut(p: Progress, t: string)
    requires p.Valid() && !p.Done() && Front(p.second).kind == INSERT
    requires BaseLength(Expand(p.first)) <= |t| && BaseLength(Expand(p.second)) <= |t|
    requires var q := TransformStep(p); BaseLength(Expand(q.second)) <= |t| && Meet(q, t)
    ensures Meet(p, t)
  {
    var b, q := Front(p.second), TransformStep(p);
    AdvanceInsert(p.second, b.length);
    assert b.text[..b.length] == b.text;
    hide Expand, Advance;
    ApplyPut(b.text, Expand(q.second), t);
    ApplyRun(RETAIN, b.text, ToBuild(q), Apply(Expand(q.second), t));
    ApplyPut(b.text, ToCarry(q), Apply(Expand(p.first), t));
  }

  lemma ClientPut(p: Progress, t: string)
    requires p.Valid() && !p.Done() && Front(p.first).kind == INSERT && Front(p.second).kind != INSERT
    requires BaseLength(Expand(p.first)) <= |t| && BaseLength(Expand(p.second)) <= |t|
    requires var q := TransformStep(p); BaseLength(Expand(q.first)) <= |t| && Meet(q, t)
    ensures Meet(p, t)
  {
    var a, q := Front(p.first), TransformStep(p);
    AdvanceInsert(p.first, a.length);
    assert a.text[..a.length] == a.text;
    hide Expand, Advance;
    ApplyPut(a.text, Expand(q.first), t);
    ApplyRun(RETAIN, a.text, ToCarry(q), Apply(Expand(q.first), t));
    ApplyPut(a.text, ToBuild(q), Apply(Expand(p.second), t));
  }

  lemma RunInText(p: Progress, n: uint32, t: string)
    requires p.Valid() && !p.Done() && Front(p.first).kind != INSERT && Front(p.second).kind != INSERT
    requires BaseLength(Expand(p.first)) <= |t| && BaseLength(Expand(p.second)) <= |t|
    requires n == Min(Front(p.first).length, Front(p.second).length)
    ensures n <= |t|
    ensures var q := TransformStep(p);
      && Splits(Expand(p.first), Front(p.first).kind, n, Expand(q.first))
      && Splits(Expand(p.second), Front(p.second).kind, n, Expand(q.second))
      && BaseLength(Expand(q.first)) <= |t[n..]| && BaseLength(Expand(q.second)) <= |t[n..]|
  {
    RoomForRun(p, n);
    BaseIsBaseLength(p.first);
    BaseIsBaseLength(p.second);
    AdvanceRun(p.first, n);
    AdvanceRun(p.second, n);
    var q := TransformStep(p);
    ApplySplits(Expand(p.first), Front(p.first).kind, n, Expand(q.first), t);
    ApplySplits(Expand(p.second), Front(p.second).kind, n, Expand(q.second), t);
  }

  lemma BothRun(p: Progress, n: uint32, t: string)
    requires p.Valid() && !p.Done() && Front(p.first).kind != INSERT && Front(p.second).kind != INSERT
    requires BaseLength(Expand(p.first)) <= |t| && BaseLength(Expand(p.second)) <= |t|
    requires n == Min(Front(p.first).length, Front(p.second).length) <= |t|
    requires var q := TransformStep(p);
      && BaseLength(Expand(q.first)) <= |t[n..]| && BaseLength(Expand(q.second)) <= |t[n..]| && Meet(q, t[n..])
    ensures Meet(p, t)
  {
    var a, b, q := Front(p.first), Front(p.second), TransformStep(p);
    RunInText(p, n, t);
    hide Expand, Advance, Splits, Run;
    var u, s, c := t[..n], Apply(Expand(q.second), t[n..]), Apply(Expand(q.first), t[n..]);
    ApplySplits(Expand(p.first), a.kind, n, Expand(q.first), t);
    ApplySplits(Expand(p.second), b.kind, n, Expand(q.second), t);
    ApplyRun(a.kind, u, ToBuild(q), s);
    ApplyRun(b.kind, u, ToCarry(q), c);
    assert "" + s == s && "" + c == c;
  }

  // ---------- what it keeps, and the unit rule ----------

  lemma {:induction false} InsertedRun(kind: OpType, n: nat, e: Edit)
    requires kind != INSERT
    ensures Inserted(Run(kind, n, e)) == Inserted(e)
  {
    if n > 0 {
      InsertedRun(kind, n - 1, e);
    }
  }

  lemma {:induction false} InsertedPut(text: string, e: Edit)
    ensures Inserted(PutRun(text, e)) == text + Inserted(e)
  {
    if text != "" {
      InsertedPut(text[1..], e);
    }
  }

  /** The loop keeps the client's characters, in order, and adds none. */
  lemma {:induction false} LoopKeepsInserts(p: Progress)
    requires p.Valid()
    ensures Inserted(ToBuild(p)) == Inserted(Expand(p.first))
    decreases p.Left()
  {
    if !p.Done() {
      var a, b, q := Front(p.first), Front(p.second), TransformStep(p);
      LoopKeepsInserts(q);
      if b.kind == INSERT {
        InsertedRun(RETAIN, b.length, ToBuild(q));
      } else if a.kind == INSERT {
        AdvanceInsert(p.first, a.length);
        assert a.text[..a.length] == a.text;
        InsertedPut(a.text, ToBuild(q));
        InsertedPut(a.text, Expand(q.first));
      } else {
        var n := Min(a.length, b.length);
        AdvanceRun(p.first, n);
        InsertedRun(a.kind, n, ToBuild(q));
        InsertedRun(a.kind, n, Expand(q.first));
      }
    }
  }

  lemma {:induction false} RemovedRun(kind: OpType, u: string, e: Edit, t: string)
    requires kind != INSERT && BaseLength(e) <= |t|
    ensures BaseLength(Run(kind, |u|, e)) <= |u + t|
    ensures Removed(Run(kind, |u|, e), u + t) == (if kind == DELETE then u else "") + Removed(e, t)
    decreases |u|
  {
    if u == "" {
      assert u + t == t;
    } else {
      assert (u + t)[1..] == u[1..] + t;
      RemovedRun(kind, u[1..], e, t);
    }
  }

  lemma {:induction false} RemovedPut(text: string, e: Edit, t: string)
    requires BaseLength(e) <= |t|
    ensures BaseLength(PutRun(text, e)) <= |t| && Removed(PutRun(text, e), t) == Removed(e, t)
  {
    if text != "" {
      RemovedPut(text[1..], e, t);
    }
  }

  lemma {:induction false} DropsAtPut(text: string, e: Edit)
    ensures forall i: nat :: DropsAt(PutRun(text, e), i) == DropsAt(e, i)
  {
    if text != "" {
      DropsAtPut(text[1..], e);
    }
  }

  lemma {:induction false} DropsAtRun(kind: OpType, n: nat, e: Edit, i: nat)
    requires kind != INSERT
    ensures DropsAt(Run(kind, n, e), i) == if i < n then kind == DELETE else DropsAt(e, i - n)
  {
    if n > 0 && i > 0 {
      DropsAtRun(kind, n - 1, e, i - 1);
    }
  }

  lemma DropsAtSplits(e: Edit, kind: OpType, n: nat, rest: Edit, i: nat)
    requires Splits(e, kind, n, rest)
    ensures DropsAt(e, i) == if i < n then kind == DELETE else DropsAt(rest, i - n)
  {
    if e == Run(kind, n, rest) {
      DropsAtRun(kind, n, rest, i);
    }
  }

  lemma DroppedNext(c: Edit, s: Edit, t: string, from: nat)
    ensures DroppedOnlyBy(c, s, t, from) ==
      if from >= |t| then ""
      else (if DropsAt(c, from) && !DropsAt(s, from) then [t[from]] else "") + DroppedOnlyBy(c, s, t, from + 1)
  {
  }

  /** Behind a run that both edits read, what is dropped is what the rests drop. */
  lemma {:induction false} DroppedBehind(
      c: Edit, ck: OpType, cr: Edit, s: Edit, sk: OpType, sr: Edit, n: nat, t: string, from: nat)
    requires Splits(c, ck, n, cr) && Splits(s, sk, n, sr) && n <= from && n <= |t|
    ensures DroppedOnlyBy(c, s, t, from) == DroppedOnlyBy(cr, sr, t[n..], from - n)
    decreases |t| - from
  {
    hide Splits, DropsAt, DroppedOnlyBy;
    DroppedNext(c, s, t, from);
    DroppedNext(cr, sr, t[n..], from - n);
    if from < |t| {
      DropsAtSplits(c, ck, n, cr, from);
      DropsAtSplits(s, sk, n, sr, from);
      DroppedBehind(c, ck, cr, s, sk, sr, n, t, from + 1);
    }
  }

  /** In the run itself it is all of it or nothing. */
  lemma {:induction false} DroppedInRun(
      c: Edit, ck: OpType, cr: Edit, s: Edit, sk: OpType, sr: Edit, n: nat, t: string, from: nat)
    requires Splits(c, ck, n, cr) && Splits(s, sk, n, sr) && from <= n <= |t|
    ensures DroppedOnlyBy(c, s, t, from)
         == (if ck == DELETE && sk != DELETE then t[from..n] else "") + DroppedOnlyBy(cr, sr, t[n..], 0)
    decreases n - from
  {
    hide Splits, DropsAt, DroppedOnlyBy;
    if from == n {
      DroppedBehind(c, ck, cr, s, sk, sr, n, t, from);
    } else {
      DroppedNext(c, s, t, from);
      DropsAtSplits(c, ck, n, cr, from);
      DropsAtSplits(s, sk, n, sr, from);
      DroppedInRun(c, ck, cr, s, sk, sr, n, t, from + 1);
      assert t[from..n] == [t[from]] + t[from + 1..n];
    }
  }

  /** What `transform` builds removes the characters that the client drops and the server does not. */
  ghost predicate RemovesRight(p: Progress, t: string)
    requires p.Valid() && BaseLength(Expand(p.first)) <= |t| && BaseLength(Expand(p.second)) <= |t|
  {
    && Meet(p, t)
    && Removed(ToBuild(p), Apply(Expand(p.second), t)) == DroppedOnlyBy(Expand(p.first), Expand(p.second), t, 0)
  }

  /** From any point of the loop, whatever the two operations are. */
  lemma {:induction false} LoopRemoves(p: Progress, t: string)
    requires p.Valid() && BaseLength(Expand(p.first)) <= |t| && BaseLength(Expand(p.second)) <= |t|
    ensures RemovesRight(p, t)
    decreases p.Left()
  {
    LoopConverges(p, t);
    if p.Done() {
      DroppedByNobody(t, 0);
    } else {
      var a, b, q := Front(p.first), Front(p.second), TransformStep(p);
      if b.kind == INSERT {
        AdvanceInsert(p.second, b.length);
        assert b.text[..b.length] == b.text;
        BaseLengthPut(b.text, Expand(q.second));
        LoopRemoves(q, t);
        ServerPutRemoves(p, t);
      } else if a.kind == INSERT {
        AdvanceInsert(p.first, a.length);
        assert a.text[..a.length] == a.text;
        BaseLengthPut(a.text, Expand(q.first));
        LoopRemoves(q, t);
        RemovedPut(a.text, ToBuild(q), Apply(Expand(p.second), t));
        DropsAtPut(a.text, Expand(q.first));
        DroppedOnlyByCong(Expand(p.first), Expand(p.second), Expand(q.first), Expand(q.second), t, 0);
      } else {
        var n := Min(a.length, b.length);
        RunInText(p, n, t);
        LoopRemoves(q, t[n..]);
        BothRunRemoves(p, n, t);
      }
    }
  }

  lemma ServerPutRemoves(p: Progress, t: string)
    requires p.Valid() && !p.Done() && Front(p.second).kind == INSERT
    requires BaseLength(Expand(p.first)) <= |t| && BaseLength(Expand(p.second)) <= |t| && Meet(p, t)
    requires var q := TransformStep(p); BaseLength(Expand(q.second)) <= |t| && RemovesRight(q, t)
    ensures RemovesRight(p, t)
  {
    var b, q := Front(p.second), TransformStep(p);
    AdvanceInsert(p.second, b.length);
    assert b.text[..b.length] == b.text;
    hide Expand, Advance;
    ApplyPut(b.text, Expand(q.second), t);
    RemovedRun(RETAIN, b.text, ToBuild(q), Apply(Expand(q.second), t));
    DropsAtPut(b.text, Expand(q.second));
    DroppedOnlyByCong(Expand(p.first), Expand(p.second), Expand(q.first), Expand(q.second), t, 0);
  }

  lemma BothRunRemoves(p: Progress, n: uint32, t: string)
    requires p.Valid() && !p.Done() && Front(p.first).kind != INSERT && Front(p.second).kind != INSERT
    requires BaseLength(Expand(p.first)) <= |t| && BaseLength(Expand(p.second)) <= |t| && Meet(p, t)
    requires n == Min(Front(p.first).length, Front(p.second).length) <= |t|
    requires var q := TransformStep(p);
      && BaseLength(Expand(q.first)) <= |t[n..]| && BaseLength(Expand(q.second)) <= |t[n..]| && RemovesRight(q, t[n..])
    ensures RemovesRight(p, t)
  {
    var a, b, q := Front(p.first), Front(p.second), TransformStep(p);
    RunInText(p, n, t);
    hide Expand, Advance, Splits, Run;
    var c, s := Expand(p.first), Expand(p.second);
    ApplySplits(s, b.kind, n, Expand(q.second), t);
    RemovedRun(a.kind, t[..n], ToBuild(q), Apply(Expand(q.second), t[n..]));
    DroppedInRun(c, a.kind, Expand(q.first), s, b.kind, Expand(q.second), n, t, 0);
    assert t[0..n] == t[..n];
    assert "" + Apply(Expand(q.second), t[n..]) == Apply(Expand(q.second), t[n..]);
  }

  lemma {:induction false} CarryPut(text: string, server: Edit, client: Edit)
    ensures Carry(PutRun(text, server), client) == PutRun(text, Carry(server, client))
  {
    if text != "" {
      CarryPut(text[1..], server, client);
    }
  }

  lemma {:induction false} CarryClientPut(server: Edit, text: string, client: Edit)
    requires !server.Put?
    ensures Carry(server, PutRun(text, client)) == KeepRun(|text|, Carry(server, client))
  {
    if text != "" {
      CarryClientPut(server, text[1..], client);
    }
  }

  lemma {:induction false} CarryRun(s: Edit, sk: OpType, sr: Edit, c: Edit, ck: OpType, cr: Edit, n: nat)
    requires Splits(s, sk, n, sr) && Splits(c, ck, n, cr)
    requires n > 0 ==> !(c.End? && s.End?)
    ensures Carry(s, c) == if ck == DELETE then Carry(sr, cr) else Run(sk, n, Carry(sr, cr))
    decreases n
  {
    if n > 0 {
      var s1, c1 := if s.End? then End else s.rest, if c.End? then End else c.rest;
      assert c.End? || c1 == Run(ck, n - 1, cr);
      assert s.End? || s1 == Run(sk, n - 1, sr);
      CarryRun(s1, sk, sr, c1, ck, cr, n - 1);
      CarryOverEnd(s1);
    }
  }

  /** For a server edit that hides no insertion, what the author has to do is what the unit rule says. */
  lemma {:induction false} CarryRefines(p: Progress)
    requires p.Valid() && Solid(p.second)
    ensures ToCarry(p) == Carry(Expand(p.second), Expand(p.first))
    decreases p.Left()
  {
    if !p.Done() {
      var a, b, q := Front(p.first), Front(p.second), TransformStep(p);
      if b.kind == INSERT {
        SolidAdvance(p.second, b.length);
        CarryRefines(q);
        AdvanceInsert(p.second, b.length);
        assert b.text[..b.length] == b.text;
        CarryPut(b.text, Expand(q.second), Expand(p.first));
      } else if a.kind == INSERT {
        CarryRefines(q);
        AdvanceInsert(p.first, a.length);
        assert a.text[..a.length] == a.text;
        InsertAheadIsPut(p.second);
        CarryClientPut(Expand(p.second), a.text, Expand(q.first));
      } else {
        var n := Min(a.length, b.length);
        SolidAdvance(p.second, n);
        CarryRefines(q);
        AdvanceRun(p.first, n);
        AdvanceRun(p.second, n);
        NotBothAtEnd(p);
        CarryRun(Expand(p.second), b.kind, Expand(q.second), Expand(p.first), a.kind, Expand(q.first), n);
      }
    }
  }

  // ---------- whole operations ----------

  /** `transform` converges on every pair of operations; its result inserts what the client inserted and
      removes what the client removed and the server had left. */
  lemma TransformConverges(client: Ops, server: Ops, t: string)
    requires AllStored(client) && AllStored(server) && Reach(Progress(client, server, [])) <= UINT32_MAX
    requires BaseLength(Expand(client)) <= |t| && BaseLength(Expand(server)) <= |t|
    ensures var p := Progress(client, server, []);
      var rebased := Expand(TransformRuns(p));
      && BaseLength(rebased) <= |Apply(Expand(server), t)|
      && BaseLength(ToCarry(p)) <= |Apply(Expand(client), t)|
      && Apply(rebased, Apply(Expand(server), t)) == Apply(ToCarry(p), Apply(Expand(client), t))
      && Inserted(rebased) == Inserted(Expand(client))
      && Removed(rebased, Apply(Expand(server), t)) == DroppedOnlyBy(Expand(client), Expand(server), t, 0)
  {
    var p := Progress(client, server, []);
    TransformBuilds(p);
    LoopRemoves(p, t);
    LoopKeepsInserts(p);
  }
}
