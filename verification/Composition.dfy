/**
 Exactly when the composition loop keeps the text.

 An insertion that the builder has merged keeps the length of its first part.  When `compose` stops
 in its text at or behind that length it takes the insertion to be finished and loses the rest.
 `Clean` names the boundaries where that happens; `ComposeExactly` shows that nothing else goes
 wrong, and that this always does.
 */
module Composition {
  import opened Edits
  import opened Operations
  import opened Transformation
  import opened Refinement
  import opened Convergence

  /** Does position `at` of the text that `ops` writes lie inside the text of an insertion, but at or
      behind its stored length? */
  predicate Fragile(ops: Ops, at: int) {
    ops != [] &&
    match ops[0].kind
    case DELETE => Fragile(ops[1..], at)
    case RETAIN => Fragile(ops[1..], at - ops[0].length)
    case INSERT => ops[0].length <= at < |ops[0].text| || Fragile(ops[1..], at - |ops[0].text|)
  }

  /** No component of `second`, which reads the text of `first` from `at` on, ends at a fragile place. */
  predicate Clean(first: Ops, second: Ops, at: nat) {
    second != [] ==>
      if second[0].kind == INSERT then Clean(first, second[1..], at)
      else !Fragile(first, at + second[0].length) && Clean(first, second[1..], at + second[0].length)
  }

  /** Two edits that say the same of every text. */
  ghost predicate Same(e: Edit, f: Edit) {
    && BaseLength(e) == BaseLength(f)
    && forall t: string :: BaseLength(e) <= |t| ==> Apply(e, t) == Apply(f, t)
  }

  lemma {:induction false} AppendSame(x: Edit, e: Edit, f: Edit)
    requires Same(e, f)
    ensures Same(Append(x, e), Append(x, f))
  {
    if !x.End? {
      AppendSame(x.rest, e, f);
    }
  }

  /** Putting and dropping at one place commute. */
  lemma PutDropCommute(c: char, n: nat, e: Edit)
    ensures Same(Put(c, DropRun(n, e)), DropRun(n, Put(c, e)))
  {
  }

  // ---------- the unit rule on runs ----------

  lemma {:induction false} ComposePut(first: Edit, text: string, second: Edit)
    ensures Edits.Compose(first, PutRun(text, second)) == PutRun(text, Edits.Compose(first, second))
  {
    if text != "" {
      ComposePut(first, text[1..], second);
    }
  }

  lemma {:induction false} ComposeDrop(n: nat, first: Edit, second: Edit)
    ensures Same(Edits.Compose(DropRun(n, first), second), DropRun(n, Edits.Compose(first, second)))
    decreases second, n
  {
    if second.Put? {
      ComposeDrop(n, first, second.rest);
      PutDropCommute(second.c, n, Edits.Compose(first, second.rest));
    } else if n > 0 {
      ComposeDrop(n - 1, first, second);
    }
  }

  lemma {:induction false} ComposeDropExact(n: nat, first: Edit, second: Edit)
    requires !second.Put?
    ensures Edits.Compose(DropRun(n, first), second) == DropRun(n, Edits.Compose(first, second))
    decreases n
  {
    if n > 0 {
      ComposeDropExact(n - 1, first, second);
    }
  }

  lemma {:induction false} ComposeRun(a: Edit, ar: Edit, b: Edit, bk: OpType, br: Edit, n: nat)
    requires Splits(a, RETAIN, n, ar) && Splits(b, bk, n, br)
    requires n > 0 ==> !(a.End? && b.End?)
    ensures Edits.Compose(a, b) == Run(bk, n, Edits.Compose(ar, br))
    decreases n
  {
    if n > 0 {
      var a1, b1 := if a.End? then End else a.rest, if b.End? then End else b.rest;
      assert a.End? || a1 == KeepRun(n - 1, ar);
      assert b.End? || b1 == Run(bk, n - 1, br);
      ComposeRun(a1, ar, b1, bk, br, n - 1);
      ComposeAfterEnd(b1);
    }
  }

  lemma {:induction false} ComposeInsertRun(text: string, ar: Edit, b: Edit, bk: OpType, br: Edit)
    requires Splits(b, bk, |text|, br)
    ensures Edits.Compose(PutRun(text, ar), b)
         == if bk == DELETE then Edits.Compose(ar, br) else PutRun(text, Edits.Compose(ar, br))
    decreases |text|
  {
    if text != "" {
      var b1 := if b.End? then End else b.rest;
      assert b.End? || b1 == Run(bk, |text| - 1, br);
      ComposeInsertRun(text[1..], ar, b1, bk, br);
    }
  }

  // ---------- fragile places ----------

  lemma {:induction false} NotFragileAtFront(ops: Ops, at: int)
    requires AllStored(ops) && at <= 0
    ensures !Fragile(ops, at)
  {
    if ops != [] {
      assert ops[0].Stored();
      NotFragileAtFront(ops[1..], if ops[0].kind == DELETE then at else at - ops[0].Span());
    }
  }

  /** Where a position of the text written by `ops` is after reading `n` units of it. */
  lemma FragileAdvance(ops: Ops, n: uint32, at: int)
    requires AllStored(ops) && Front(ops).kind != DELETE && n <= Front(ops).length && n <= at
    requires ops != [] && ops[0].kind == INSERT ==> n < ops[0].length || n == |ops[0].text|
    ensures Fragile(Advance(ops, n), at - n) == Fragile(ops, at)
  {
  }

  lemma {:induction false} CleanAdvance(first: Ops, n: uint32, second: Ops, at: nat)
    requires AllStored(first) && Front(first).kind != DELETE && n <= Front(first).length && n <= at
    requires first != [] && first[0].kind == INSERT ==> n < first[0].length || n == |first[0].text|
    ensures Clean(Advance(first, n), second, at - n) == Clean(first, second, at)
    decreases |second|
  {
    if second != [] {
      var next := if second[0].kind == INSERT then at else at + second[0].length;
      CleanAdvance(first, n, second[1..], next);
      FragileAdvance(first, n, next);
    }
  }

  lemma {:induction false} CleanAfterDelete(first: Ops, second: Ops, at: nat)
    requires first != [] && first[0].kind == DELETE
    ensures Clean(first[1..], second, at) == Clean(first, second, at)
    decreases |second|
  {
    if second != [] {
      CleanAfterDelete(first, second[1..], if second[0].kind == INSERT then at else at + second[0].length);
    }
  }

  /** Does this iteration stop in the text of an insertion that it then takes to be finished? */
  predicate Tears(p: Progress)
    requires p.Valid() && !p.Done()
  {
    var a, b := Front(p.first), Front(p.second);
    a.kind == INSERT && b.kind != INSERT && p.first[0].length <= b.length < |a.text|
  }

  /** An iteration keeps the fragile boundaries to come; it tears exactly when it is at one. */
  lemma CleanStep(p: Progress)
    requires p.Valid() && !p.Done()
    ensures var q := ComposeStep(p);
      Clean(p.first, p.second, 0) <==> !Tears(p) && Clean(q.first, q.second, 0)
  {
    var a, b := Front(p.first), Front(p.second);
    var q := ComposeStep(p);
    if b.kind == INSERT {
    } else if a.kind == DELETE {
      CleanAfterDelete(p.first, p.second, 0);
    } else {
      var n := Min(a.length, b.length);
      if Tears(p) {
        assert Fragile(p.first, b.length);
      } else if p.second != [] {
        CleanAdvance(p.first, n, p.second[1..], b.length);
        FragileAdvance(p.first, n, b.length);
        if n == b.length {
          NotFragileAtFront(q.first, 0);
        } else {
          assert q.second[1..] == p.second[1..];
        }
      }
    }
  }

  /** How much of that insertion is lost: what it has behind the stop. */
  function Torn(p: Progress): nat
    requires p.Valid() && !p.Done()
  {
    if Tears(p) then |Front(p.first).text| - Front(p.second).length else 0
  }

  // ---------- one iteration ----------

  /** What building and reading together still add to a text. */
  function Yield(p: Progress): int {
    Growth(Expand(p.built)) + Growth(Expand(p.first)) + Growth(Expand(p.second))
  }

  /** Everything the loop has built and would build by the unit rule. */
  function Whole(p: Progress): Edit {
    Append(Expand(p.built), Edits.Compose(Expand(p.first), Expand(p.second)))
  }

  lemma {:induction false} GrowthRun(kind: OpType, n: nat, e: Edit)
    requires kind != INSERT
    ensures Growth(Run(kind, n, e)) == if kind == DELETE then Growth(e) - n else Growth(e)
  {
    if n > 0 {
      GrowthRun(kind, n - 1, e);
    }
  }

  lemma GrowthLay(c: Component, e: Edit)
    ensures Growth(Lay(c, e)) == Growth(e) + Growth(Lay(c, End))
    ensures Growth(Lay(c, End)) == match c.kind case INSERT => |c.text| case RETAIN => 0 case DELETE => -(c.length as int)
  {
    if c.kind == INSERT {
      GrowthPutRun(c.text, e);
      GrowthPutRun(c.text, End);
    } else {
      GrowthRun(c.kind, c.length, e);
      GrowthRun(c.kind, c.length, End);
    }
  }

  /** The builder stays in normal form, and exactly what the iteration tears off is lost. */
  lemma ComposeStepYield(p: Progress)
    requires p.Valid() && !p.Done() && Normal(p.built) && Bulk(p) <= UINT32_MAX
    ensures var q := ComposeStep(p);
      && Normal(q.built) && Bulk(q) <= Bulk(p)
      && Yield(q) == Yield(p) - Torn(p)
  {
    var a, b := Front(p.first), Front(p.second);
    var q := ComposeStep(p);
    if b.kind == INSERT {
      AdvanceInsert(p.second, b.length);
      PushInsertMeaning(p.built, b.text);
      GrowthAppend(Expand(p.built), Lay(b, End));
      GrowthLay(b, End);
    } else if a.kind == DELETE {
      GrowthLay(p.first[0], Expand(p.first[1..]));
      PushDeleteMeaning(p.built, a.length);
      GrowthAppend(Expand(p.built), Lay(a, End));
      GrowthLay(a, End);
    } else {
      var n := Min(a.length, b.length);
      AdvanceRun(p.second, n);
      GrowthRun(b.kind, n, Expand(q.second));
      if a.kind == INSERT {
        ComposeStepYieldInsert(p, n);
      } else {
        AdvanceRun(p.first, n);
        GrowthRun(RETAIN, n, Expand(q.first));
        var c := if b.kind == DELETE then Delete(n) else Retain(n);
        PushRetainMeaning(p.built, n);
        PushDeleteMeaning(p.built, n);
        GrowthAppend(Expand(p.built), Lay(c, End));
        GrowthLay(c, End);
      }
    }
  }

  lemma ComposeStepYieldInsert(p: Progress, n: uint32)
    requires p.Valid() && !p.Done() && Normal(p.built) && Bulk(p) <= UINT32_MAX
    requires Front(p.first).kind == INSERT && Front(p.second).kind != INSERT
    requires n == Min(Front(p.first).length, Front(p.second).length)
    ensures var q := ComposeStep(p);
      && Normal(q.built) && Bulk(q) <= Bulk(p)
      && Yield(q) == Yield(p) - Torn(p)
  {
    var a, b := Front(p.first), Front(p.second);
    var q := ComposeStep(p);
    AdvanceRun(p.second, n);
    GrowthRun(b.kind, n, Expand(q.second));
    AdvanceInsert(p.first, n);
    GrowthPutRun(a.text[..n], Expand(q.first));
    if b.kind == RETAIN {
      PushInsertMeaning(p.built, a.text[..n]);
      GrowthAppend(Expand(p.built), PutRun(a.text[..n], End));
      GrowthPutRun(a.text[..n], End);
    }
  }

  lemma ComposeDeleteMeaning(p: Progress)
    requires p.Valid() && !p.Done() && Normal(p.built) && Bulk(p) <= UINT32_MAX
    requires Front(p.first).kind == DELETE && Front(p.second).kind != INSERT
    ensures Same(Whole(ComposeStep(p)), Whole(p))
    ensures Solid(p.second) ==> Whole(ComposeStep(p)) == Whole(p)
  {
    hide Same, Normal, Advance, PushDelete;
    var a, q := Front(p.first), ComposeStep(p);
    var after := Edits.Compose(Expand(q.first), Expand(p.second));
    FrontDelete(p.first);
    ComposeDrop(a.length, Expand(q.first), Expand(p.second));
    PushDeleteMeaning(p.built, a.length);
    Laid(p.built, a, after);
    SameBack(Edits.Compose(Expand(p.first), Expand(p.second)), Lay(a, after));
    AppendSame(Expand(p.built), Lay(a, after), Edits.Compose(Expand(p.first), Expand(p.second)));
    InsertAheadIsPut(p.second);
    if Solid(p.second) {
      ComposeDropExact(a.length, Expand(q.first), Expand(p.second));
    }
  }

  lemma FrontDelete(ops: Ops)
    requires AllStored(ops) && Front(ops).kind == DELETE
    ensures Expand(ops) == DropRun(Front(ops).length, Expand(Advance(ops, Front(ops).length)))
    ensures Front(ops).length <= Weight(ops)
  {
  }

  lemma SameBack(e: Edit, f: Edit)
    requires Same(e, f)
    ensures Same(f, e)
  {
  }

  /** An iteration that tears nothing keeps the meaning of the whole. */
  lemma ComposeStepMeaning(p: Progress)
    requires p.Valid() && !p.Done() && Normal(p.built) && Bulk(p) <= UINT32_MAX && !Tears(p)
    ensures Same(Whole(ComposeStep(p)), Whole(p))
    ensures Solid(p.second) ==> Whole(ComposeStep(p)) == Whole(p)
  {
    var a, b := Front(p.first), Front(p.second);
    var q := ComposeStep(p);
    var after := Edits.Compose(Expand(q.first), Expand(q.second));
    if b.kind == INSERT {
      AdvanceInsert(p.second, b.length);
      assert b.text[..b.length] == b.text;
      ComposePut(Expand(p.first), b.text, Expand(q.second));
      PushInsertMeaning(p.built, b.text);
      Laid(p.built, b, after);
    } else if a.kind == DELETE {
      ComposeDeleteMeaning(p);
    } else {
      var n := Min(a.length, b.length);
      AdvanceRun(p.second, n);
      if a.kind == INSERT {
        AdvanceInsert(p.first, n);
        var text := a.text[..n];
        ComposeInsertRun(text, Expand(q.first), Expand(p.second), b.kind, Expand(q.second));
        if b.kind == RETAIN {
          PushInsertMeaning(p.built, text);
          Laid(p.built, Insert(text), after);
        }
      } else {
        AdvanceRun(p.first, n);
        ComposeRun(Expand(p.first), Expand(q.first), Expand(p.second), b.kind, Expand(q.second), n);
        PushRetainMeaning(p.built, n);
        PushDeleteMeaning(p.built, n);
        Laid(p.built, if b.kind == DELETE then Delete(n) else Retain(n), after);
      }
    }
  }

  lemma ComposeStepSolid(p: Progress)
    requires p.Valid() && !p.Done() && Solid(p.second)
    ensures Solid(ComposeStep(p).second)
  {
    var a, b := Front(p.first), Front(p.second);
    if b.kind == INSERT {
      SolidAdvance(p.second, b.length);
    } else if a.kind != DELETE {
      SolidAdvance(p.second, Min(a.length, b.length));
    }
  }

  // ---------- the whole loop ----------

  lemma {:induction false} ComposeLoop(p: Progress)
    requires p.Valid() && Normal(p.built) && Bulk(p) <= UINT32_MAX
    ensures Normal(ComposeRuns(p)) && Weight(ComposeRuns(p)) <= Bulk(p)
    ensures Clean(p.first, p.second, 0) ==> Same(Expand(ComposeRuns(p)), Whole(p))
    ensures Clean(p.first, p.second, 0) && Solid(p.second) ==> Expand(ComposeRuns(p)) == Whole(p)
    ensures !Clean(p.first, p.second, 0) ==> Growth(Expand(ComposeRuns(p))) < Yield(p)
    ensures Growth(Expand(ComposeRuns(p))) <= Yield(p)
    decreases p.Left()
  {
    if p.Done() {
      AppendEnd(Expand(p.built));
    } else {
      ComposeStepYield(p);
      CleanStep(p);
      if Solid(p.second) {
        ComposeStepSolid(p);
      }
      ComposeLoop(ComposeStep(p));
      if !Tears(p) {
        ComposeStepMeaning(p);
      }
    }
  }

  /** `compose` makes one operation of two exactly when no boundary of the newer one is fragile. */
  lemma ComposeExactly(first: Ops, second: Ops, t: string)
    requires AllStored(first) && AllStored(second) && Weight(first) + Weight(second) <= UINT32_MAX
    requires BaseLength(Expand(first)) <= |t| && BaseLength(Expand(second)) <= |Apply(Expand(first), t)|
    ensures Normal(ComposeRuns(Progress(first, second, [])))
    ensures Weight(ComposeRuns(Progress(first, second, []))) <= Weight(first) + Weight(second)
    ensures var r := Expand(ComposeRuns(Progress(first, second, [])));
      Clean(first, second, 0) <==>
        BaseLength(r) <= |t| && Apply(r, t) == Apply(Expand(second), Apply(Expand(first), t))
  {
    var p := Progress(first, second, []);
    ComposeLoop(p);
    var r := Expand(ComposeRuns(p));
    ComposeMeaning(Expand(first), Expand(second), t);
    ApplyGrowth(Expand(first), t);
    ApplyGrowth(Expand(second), Apply(Expand(first), t));
    if BaseLength(r) <= |t| {
      ApplyGrowth(r, t);
    }
  }

  // ---------- one insertion into another ----------

  /** What `compose` makes of an insertion whose stored length is `n` when `s` is put behind its `k`-th
      character: cut before the stored length it is put together again, with `k` as its length; cut at
      or behind it, what is behind the cut is gone. */
  function Spliced(n: uint32, t: string, k: uint32, s: string): Ops {
    if k < n && k < |t| then [Component(INSERT, k, t[..k] + s + t[k..])]
    else if k <= |t| then [Component(INSERT, k, t[..k] + s)]
    else [Insert(t), Retain(k - |t|), Insert(s)]
  }

  lemma ComposeSplices(n: uint32, t: string, k: uint32, s: string)
    requires 0 < n <= |t| && k > 0 && s != "" && |t| + k + |s| <= UINT32_MAX
    ensures ComposeRuns(Progress([Component(INSERT, n, t)], [Retain(k), Insert(s)], [])) == Spliced(n, t, k, s)
  {
    hide ComposeRuns, ComposeStep;
    var p := Progress([Component(INSERT, n, t)], [Retain(k), Insert(s)], []);
    if k <= |t| {
      var rest := if k < n then [Component(INSERT, n - k, t[k..])] else [];
      var built := [Component(INSERT, k, t[..k])];
      var q := Progress(rest, [Insert(s)], built);
      CutStep(n, t, k, s);
      ComposesOn(p, q);
      PutStep(rest, s, built);
      ComposesOn(q, Progress(rest, [], PushInsert(built, s)));
      if k < n {
        RestStep(n - k, t[k..], PushInsert(built, s));
        ComposesOn(Progress(rest, [], PushInsert(built, s)), Progress([], [], PushInsert(PushInsert(built, s), t[k..])));
      }
    } else {
      var q := Progress([], [Retain(k - |t|), Insert(s)], [Insert(t)]);
      CutStep(n, t, k, s);
      ComposesOn(p, q);
      KeepStep(k - |t|, s, [Insert(t)]);
      ComposesOn(q, Progress([], [Insert(s)], [Insert(t), Retain(k - |t|)]));
      PutStep([], s, [Insert(t), Retain(k - |t|)]);
      ComposesOn(Progress([], [Insert(s)], [Insert(t), Retain(k - |t|)]), Progress([], [], Spliced(n, t, k, s)));
    }
  }

  lemma ComposesOn(p: Progress, q: Progress)
    requires p.Valid() && !p.Done() && ComposeStep(p) == q
    ensures ComposeRuns(p) == ComposeRuns(q)
    ensures q.Done() ==> ComposeRuns(p) == q.built
  {
    hide ComposeStep;
  }

  /** The insertion is read up to `k`, or to its end. */
  lemma CutStep(n: uint32, t: string, k: uint32, s: string)
    requires 0 < n <= |t| && k > 0 && s != "" && |t| + k + |s| <= UINT32_MAX
    ensures ComposeStep(Progress([Component(INSERT, n, t)], [Retain(k), Insert(s)], [])) ==
      if k <= |t| then
        Progress(if k < n then [Component(INSERT, n - k, t[k..])] else [], [Insert(s)], [Component(INSERT, k, t[..k])])
      else Progress([], [Retain(k - |t|), Insert(s)], [Insert(t)])
  {
    assert [Retain(k), Insert(s)][1..] == [Insert(s)];
    assert k >= |t| ==> t[..|t|] == t;
  }

  lemma PutStep(first: Ops, s: string, built: Ops)
    requires AllStored(first) && s != "" && |s| <= UINT32_MAX
    ensures ComposeStep(Progress(first, [Insert(s)], built)) == Progress(first, [], PushInsert(built, s))
  {
  }

  lemma RestStep(n: uint32, t: string, built: Ops)
    requires 0 < n <= |t| <= UINT32_MAX
    ensures ComposeStep(Progress([Component(INSERT, n, t)], [], built)) == Progress([], [], PushInsert(built, t))
  {
    assert t[..|t|] == t;
  }

  lemma KeepStep(k: uint32, s: string, built: Ops)
    requires k > 0 && s != "" && |s| <= UINT32_MAX
    ensures ComposeStep(Progress([], [Retain(k), Insert(s)], built)) == Progress([], [Insert(s)], PushRetain(built, k))
  {
    assert [Retain(k), Insert(s)][1..] == [Insert(s)];
  }

  // ---------- the history law ----------

  /** Lengths are 32-bit: what rebasing over both, or over their composition, adds up must fit. */
  predicate Roomy(client: Ops, s1: Ops, s2: Ops) {
    && AllStored(client)
    && Inserts(client) + Inserts(s1) + Inserts(s2) + Max(Base(client), Base(s1) + Base(s2)) <= UINT32_MAX
  }

  /** Rebasing over two operations in turn is, unit for unit, rebasing once over their composition. */
  ghost predicate RebasesAlike(client: Ops, s1: Ops, s2: Ops) {
    && AllStored(client) && AllStored(s1) && AllStored(s2)
    && var c1, s := TransformRuns(Progress(client, s1, [])), ComposeRuns(Progress(s1, s2, []));
    && AllStored(c1) && AllStored(s)
    && Expand(TransformRuns(Progress(c1, s2, []))) == Expand(TransformRuns(Progress(client, s, [])))
  }

  lemma {:induction false} InsertsAreInserted(ops: Ops)
    ensures Inserts(ops) == |Inserted(Expand(ops))|
  {
    if ops != [] {
      InsertsAreInserted(ops[1..]);
      if ops[0].kind == INSERT {
        InsertedPut(ops[0].text, Expand(ops[1..]));
      } else {
        InsertedRun(ops[0].kind, ops[0].length, Expand(ops[1..]));
      }
    }
  }

  lemma {:induction false} AppendParts(e: Edit, f: Edit)
    ensures BaseLength(Append(e, f)) == BaseLength(e) + BaseLength(f)
    ensures Inserted(Append(e, f)) == Inserted(e) + Inserted(f)
  {
    if !e.End? {
      AppendParts(e.rest, f);
    }
  }

  /** A builder that lays `c` at the end adds its base and its text. */
  lemma BuiltParts(ops: Ops, c: Component, r: Ops)
    requires Expand(r) == Append(Expand(ops), Lay(c, End))
    ensures Base(r) == Base(ops) + (if c.kind == INSERT then 0 else c.length)
    ensures Inserts(r) == Inserts(ops) + (if c.kind == INSERT then |c.text| else 0)
  {
    BaseIsBaseLength(r);
    BaseIsBaseLength(ops);
    InsertsAreInserted(r);
    InsertsAreInserted(ops);
    AppendParts(Expand(ops), Lay(c, End));
    BaseLengthPut(c.text, End);
    InsertedPut(c.text, End);
    if c.kind != INSERT {
      BaseLengthRun(c.kind, c.length, End);
      InsertedRun(c.kind, c.length, End);
    }
  }

  /** Reading takes what it reads off base and text, and nothing is added. */
  lemma AdvanceLess(ops: Ops, n: uint32)
    requires AllStored(ops) && n <= Front(ops).length
    ensures var rest := Advance(ops, n);
      if ops == [] then rest == []
      else if ops[0].kind == INSERT then Inserts(rest) <= Inserts(ops) - n && Base(rest) == Base(ops)
      else Inserts(rest) == Inserts(ops) && Base(rest) == Base(ops) - n
  {
    if ops != [] {
      assert ops[0].Stored();
      assert n < ops[0].length ==> Advance(ops, n)[1..] == ops[1..];
    }
  }

  function Bases(p: Progress): nat { Base(p.built) + Base(p.first) + Base(p.second) }
  function Texts(p: Progress): nat { Inserts(p.built) + Inserts(p.first) + Inserts(p.second) }

  lemma ComposeStepParts(p: Progress)
    requires p.Valid() && !p.Done() && Normal(p.built) && Bulk(p) <= UINT32_MAX
    ensures var q := ComposeStep(p); Bases(q) <= Bases(p) && Texts(q) <= Texts(p)
  {
    hide Normal, Inserts, Base, Expand, Advance, PushRetain, PushInsert, PushDelete;
    var a, b := Front(p.first), Front(p.second);
    RoomToCompose(p);
    if b.kind == INSERT {
      AdvanceLess(p.second, b.length);
      PushInsertMeaning(p.built, b.text);
      BuiltParts(p.built, b, PushInsert(p.built, b.text));
    } else if a.kind == DELETE {
      AdvanceLess(p.first, a.length);
      PushDeleteMeaning(p.built, a.length);
      BuiltParts(p.built, a, PushDelete(p.built, a.length));
    } else {
      var n := Min(a.length, b.length);
      AdvanceLess(p.first, n);
      AdvanceLess(p.second, n);
      if a.kind == INSERT {
        PushInsertMeaning(p.built, a.text[..n]);
        BuiltParts(p.built, Insert(a.text[..n]), PushInsert(p.built, a.text[..n]));
      } else {
        PushRetainMeaning(p.built, n);
        BuiltParts(p.built, Retain(n), PushRetain(p.built, n));
        PushDeleteMeaning(p.built, n);
        BuiltParts(p.built, Delete(n), PushDelete(p.built, n));
      }
    }
  }

  lemma RoomToCompose(p: Progress)
    requires p.Valid() && !p.Done() && Bulk(p) <= UINT32_MAX
    ensures Weight(p.built) + Min(Front(p.first).length, Front(p.second).length) <= UINT32_MAX
    ensures Front(p.first).kind == DELETE ==> Weight(p.built) + Front(p.first).length <= UINT32_MAX
    ensures Front(p.second).kind == INSERT ==> Weight(p.built) + |Front(p.second).text| <= UINT32_MAX
  {
  }

  lemma {:induction false} ComposeParts(p: Progress)
    requires p.Valid() && Normal(p.built) && Bulk(p) <= UINT32_MAX
    ensures var r := ComposeRuns(p); Base(r) <= Bases(p) && Inserts(r) <= Texts(p)
    decreases p.Left()
  {
    if !p.Done() {
      ComposeStepYield(p);
      ComposeStepParts(p);
      ComposeParts(ComposeStep(p));
    }
  }

  lemma Composed(s1: Ops, s2: Ops)
    requires AllStored(s1) && AllStored(s2) && Weight(s1) + Weight(s2) <= UINT32_MAX
    ensures var r := ComposeRuns(Progress(s1, s2, []));
      && AllStored(r) && Solid(r) && Base(r) <= Base(s1) + Base(s2) && Inserts(r) <= Inserts(s1) + Inserts(s2)
      && (Solid(s2) && Clean(s1, s2, 0) ==> Expand(r) == Edits.Compose(Expand(s1), Expand(s2)))
      && (!Clean(s1, s2, 0) ==> Growth(Expand(r)) < Growth(Expand(s1)) + Growth(Expand(s2)))
  {
    var p := Progress(s1, s2, []);
    ComposeLoop(p);
    ComposeParts(p);
    NormalIsSolid(ComposeRuns(p));
  }

  lemma Rebased1(client: Ops, server: Ops)
    requires AllStored(client) && AllStored(server) && Reach(Progress(client, server, [])) <= UINT32_MAX
    ensures var r := TransformRuns(Progress(client, server, []));
      && AllStored(r) && Inserts(r) == Inserts(client) && Base(r) <= Inserts(server) + Max(Base(client), Base(server))
      && (Solid(server) ==> Expand(r) == Edits.Transform(Expand(client), Expand(server)))
  {
    var p := Progress(client, server, []);
    TransformMeaning(client, server);
    TransformBuilds(p);
    LoopKeepsInserts(p);
    InsertsAreInserted(client);
    InsertsAreInserted(TransformRuns(p));
    Parts(TransformRuns(p));
  }

  lemma ReachFromStart(client: Ops, server: Ops)
    ensures Reach(Progress(client, server, []))
         == Inserts(client) + Inserts(server) + Max(Base(client), Base(server))
  {
  }

  /** Both ways of rebasing, by the unit rule. */
  lemma BothRebased(client: Ops, s1: Ops, s2: Ops)
    requires Roomy(client, s1, s2) && AllStored(s1) && AllStored(s2) && Weight(s1) + Weight(s2) <= UINT32_MAX
    requires Solid(s1) && Solid(s2)
    ensures var s := ComposeRuns(Progress(s1, s2, []));
      RebasesAlike(client, s1, s2) <==>
        Edits.Transform(Edits.Transform(Expand(client), Expand(s1)), Expand(s2))
          == Edits.Transform(Expand(client), Expand(s))
  {
    hide AllStored, Solid, Clean, TransformRuns, ComposeRuns, Expand, Weight, Inserts, Base, Reach;
    Composed(s1, s2);
    ReachFromStart(client, s1);
    Rebased1(client, s1);
    var c1, s := TransformRuns(Progress(client, s1, [])), ComposeRuns(Progress(s1, s2, []));
    ReachFromStart(c1, s2);
    Rebased1(c1, s2);
    ReachFromStart(client, s);
    Rebased1(client, s);
  }

  /** A client that keeps `k` units and then inserts one character. */
  function Marker(k: uint32): Ops { [Retain(k), Insert(['x'])] }

  function Mark(k: nat): Edit { KeepRun(k, Put('x', End)) }

  lemma MarkerParts(k: uint32)
    ensures AllStored(Marker(k)) && Inserts(Marker(k)) == 1 && Base(Marker(k)) == k
    ensures Expand(Marker(k)) == Mark(k)
  {
    var m, rest := Marker(k), [Insert(['x'])];
    assert m[1..] == rest && rest[1..] == [] && rest[0].kind == INSERT && rest[0].text == ['x'];
    assert Inserts(rest) == 1 && Base(rest) == 0;
    assert Expand(rest) == Lay(rest[0], End);
    PutRunOne('x', End);
  }

  lemma {:induction false} GrowthBounds(e: Edit)
    ensures Growth(e) + BaseLength(e) >= 0
  {
    if !e.End? {
      GrowthBounds(e.rest);
    }
  }

  /** Rebasing it over an edit that ends before it moves it by what the edit adds. */
  lemma {:induction false} MarkerMoves(k: nat, e: Edit)
    requires BaseLength(e) <= k
    ensures k + Growth(e) >= 0
    ensures Edits.Transform(Mark(k), e) == Mark(k + Growth(e))
    decreases k, e
  {
    GrowthBounds(e);
    if e.Put? {
      MarkerMoves(k, e.rest);
    } else if k > 0 {
      MarkerMoves(k - 1, if e.End? then End else e.rest);
    }
  }

  lemma {:induction false} MarkerPlace(k: nat)
    ensures BaseLength(Mark(k)) == k
  {
    if k > 0 {
      MarkerPlace(k - 1);
    }
  }

  /** If composing loses text, an insertion behind everything ends up in two places. */
  lemma MarkerDiffers(s1: Edit, s2: Edit, s: Edit, k: nat)
    requires k == BaseLength(s1) + BaseLength(s2) && BaseLength(s) <= k && Growth(s) < Growth(s1) + Growth(s2)
    ensures Edits.Transform(Edits.Transform(Mark(k), s1), s2)
         != Edits.Transform(Mark(k), s)
  {
    hide Mark, Growth, BaseLength, Edits.Transform;
    GrowthBounds(s1);
    var g1, g2, g := Growth(s1), Growth(s2), Growth(s);
    MarkerMoves(k, s1);
    MarkerMoves(k + g1, s2);
    MarkerMoves(k, s);
    if Mark(k + g1 + g2) == Mark(k + g) {
      MarkerPlace(k + g1 + g2);
      MarkerPlace(k + g);
      assert false;
    }
  }

  /** The history law on run-length operations: rebasing over two operations in turn is, for every
      client, rebasing once over their composition exactly if no boundary of the newer one is fragile. */
  lemma RebaseOverComposed(s1: Ops, s2: Ops)
    requires AllStored(s1) && AllStored(s2) && Weight(s1) + Weight(s2) < UINT32_MAX
    requires Solid(s1) && Solid(s2)
    ensures (forall client :: Roomy(client, s1, s2) ==> RebasesAlike(client, s1, s2)) <==> Clean(s1, s2, 0)
  {
    hide RebasesAlike, AllStored, Solid, Clean, TransformRuns, ComposeRuns, Expand, Weight, Inserts, Base;
    Composed(s1, s2);
    var s := ComposeRuns(Progress(s1, s2, []));
    if Clean(s1, s2, 0) {
      forall client | Roomy(client, s1, s2) ensures RebasesAlike(client, s1, s2) {
        BothRebased(client, s1, s2);
        RebaseOverComposition(Expand(client), Expand(s1), Expand(s2));
      }
    } else {
      Parts(s1);
      Parts(s2);
      BaseIsBaseLength(s1);
      BaseIsBaseLength(s2);
      BaseIsBaseLength(s);
      var k := Base(s1) + Base(s2);
      MarkerParts(k);
      BothRebased(Marker(k), s1, s2);
      MarkerDiffers(Expand(s1), Expand(s2), Expand(s), k);
      assert Roomy(Marker(k), s1, s2) && !RebasesAlike(Marker(k), s1, s2);
    }
  }

  lemma {:induction false} ApplyGrowth(e: Edit, t: string)
    requires BaseLength(e) <= |t|
    ensures |Apply(e, t)| == |t| + Growth(e)
  {
    match e
    case End =>
    case Put(_, r) => ApplyGrowth(r, t);
    case Keep(r) => ApplyGrowth(r, t[1..]);
    case Drop(r) => ApplyGrowth(r, t[1..]);
  }
}
