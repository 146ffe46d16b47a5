/**
 The run-length loops refine the unit rules.

 The builders lay what they are given at the end of what they have built, the cursors read runs off
 the front, and so an iteration of `transform` moves a run by the unit rule.  It does so for every
 client edit exactly when the server edit hides no insertion behind a run of length zero.
 */
module Refinement {
  import opened Edits
  import opened Operations
  import opened Transformation

  /** All lengths that a loop can still add up. */
  function Bulk(p: Progress): nat { Weight(p.first) + Weight(p.second) + Weight(p.built) }

  function Inserts(ops: Ops): nat {
    if ops == [] then 0 else (if ops[0].kind == INSERT then |ops[0].text| else 0) + Inserts(ops[1..])
  }

  function Base(ops: Ops): nat {
    if ops == [] then 0 else (if ops[0].kind == INSERT then 0 else ops[0].length) + Base(ops[1..])
  }

  function Max(x: nat, y: nat): nat { if x < y then y else x }

  /** How long what `transform` builds can get: both insertions, and the longer of the two bases. */
  function Reach(p: Progress): nat {
    Weight(p.built) + Inserts(p.first) + Inserts(p.second) + Max(Base(p.first), Base(p.second))
  }

  lemma {:induction false} Parts(ops: Ops)
    ensures Weight(ops) == Inserts(ops) + Base(ops)
  {
    if ops != [] {
      Parts(ops[1..]);
    }
  }

  lemma ReachInBulk(p: Progress)
    ensures Reach(p) <= Bulk(p)
  {
    Parts(p.first);
    Parts(p.second);
  }

  /** Reading a run or a whole insertion takes it off its part. */
  lemma AdvanceParts(ops: Ops, n: uint32)
    requires AllStored(ops) && n <= Front(ops).length && (Front(ops).kind == INSERT ==> n == Front(ops).length)
    ensures var rest := Advance(ops, n);
      if Front(ops).kind == INSERT then Inserts(rest) + |ops[0].text| == Inserts(ops) && Base(rest) == Base(ops)
      else Inserts(rest) == Inserts(ops) && Base(rest) == if ops == [] then 0 else Base(ops) - n
  {
    if ops != [] {
      assert ops[0].Stored();
      assert n < ops[0].length ==> Advance(ops, n)[1..] == ops[1..];
    }
  }

  // ---------- runs and concatenation ----------

  lemma {:induction false} AppendAssociative(e: Edit, f: Edit, g: Edit)
    ensures Append(Append(e, f), g) == Append(e, Append(f, g))
  {
    if !e.End? {
      AppendAssociative(e.rest, f, g);
    }
  }

  lemma {:induction false} AppendEnd(e: Edit)
    ensures Append(e, End) == e
  {
    if !e.End? {
      AppendEnd(e.rest);
    }
  }

  lemma {:induction false} GrowthAppend(e: Edit, f: Edit)
    ensures Growth(Append(e, f)) == Growth(e) + Growth(f)
  {
    if !e.End? {
      GrowthAppend(e.rest, f);
    }
  }

  lemma {:induction false} KeepRunAppend(n: nat, e: Edit, f: Edit)
    ensures Append(KeepRun(n, e), f) == KeepRun(n, Append(e, f))
  {
    if n > 0 {
      KeepRunAppend(n - 1, e, f);
    }
  }

  lemma {:induction false} DropRunAppend(n: nat, e: Edit, f: Edit)
    ensures Append(DropRun(n, e), f) == DropRun(n, Append(e, f))
  {
    if n > 0 {
      DropRunAppend(n - 1, e, f);
    }
  }

  lemma {:induction false} PutRunAppend(text: string, e: Edit, f: Edit)
    ensures Append(PutRun(text, e), f) == PutRun(text, Append(e, f))
  {
    if text != "" {
      PutRunAppend(text[1..], e, f);
    }
  }

  lemma LayAppend(c: Component, e: Edit, f: Edit)
    ensures Append(Lay(c, e), f) == Lay(c, Append(e, f))
  {
    match c.kind
    case RETAIN => KeepRunAppend(c.length, e, f);
    case INSERT => PutRunAppend(c.text, e, f);
    case DELETE => DropRunAppend(c.length, e, f);
  }

  lemma {:induction false} KeepRunSplit(n: nat, m: nat, e: Edit)
    ensures KeepRun(n + m, e) == KeepRun(n, KeepRun(m, e))
  {
    if n > 0 {
      KeepRunSplit(n - 1, m, e);
    }
  }

  lemma {:induction false} DropRunSplit(n: nat, m: nat, e: Edit)
    ensures DropRun(n + m, e) == DropRun(n, DropRun(m, e))
  {
    if n > 0 {
      DropRunSplit(n - 1, m, e);
    }
  }

  lemma {:induction false} PutRunSplit(s: string, t: string, e: Edit)
    ensures PutRun(s + t, e) == PutRun(s, PutRun(t, e))
  {
    if s == "" {
      assert s + t == t;
    } else {
      assert (s + t)[1..] == s[1..] + t;
      PutRunSplit(s[1..], t, e);
    }
  }

  lemma {:induction false} ExpandConcat(x: Ops, y: Ops)
    ensures Expand(x + y) == Append(Expand(x), Expand(y))
    ensures Weight(x + y) == Weight(x) + Weight(y)
  {
    if x == [] {
      assert x + y == y;
    } else {
      assert (x + y)[1..] == x[1..] + y;
      ExpandConcat(x[1..], y);
      LayAppend(x[0], Expand(x[1..]), Expand(y));
    }
  }

  // ---------- the builders ----------

  /** A builder that appends component `c`, or merges it into the last one as `merged`, lays `c` at
      the end of what it has built. */
  lemma Merged(ops: Ops, c: Component, merged: Component, r: Ops)
    requires Normal(ops) && ops != [] && r == ops[..|ops| - 1] + [merged]
    requires merged.Stored() && merged.length > 0 && merged.kind == ops[|ops| - 1].kind
    requires Lay(merged, End) == Lay(ops[|ops| - 1], Lay(c, End))
    requires merged.Span() == ops[|ops| - 1].Span() + c.Span()
    ensures Normal(r) && Weight(r) == Weight(ops) + c.Span()
    ensures Expand(r) == Append(Expand(ops), Lay(c, End))
  {
    var init, last := ops[..|ops| - 1], ops[|ops| - 1];
    assert ops == init + [last];
    ExpandConcat(init, [merged]);
    ExpandConcat(init, [last]);
    LayAppend(last, End, Lay(c, End));
    AppendAssociative(Expand(init), Expand([last]), Lay(c, End));
    NormalMerged(ops, merged);
  }

  lemma Appended(ops: Ops, c: Component, r: Ops)
    requires Normal(ops) && (ops == [] || ops[|ops| - 1].kind != c.kind) && r == ops + [c]
    requires c.Stored() && c.length > 0
    ensures Normal(r) && Weight(r) == Weight(ops) + c.Span()
    ensures Expand(r) == Append(Expand(ops), Lay(c, End))
  {
    ExpandConcat(ops, [c]);
    NormalAppended(ops, c);
  }

  lemma NormalMerged(ops: Ops, merged: Component)
    requires Normal(ops) && ops != []
    requires merged.Stored() && merged.length > 0 && merged.kind == ops[|ops| - 1].kind
    ensures Normal(ops[..|ops| - 1] + [merged])
  {
  }

  lemma NormalAppended(ops: Ops, c: Component)
    requires Normal(ops) && (ops == [] || ops[|ops| - 1].kind != c.kind)
    requires c.Stored() && c.length > 0
    ensures Normal(ops + [c])
  {
  }

  lemma PushRetainMeaning(ops: Ops, n: uint32)
    requires Normal(ops) && Weight(ops) + n <= UINT32_MAX
    ensures Normal(PushRetain(ops, n))
    ensures Expand(PushRetain(ops, n)) == Append(Expand(ops), KeepRun(n, End))
    ensures Weight(PushRetain(ops, n)) == Weight(ops) + n
  {
    if n == 0 {
      AppendEnd(Expand(ops));
    } else if ops != [] && ops[|ops| - 1].kind == RETAIN {
      var last := ops[|ops| - 1];
      WeightOfLast(ops);
      assert last.Stored() && last.length > 0;
      var merged := last.(length := Wrap32(last.length + n));
      KeepRunSplit(last.length, n, End);
      Merged(ops, Retain(n), merged, PushRetain(ops, n));
    } else {
      Appended(ops, Retain(n), PushRetain(ops, n));
    }
  }

  lemma PushDeleteMeaning(ops: Ops, n: uint32)
    requires Normal(ops) && Weight(ops) + n <= UINT32_MAX
    ensures Normal(PushDelete(ops, n))
    ensures Expand(PushDelete(ops, n)) == Append(Expand(ops), DropRun(n, End))
    ensures Weight(PushDelete(ops, n)) == Weight(ops) + n
  {
    if n == 0 {
      AppendEnd(Expand(ops));
    } else if ops != [] && ops[|ops| - 1].kind == DELETE {
      var last := ops[|ops| - 1];
      WeightOfLast(ops);
      assert last.Stored() && last.length > 0;
      var merged := last.(length := Wrap32(last.length + n));
      DropRunSplit(last.length, n, End);
      Merged(ops, Delete(n), merged, PushDelete(ops, n));
    } else {
      Appended(ops, Delete(n), PushDelete(ops, n));
    }
  }

  lemma PushInsertMeaning(ops: Ops, text: string)
    requires Normal(ops) && Weight(ops) + |text| <= UINT32_MAX
    ensures Normal(PushInsert(ops, text))
    ensures Expand(PushInsert(ops, text)) == Append(Expand(ops), PutRun(text, End))
    ensures Weight(PushInsert(ops, text)) == Weight(ops) + |text|
  {
    if text == "" {
      AppendEnd(Expand(ops));
    } else if ops != [] && ops[|ops| - 1].kind == INSERT {
      var last := ops[|ops| - 1];
      WeightOfLast(ops);
      assert last.Stored() && last.length > 0;
      var merged := last.(text := last.text + text);
      PutRunSplit(last.text, text, End);
      Merged(ops, Insert(text), merged, PushInsert(ops, text));
    } else {
      Appended(ops, Insert(text), PushInsert(ops, text));
    }
  }

  function Joined(texts: seq<string>): string {
    if texts == [] then "" else texts[0] + Joined(texts[1..])
  }

  /** `texts` pushed one after the other. */
  function PushInserts(ops: Ops, texts: seq<string>): Ops
    decreases |texts|
  {
    if texts == [] then ops else PushInserts(PushInsert(ops, texts[0]), texts[1..])
  }

  /** More text behind an insertion joins it, and its stored length stays what it was. */
  lemma {:induction false} InsertsJoin(ops: Ops, length: uint32, text: string, texts: seq<string>)
    ensures PushInserts(ops + [Component(INSERT, length, text)], texts)
         == ops + [Component(INSERT, length, text + Joined(texts))]
    decreases |texts|
  {
    var all := ops + [Component(INSERT, length, text)];
    if texts == [] {
      assert text + "" == text;
    } else if texts[0] == "" {
      InsertsJoin(ops, length, text, texts[1..]);
      assert texts[0] + Joined(texts[1..]) == Joined(texts[1..]);
    } else {
      assert all[..|all| - 1] == ops;
      InsertsJoin(ops, length, text + texts[0], texts[1..]);
      assert text + texts[0] + Joined(texts[1..]) == text + (texts[0] + Joined(texts[1..]));
    }
  }

  /** Texts pushed behind anything but an insertion become one insertion.  It has all of them, but the
      length of the first. */
  lemma InsertsBecomeOne(ops: Ops, texts: seq<string>)
    requires ops == [] || ops[|ops| - 1].kind != INSERT
    requires texts != [] && texts[0] != "" && |texts[0]| <= UINT32_MAX
    ensures PushInserts(ops, texts) == ops + [Component(INSERT, |texts[0]|, Joined(texts))]
  {
    InsertsJoin(ops, |texts[0]|, texts[0], texts[1..]);
  }

  lemma WeightOfLast(ops: Ops)
    requires ops != []
    ensures ops[|ops| - 1].Span() <= Weight(ops)
  {
  }

  // ---------- the cursor ----------

  function Run(kind: OpType, n: nat, e: Edit): Edit
    requires kind != INSERT
  {
    if kind == RETAIN then KeepRun(n, e) else DropRun(n, e)
  }

  /** `e` starts with `n` units of `kind` and goes on with `rest`; the end counts as endless retain. */
  ghost predicate Splits(e: Edit, kind: OpType, n: nat, rest: Edit) {
    kind != INSERT && (e == Run(kind, n, rest) || (kind == RETAIN && e == End && rest == End))
  }

  lemma AdvanceRun(ops: Ops, n: uint32)
    requires AllStored(ops) && Front(ops).kind != INSERT && n <= Front(ops).length
    ensures Splits(Expand(ops), Front(ops).kind, n, Expand(Advance(ops, n)))
    ensures ops != [] ==> Weight(Advance(ops, n)) == Weight(ops) - n
  {
    if ops != [] {
      var m := ops[0].length - n;
      KeepRunSplit(n, m, Expand(ops[1..]));
      DropRunSplit(n, m, Expand(ops[1..]));
      assert n < ops[0].length ==> Advance(ops, n)[1..] == ops[1..];
    }
  }

  /** Reading a prefix of an insertion leaves the rest of it, unless the stored length is passed. */
  lemma AdvanceInsert(ops: Ops, n: uint32)
    requires AllStored(ops) && Front(ops).kind == INSERT && n <= Front(ops).length
    ensures Weight(Advance(ops, n)) <= Weight(ops) - n
    ensures n < ops[0].length || n == |ops[0].text| ==>
              Expand(ops) == PutRun(ops[0].text[..n], Expand(Advance(ops, n)))
    ensures ops[0].length <= n ==> Growth(Expand(Advance(ops, n))) == Growth(Expand(ops)) - |ops[0].text|
  {
    var text := ops[0].text;
    assert text == text[..n] + text[n..];
    PutRunSplit(text[..n], text[n..], Expand(ops[1..]));
    GrowthPutRun(text, Expand(ops[1..]));
    if n < ops[0].length {
      assert Advance(ops, n)[1..] == ops[1..];
    }
  }

  lemma {:induction false} GrowthPutRun(text: string, e: Edit)
    ensures Growth(PutRun(text, e)) == Growth(e) + |text|
  {
    if text != "" {
      GrowthPutRun(text[1..], e);
    }
  }

  // ---------- transform ----------

  lemma {:induction false} TransformPut(client: Edit, text: string, server: Edit)
    ensures Edits.Transform(client, PutRun(text, server)) == KeepRun(|text|, Edits.Transform(client, server))
  {
    if text != "" {
      TransformPut(client, text[1..], server);
    }
  }

  lemma {:induction false} TransformClientPut(text: string, client: Edit, server: Edit)
    requires !server.Put?
    ensures Edits.Transform(PutRun(text, client), server) == PutRun(text, Edits.Transform(client, server))
  {
    if text != "" {
      TransformClientPut(text[1..], client, server);
    }
  }

  lemma {:induction false} TransformRun(c: Edit, ck: OpType, cr: Edit, s: Edit, sk: OpType, sr: Edit, n: nat)
    requires Splits(c, ck, n, cr) && Splits(s, sk, n, sr)
    requires n > 0 ==> !(c.End? && s.End?)
    ensures Edits.Transform(c, s) == if sk == DELETE then Edits.Transform(cr, sr) else Run(ck, n, Edits.Transform(cr, sr))
    decreases n
  {
    if n > 0 {
      var c1, s1 := if c.End? then End else c.rest, if s.End? then End else s.rest;
      assert c.End? || c1 == Run(ck, n - 1, cr);
      assert s.End? || s1 == Run(sk, n - 1, sr);
      TransformRun(c1, ck, cr, s1, sk, sr, n - 1);
    }
  }

  /** Skipping components of no extent, is an insertion the next thing in `ops`? */
  predicate InsertAhead(ops: Ops) {
    ops != [] && (if ops[0].Span() == 0 then InsertAhead(ops[1..]) else ops[0].kind == INSERT)
  }

  /** No retain or delete of length zero stands right before an insertion. */
  predicate Solid(ops: Ops) {
    ops != [] ==>
      && Solid(ops[1..])
      && (ops[0].kind != INSERT && ops[0].length == 0 ==> !InsertAhead(ops[1..]))
  }

  lemma {:induction false} InsertAheadIsPut(ops: Ops)
    ensures InsertAhead(ops) <==> Expand(ops).Put?
  {
    if ops != [] && ops[0].Span() == 0 {
      InsertAheadIsPut(ops[1..]);
    }
  }

  lemma SolidAdvance(ops: Ops, n: uint32)
    requires AllStored(ops) && Solid(ops)
    ensures Solid(Advance(ops, n))
  {
  }

  lemma {:induction false} NormalIsSolid(ops: Ops)
    requires Normal(ops)
    ensures Solid(ops)
  {
    if ops != [] {
      assert forall i :: 0 <= i < |ops[1..]| ==> ops[1..][i] == ops[i + 1];
      NormalIsSolid(ops[1..]);
    }
  }

  /** What laying `c` at the end of `built` leaves to lay after it. */
  lemma Laid(built: Ops, c: Component, after: Edit)
    ensures Append(Append(Expand(built), Lay(c, End)), after) == Append(Expand(built), Lay(c, after))
  {
    AppendAssociative(Expand(built), Lay(c, End), after);
    LayAppend(c, End, after);
  }

  /** What is to be built after `p`, by the unit rule. */
  function Rebased(p: Progress): Edit {
    Append(Expand(p.built), Edits.Transform(Expand(p.first), Expand(p.second)))
  }

  /** One iteration of `transform` moves a run from what is left to read to what is built. */
  lemma TransformStepMeaning(p: Progress)
    requires p.Valid() && !p.Done() && Normal(p.built) && Reach(p) <= UINT32_MAX
    ensures var q := TransformStep(p);
      && Normal(q.built) && Reach(q) <= Reach(p)
      && ((Front(p.first).kind == INSERT && Front(p.second).kind != INSERT ==> !InsertAhead(p.second)) ==>
            Rebased(q) == Rebased(p))
  {
    var a, b := Front(p.first), Front(p.second);
    var q := TransformStep(p);
    var after := Edits.Transform(Expand(q.first), Expand(q.second));
    if b.kind == INSERT {
      AdvanceParts(p.second, b.length);
      AdvanceInsert(p.second, b.length);
      TransformPut(Expand(p.first), b.text, Expand(q.second));
      PushRetainMeaning(p.built, b.length);
      Laid(p.built, Retain(b.length), after);
    } else if a.kind == INSERT {
      AdvanceParts(p.first, a.length);
      AdvanceInsert(p.first, a.length);
      InsertAheadIsPut(p.second);
      if !InsertAhead(p.second) {
        TransformClientPut(a.text, Expand(q.first), Expand(p.second));
      }
      PushInsertMeaning(p.built, a.text);
      Laid(p.built, Insert(a.text), after);
    } else {
      TransformRunMeaning(p);
    }
  }

  lemma TransformRunMeaning(p: Progress)
    requires p.Valid() && !p.Done() && Normal(p.built) && Reach(p) <= UINT32_MAX
    requires Front(p.first).kind != INSERT && Front(p.second).kind != INSERT
    ensures var q := TransformStep(p); Normal(q.built) && Reach(q) <= Reach(p) && Rebased(q) == Rebased(p)
  {
    hide Normal, Inserts, Base, Weight, Expand, PushRetain, PushDelete, Advance;
    var a, b := Front(p.first), Front(p.second);
    var q := TransformStep(p);
    var after := Edits.Transform(Expand(q.first), Expand(q.second));
    var n := Min(a.length, b.length);
    AdvanceParts(p.first, n);
    AdvanceParts(p.second, n);
    AdvanceRun(p.first, n);
    AdvanceRun(p.second, n);
    NotBothAtEnd(p);
    RoomForRun(p, n);
    TransformRun(Expand(p.first), a.kind, Expand(q.first), Expand(p.second), b.kind, Expand(q.second), n);
    if b.kind == RETAIN {
      if a.kind == RETAIN {
        PushRetainMeaning(p.built, n);
        Laid(p.built, Retain(n), after);
      } else {
        PushDeleteMeaning(p.built, n);
        Laid(p.built, Delete(n), after);
      }
    }
  }

  /** A run that both sides can read is not the end of both. */
  lemma NotBothAtEnd(p: Progress)
    requires p.Valid() && !p.Done() && Front(p.first).kind != INSERT && Front(p.second).kind != INSERT
    ensures Min(Front(p.first).length, Front(p.second).length) > 0 ==> !(Expand(p.first).End? && Expand(p.second).End?)
  {
  }

  lemma RoomForRun(p: Progress, n: uint32)
    requires p.Valid() && !p.Done() && Front(p.first).kind != INSERT && Front(p.second).kind != INSERT
    requires n == Min(Front(p.first).length, Front(p.second).length)
    ensures n <= Max(Base(p.first), Base(p.second))
    ensures (p.first != [] ==> n <= Base(p.first)) && (p.second != [] ==> n <= Base(p.second))
  {
  }

  lemma {:induction false} TransformRefines(p: Progress)
    requires p.Valid() && Normal(p.built) && Reach(p) <= UINT32_MAX
    ensures Normal(TransformRuns(p)) && Weight(TransformRuns(p)) <= Reach(p)
    ensures Solid(p.second) ==>
              Expand(TransformRuns(p)) == Append(Expand(p.built), Edits.Transform(Expand(p.first), Expand(p.second)))
    decreases p.Left()
  {
    if p.Done() {
      AppendEnd(Expand(p.built));
    } else {
      TransformStepMeaning(p);
      var q := TransformStep(p);
      var n := if Front(p.second).kind == INSERT then Front(p.second).length
               else Min(Front(p.first).length, Front(p.second).length);
      if Solid(p.second) {
        SolidAdvance(p.second, n);
      }
      TransformRefines(q);
    }
  }

  /** The loop of `transform` does what the unit rule says; its result is in normal form. */
  lemma TransformMeaning(client: Ops, server: Ops)
    requires AllStored(client) && AllStored(server) && Reach(Progress(client, server, [])) <= UINT32_MAX
    ensures var r := TransformRuns(Progress(client, server, []));
      && (Solid(server) ==> Expand(r) == Edits.Transform(Expand(client), Expand(server)))
      && Normal(r) && Weight(r) <= Reach(Progress(client, server, []))
  {
    TransformRefines(Progress(client, server, []));
  }

  // ---------- servers whose insertions hide behind an empty run ----------

  lemma {:induction false} AppendCancels(e: Edit, f: Edit, g: Edit)
    requires Append(e, f) == Append(e, g)
    ensures f == g
  {
    if !e.End? {
      AppendCancels(e.rest, f, g);
    }
  }

  /** Whatever happens, `transform` only adds to what it has built. */
  lemma {:induction false} TransformExtends(p: Progress) returns (added: Edit)
    requires p.Valid() && Normal(p.built) && Reach(p) <= UINT32_MAX
    requires p.first == []
    ensures Expand(TransformRuns(p)) == Append(Expand(p.built), added)
    decreases p.Left()
  {
    if p.Done() {
      AppendEnd(Expand(p.built));
      return End;
    }
    TransformStepMeaning(p);
    var later := TransformExtends(TransformStep(p));
    var b := Front(p.second);
    var c := if b.kind == DELETE then Retain(0) else Retain(b.length);
    PushRetainMeaning(p.built, c.length);
    Laid(p.built, c, later);
    added := Lay(c, later);
  }

  lemma PutRunOne(c: char, e: Edit)
    ensures PutRun([c], e) == Put(c, e)
  {
  }

  /** A client edit that inserts exactly where `server` hides an insertion behind an empty run. */
  function Probe(server: Ops): Ops {
    if server == [] then []
    else if server[0].kind == INSERT then Probe(server[1..])
    else if server[0].length > 0 then [Retain(server[0].length)] + Probe(server[1..])
    else if InsertAhead(server[1..]) then [Insert(['x'])]
    else Probe(server[1..])
  }

  lemma {:induction false} ProbeStored(server: Ops)
    ensures AllStored(Probe(server)) && Inserts(Probe(server)) <= 1 && Base(Probe(server)) <= Base(server)
  {
    if server != [] {
      ProbeStored(server[1..]);
      if server[0].kind != INSERT && server[0].length > 0 {
        assert Probe(server)[1..] == Probe(server[1..]);
      }
    }
  }

  lemma {:induction false} ProbeStartsWithRetain(server: Ops)
    requires AllStored(server) && !Solid(server) && !InsertAhead(server)
    ensures var c := Probe(server); c != [] && c[0].kind == RETAIN && c[0].length > 0
  {
    if server[0].Span() == 0 {
      ProbeStartsWithRetain(server[1..]);
    }
  }

  lemma {:induction false} ProbeFails(server: Ops, built: Ops)
    requires AllStored(server) && !Solid(server)
    requires Normal(built) && Reach(Progress(Probe(server), server, built)) <= UINT32_MAX
    ensures AllStored(Probe(server))
    ensures Expand(TransformRuns(Progress(Probe(server), server, built)))
         != Append(Expand(built), Edits.Transform(Expand(Probe(server)), Expand(server)))
    decreases |server|
  {
    ProbeStored(server);
    var client, s := Probe(server), server[0];
    var p := Progress(client, server, built);
    if s.kind != INSERT && s.length == 0 && InsertAhead(server[1..]) {
      PushInsertMeaning(built, ['x']);
      var added := TransformExtends(TransformStep(p));
      Laid(built, Insert(['x']), added);
      PutRunOne('x', added);
      InsertAheadIsPut(server);
      if Expand(TransformRuns(p)) == Append(Expand(built), Edits.Transform(Expand(client), Expand(server))) {
        AppendCancels(Expand(built), Put('x', added), Edits.Transform(Expand(client), Expand(server)));
        assert false;
      }
    } else {
      ProbeStored(server[1..]);
      if s.kind != INSERT && s.length == 0 {
        ProbeStartsWithRetain(server[1..]);
        assert [Residual(client[0], 0)] + client[1..] == client;
      } else if s.kind != INSERT {
        assert client[1..] == Probe(server[1..]);
      }
      TransformStepMeaning(p);
      var q := TransformStep(p);
      assert q.first == Probe(server[1..]) && q.second == server[1..];
      ProbeFails(server[1..], q.built);
    }
  }

  /** `transform` follows the unit rule for every client edit exactly when the server edit hides no
      insertion behind an empty run. */
  lemma SolidExactly(server: Ops)
    requires AllStored(server) && Weight(server) < UINT32_MAX
    ensures Solid(server) <==>
            forall client :: AllStored(client) && Reach(Progress(client, server, [])) <= UINT32_MAX ==>
              Expand(TransformRuns(Progress(client, server, []))) == Edits.Transform(Expand(client), Expand(server))
  {
    if Solid(server) {
      forall client | AllStored(client) && Reach(Progress(client, server, [])) <= UINT32_MAX
        ensures Expand(TransformRuns(Progress(client, server, []))) == Edits.Transform(Expand(client), Expand(server))
      {
        TransformMeaning(client, server);
      }
    } else {
      ProbeStored(server);
      Parts(server);
      ProbeFails(server, []);
    }
  }
}
