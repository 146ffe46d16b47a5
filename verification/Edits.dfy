/**
 The meaning of an edit, one text unit at a time.

 An `Edit` is what a run-length operation says when it is read unit by unit: keep a character, put
 a new one in, or drop one.  `End` stands for "keep whatever is left", the retain that every
 operation leaves implicit.  `Transform` and `Compose` are the rules of the operational
 transformation engine on this simple form; everything the engine is for is proved here.
 */
module Edits {

  datatype Edit =
    | End
    | Keep(rest: Edit)
    | Put(c: char, rest: Edit)
    | Drop(rest: Edit)

  /** How many characters of the edited text the edit mentions. */
  function BaseLength(e: Edit): nat {
    match e
    case End => 0
    case Keep(r) => 1 + BaseLength(r)
    case Put(_, r) => BaseLength(r)
    case Drop(r) => 1 + BaseLength(r)
  }

  /** By how much the edit makes a text longer. */
  function Growth(e: Edit): int {
    match e
    case End => 0
    case Keep(r) => Growth(r)
    case Put(_, r) => 1 + Growth(r)
    case Drop(r) => Growth(r) - 1
  }

  /** The text after the edit. */
  function Apply(e: Edit, t: string): string
    requires BaseLength(e) <= |t|
  {
    match e
    case End => t
    case Keep(r) => [t[0]] + Apply(r, t[1..])
    case Put(c, r) => [c] + Apply(r, t)
    case Drop(r) => Apply(r, t[1..])
  }

  /** `client` rebased over `server`; a server insertion goes first at a tie. */
  function Transform(client: Edit, server: Edit): Edit {
    if server.Put? then Keep(Transform(client, server.rest))
    else match client
      case Put(c, r) => Put(c, Transform(r, server))
      case End =>
        (match server
         case Keep(s) => Keep(Transform(End, s))
         case Drop(s) => Transform(End, s)
         case _ => End)
      case Keep(r) =>
        (match server
         case Keep(s) => Keep(Transform(r, s))
         case Drop(s) => Transform(r, s)
         case _ => Keep(Transform(r, End)))
      case Drop(r) =>
        (match server
         case Keep(s) => Drop(Transform(r, s))
         case Drop(s) => Transform(r, s)
         case _ => Drop(Transform(r, End)))
  }

  /** What a client does with a server edit it learns of after its own: the mirror image of
      `Transform`, with the same winner at a tie. */
  function Carry(server: Edit, client: Edit): Edit
    decreases client, server
  {
    if server.Put? then Put(server.c, Carry(server.rest, client))
    else match client
      case Put(_, r) => Keep(Carry(server, r))
      case End => server
      case Keep(r) =>
        (match server
         case Keep(s) => Keep(Carry(s, r))
         case Drop(s) => Drop(Carry(s, r))
         case _ => Keep(Carry(End, r)))
      case Drop(r) =>
        (match server
         case Keep(s) => Carry(s, r)
         case Drop(s) => Carry(s, r)
         case _ => Carry(End, r))
  }

  /** One edit that does what `first` and then `second` do. */
  function Compose(first: Edit, second: Edit): Edit
    decreases first, second
  {
    if second.Put? then Put(second.c, Compose(first, second.rest))
    else match first
      case Drop(r) => Drop(Compose(r, second))
      case End => second
      case Keep(r) =>
        (match second
         case Keep(s) => Keep(Compose(r, s))
         case Drop(s) => Drop(Compose(r, s))
         case _ => Keep(Compose(r, End)))
      case Put(c, r) =>
        (match second
         case Keep(s) => Put(c, Compose(r, s))
         case Drop(s) => Compose(r, s)
         case _ => Put(c, Compose(r, End)))
  }

  // ---------- composition ----------

  lemma {:induction false} ComposeAfterEnd(e: Edit)
    ensures Compose(End, e) == e
  {
    if e.Put? {
      ComposeAfterEnd(e.rest);
    }
  }

  /** Composing preserves meaning: one pass of the composition is two passes of its parts. */
  lemma {:induction false} ComposeMeaning(a: Edit, b: Edit, t: string)
    requires BaseLength(a) <= |t|
    requires BaseLength(b) <= |Apply(a, t)|
    ensures BaseLength(Compose(a, b)) <= |t|
    ensures Apply(Compose(a, b), t) == Apply(b, Apply(a, t))
    decreases a, b
  {
    if b.Put? {
      ComposeMeaning(a, b.rest, t);
    } else {
      match a
      case End =>
      case Drop(r) => ComposeMeaning(r, b, t[1..]);
      case Keep(r) =>
        assert Apply(a, t)[1..] == Apply(r, t[1..]);
        ComposeMeaning(r, if b.End? then End else b.rest, t[1..]);
      case Put(c, r) =>
        assert Apply(a, t)[1..] == Apply(r, t);
        ComposeMeaning(r, if b.End? then End else b.rest, t);
    }
  }

  lemma {:induction false} ComposeAssociative(a: Edit, b: Edit, c: Edit)
    ensures Compose(Compose(a, b), c) == Compose(a, Compose(b, c))
    decreases a, b, c
  {
    if c.Put? {
      ComposeAssociative(a, b, c.rest);
    } else if b.Put? {
      ComposeAssociative(a, b.rest, if c.End? then End else c.rest);
    } else if a.Drop? {
      ComposeAssociative(a.rest, b, c);
    } else if a.End? {
    } else if b.Drop? {
      ComposeAssociative(a.rest, b.rest, c);
    } else {
      var br, cr := if b.End? then End else b.rest, if c.End? then End else c.rest;
      ComposeAssociative(a.rest, br, cr);
      ComposeAfterEnd(cr);
    }
  }

  // ---------- transformation ----------

  lemma {:induction false} CarryOverEnd(server: Edit)
    ensures Carry(server, End) == server
  {
    if server.Put? {
      CarryOverEnd(server.rest);
    }
  }

  /** Convergence: the server's order and the client's order of the same two edits give one text. */
  lemma {:induction false} Converge(client: Edit, server: Edit, t: string)
    requires BaseLength(client) <= |t| && BaseLength(server) <= |t|
    ensures BaseLength(Transform(client, server)) <= |Apply(server, t)|
    ensures BaseLength(Carry(server, client)) <= |Apply(client, t)|
    ensures Apply(Transform(client, server), Apply(server, t)) == Apply(Carry(server, client), Apply(client, t))
    decreases client, server
  {
    if server.Put? {
      Converge(client, server.rest, t);
      assert Apply(server, t)[1..] == Apply(server.rest, t);
    } else if client.Put? {
      Converge(client.rest, server, t);
      assert Apply(client, t)[1..] == Apply(client.rest, t);
    } else if client.End? && server.End? {
    } else {
      var c, s := if client.End? then End else client.rest, if server.End? then End else server.rest;
      Converge(c, s, t[1..]);
      CarryOverEnd(s);
      assert server.Keep? ==> Apply(server, t)[1..] == Apply(server.rest, t[1..]);
      assert client.Keep? ==> Apply(client, t)[1..] == Apply(client.rest, t[1..]);
    }
  }

  /** Rebasing over two edits in turn is rebasing once over their composition. */
  lemma {:induction false} RebaseOverComposition(client: Edit, s1: Edit, s2: Edit)
    ensures Transform(Transform(client, s1), s2) == Transform(client, Compose(s1, s2))
    decreases client, s1, s2
  {
    var cr := if client.End? then End else client.rest;
    if s2.Put? {
      RebaseOverComposition(client, s1, s2.rest);
    } else if s1.Put? {
      RebaseOverComposition(client, s1.rest, if s2.End? then End else s2.rest);
    } else if client.Put? {
      RebaseOverComposition(cr, s1, s2);
    } else if s1.Drop? {
      RebaseOverComposition(cr, s1.rest, s2);
    } else if !(client.End? && s1.End? && s2.End?) {
      var s1r, s2r := if s1.End? then End else s1.rest, if s2.End? then End else s2.rest;
      RebaseOverComposition(cr, s1r, s2r);
      ComposeAfterEnd(s2r);
    }
  }

  lemma {:induction false} TransformOverEnd(client: Edit)
    ensures Transform(client, End) == client
  {
    if !client.End? {
      TransformOverEnd(client.rest);
    }
  }

  // ---------- what rebasing keeps of the client's intention ----------

  /** The characters an edit puts in, in order. */
  function Inserted(e: Edit): string {
    match e
    case End => ""
    case Put(c, r) => [c] + Inserted(r)
    case Keep(r) => Inserted(r)
    case Drop(r) => Inserted(r)
  }

  /** The characters of `t` an edit takes out, in order. */
  function Removed(e: Edit, t: string): string
    requires BaseLength(e) <= |t|
  {
    match e
    case End => ""
    case Put(_, r) => Removed(r, t)
    case Keep(r) => Removed(r, t[1..])
    case Drop(r) => [t[0]] + Removed(r, t[1..])
  }

  /** Does the edit drop the character at position `i` of its base text? */
  predicate DropsAt(e: Edit, i: nat) {
    match e
    case End => false
    case Put(_, r) => DropsAt(r, i)
    case Keep(r) => i > 0 && DropsAt(r, i - 1)
    case Drop(r) => i == 0 || DropsAt(r, i - 1)
  }

  /** The characters of `t` from position `from` on that `client` drops and `server` does not. */
  function DroppedOnlyBy(client: Edit, server: Edit, t: string, from: nat): string
    decreases |t| - from
  {
    if from >= |t| then ""
    else (if DropsAt(client, from) && !DropsAt(server, from) then [t[from]] else "")
         + DroppedOnlyBy(client, server, t, from + 1)
  }

  lemma {:induction false} TransformKeepsInserts(client: Edit, server: Edit)
    ensures Inserted(Transform(client, server)) == Inserted(client)
    decreases client, server
  {
    if server.Put? {
      TransformKeepsInserts(client, server.rest);
    } else if client.Put? {
      TransformKeepsInserts(client.rest, server);
    } else if !(client.End? && server.End?) {
      TransformKeepsInserts(if client.End? then End else client.rest, if server.End? then End else server.rest);
    }
  }

  /** `e` without its insertions at the front and without the first character it keeps or drops. */
  function AfterFirst(e: Edit): Edit {
    match e
    case End => End
    case Put(_, r) => AfterFirst(r)
    case Keep(r) => r
    case Drop(r) => r
  }

  lemma {:induction false} DropsAtAfterFirst(e: Edit, i: nat)
    ensures DropsAt(e, i + 1) == DropsAt(AfterFirst(e), i)
  {
    if e.Put? {
      DropsAtAfterFirst(e.rest, i);
    }
  }

  lemma {:induction false} DroppedOnlyByShift(client: Edit, server: Edit, t: string, from: nat)
    requires t != ""
    ensures DroppedOnlyBy(client, server, t, from + 1)
         == DroppedOnlyBy(AfterFirst(client), AfterFirst(server), t[1..], from)
    decreases |t| - from
  {
    if from + 1 < |t| {
      DropsAtAfterFirst(client, from);
      DropsAtAfterFirst(server, from);
      DroppedOnlyByShift(client, server, t, from + 1);
    }
  }

  lemma {:induction false} DroppedOnlyByCong(c: Edit, s: Edit, c': Edit, s': Edit, t: string, from: nat)
    requires forall i: nat :: DropsAt(c, i) == DropsAt(c', i)
    requires forall i: nat :: DropsAt(s, i) == DropsAt(s', i)
    ensures DroppedOnlyBy(c, s, t, from) == DroppedOnlyBy(c', s', t, from)
    decreases |t| - from
  {
    if from < |t| {
      DroppedOnlyByCong(c, s, c', s', t, from + 1);
    }
  }

  lemma {:induction false} DroppedByNobody(t: string, from: nat)
    ensures DroppedOnlyBy(End, End, t, from) == ""
    decreases |t| - from
  {
    if from < |t| {
      DroppedByNobody(t, from + 1);
    }
  }

  /** The rebased edit removes exactly what the client wanted removed and the server had left. */
  lemma {:induction false} TransformRemoves(client: Edit, server: Edit, t: string)
    requires BaseLength(client) <= |t| && BaseLength(server) <= |t|
    ensures BaseLength(Transform(client, server)) <= |Apply(server, t)|
    ensures Removed(Transform(client, server), Apply(server, t)) == DroppedOnlyBy(client, server, t, 0)
    decreases client, server
  {
    Converge(client, server, t);
    if server.Put? {
      TransformRemoves(client, server.rest, t);
      assert Apply(server, t)[1..] == Apply(server.rest, t);
      DroppedOnlyByCong(client, server, client, server.rest, t, 0);
    } else if client.Put? {
      TransformRemoves(client.rest, server, t);
      DroppedOnlyByCong(client, server, client.rest, server, t, 0);
    } else if client.End? && server.End? {
      DroppedByNobody(t, 0);
    } else {
      TransformRemoves(AfterFirst(client), AfterFirst(server), t[1..]);
      DroppedOnlyByShift(client, server, t, 0);
      assert server.Keep? ==> Apply(server, t)[1..] == Apply(server.rest, t[1..]);
    }
  }

  // ---------- whole histories ----------

  /** Every edit of the history is in range for the text it is applied to. */
  predicate Replayable(es: seq<Edit>, t: string) {
    es == [] || (BaseLength(es[0]) <= |t| && Replayable(es[1..], Apply(es[0], t)))
  }

  function ApplyAll(es: seq<Edit>, t: string): string
    requires Replayable(es, t)
  {
    if es == [] then t else ApplyAll(es[1..], Apply(es[0], t))
  }

  /** `client` rebased over each edit of the history in turn. */
  function RebaseAll(client: Edit, es: seq<Edit>): Edit
    decreases |es|
  {
    if es == [] then client else RebaseAll(Transform(client, es[0]), es[1..])
  }

  /** The history as the author of `client` has to apply it on top of its own edit. */
  function CarryAll(es: seq<Edit>, client: Edit): seq<Edit>
    decreases |es|
  {
    if es == [] then [] else [Carry(es[0], client)] + CarryAll(es[1..], Transform(client, es[0]))
  }

  function ComposeAll(es: seq<Edit>): Edit {
    if es == [] then End else Compose(es[0], ComposeAll(es[1..]))
  }

  /** A client that edited an old version and a server that has moved on end up with one text. */
  lemma {:induction false} ConvergeOverHistory(client: Edit, es: seq<Edit>, t: string)
    requires BaseLength(client) <= |t| && Replayable(es, t)
    ensures BaseLength(RebaseAll(client, es)) <= |ApplyAll(es, t)|
    ensures Replayable(CarryAll(es, client), Apply(client, t))
    ensures ApplyAll(CarryAll(es, client), Apply(client, t)) == Apply(RebaseAll(client, es), ApplyAll(es, t))
    decreases |es|
  {
    if es != [] {
      Converge(client, es[0], t);
      ConvergeOverHistory(Transform(client, es[0]), es[1..], Apply(es[0], t));
      var carried := CarryAll(es, client);
      assert carried[1..] == CarryAll(es[1..], Transform(client, es[0]));
    }
  }

  lemma {:induction false} RebaseAllIsOneTransform(client: Edit, es: seq<Edit>)
    ensures RebaseAll(client, es) == Transform(client, ComposeAll(es))
    decreases |es|
  {
    if es == [] {
      TransformOverEnd(client);
    } else {
      RebaseAllIsOneTransform(Transform(client, es[0]), es[1..]);
      RebaseOverComposition(client, es[0], ComposeAll(es[1..]));
    }
  }

  lemma {:induction false} ApplyAllIsOneApply(es: seq<Edit>, t: string)
    requires Replayable(es, t)
    ensures BaseLength(ComposeAll(es)) <= |t|
    ensures ApplyAll(es, t) == Apply(ComposeAll(es), t)
    decreases |es|
  {
    if es != [] {
      ApplyAllIsOneApply(es[1..], Apply(es[0], t));
      ComposeMeaning(es[0], ComposeAll(es[1..]), t);
    }
  }

  /** Replaying a history in two parts is replaying it whole. */
  lemma {:induction false} ReplayInParts(first: seq<Edit>, second: seq<Edit>, t: string)
    ensures Replayable(first + second, t) <==> Replayable(first, t) && Replayable(second, ApplyAll(first, t))
    ensures Replayable(first + second, t) ==> ApplyAll(first + second, t) == ApplyAll(second, ApplyAll(first, t))
    decreases |first|
  {
    if first == [] {
      assert first + second == second;
    } else {
      assert (first + second)[1..] == first[1..] + second;
      if BaseLength(first[0]) <= |t| {
        ReplayInParts(first[1..], second, Apply(first[0], t));
      }
    }
  }
}
