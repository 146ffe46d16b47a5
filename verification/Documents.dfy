/**
 The versioned document (src/services/document/document.h, document.cc): client edits are rebased
 over a bounded history and folded into the stored text.
 */
module Documents {
  import opened Edits
  import opened Operations
  import opened Transformation
  import opened Refinement
  import opened Convergence
  import opened Composition

  const HISTORY_CAPACITY := 50

  function ExpandAll(log: seq<Ops>): seq<Edit> {
    seq(|log|, i requires 0 <= i < |log| => Expand(log[i]))
  }

  function TotalWeight(log: seq<Ops>): nat {
    if log == [] then 0 else Weight(log[0]) + TotalWeight(log[1..])
  }

  predicate LogStored(log: seq<Ops>) { forall i :: 0 <= i < |log| ==> AllStored(log[i]) }

  predicate AllSolid(log: seq<Ops>) { forall i :: 0 <= i < |log| ==> Solid(log[i]) }

  /** The text after all edits of `log` on the empty document. */
  function TextAfter(log: seq<Ops>): string
    requires Replayable(ExpandAll(log), "")
  {
    ApplyAll(ExpandAll(log), "")
  }

  /** `content` is `text` and nothing else. */
  predicate Holds(content: Ops, text: string) {
    && Normal(content)
    && BaseLength(Expand(content)) == 0
    && Apply(Expand(content), "") == text
  }

  lemma {:induction false} BaseLengthLay(c: Component, e: Edit)
    ensures BaseLength(Lay(c, e)) == BaseLength(e) + if c.kind == INSERT then 0 else c.length
    decreases c.Span()
  {
    if c.Span() > 0 {
      match c.kind
      case RETAIN => BaseLengthLay(c.(length := c.length - 1), e);
      case DELETE => BaseLengthLay(c.(length := c.length - 1), e);
      case INSERT => BaseLengthLay(c.(text := c.text[1..]), e);
    }
  }

  /** A stored text is at most one insertion, and that insertion carries the text. */
  lemma HoldsIsOneInsert(content: Ops, text: string)
    requires Holds(content, text)
    ensures if text == "" then content == [] else |content| == 1 && content[0].kind == INSERT && content[0].text == text
  {
    if content != [] {
      BaseLengthLay(content[0], Expand(content[1..]));
      if |content| > 1 {
        BaseLengthLay(content[1], Expand(content[1..][1..]));
      }
      ApplyPut(content[0].text, End, "");
    }
  }

  // ---------- rebasing over a history ----------

  predicate CanRebase(client: Ops, edits: seq<Ops>) {
    AllStored(client) && LogStored(edits) && Weight(client) + TotalWeight(edits) <= UINT32_MAX
  }

  /** What is rebased over the first of `edits` can be rebased over the others. */
  lemma CanGoOn(client: Ops, edits: seq<Ops>, r: Ops)
    requires CanRebase(client, edits) && edits != [] && Normal(r) && Weight(r) <= Weight(client) + Weight(edits[0])
    ensures CanRebase(r, edits[1..])
  {
  }

  lemma ReachBound(client: Ops, server: Ops)
    ensures Reach(Progress(client, server, [])) <= Weight(client) + Weight(server)
  {
    ReachInBulk(Progress(client, server, []));
  }

  /** `client` rebased over each of `edits` in turn. */
  function RebaseRuns(client: Ops, edits: seq<Ops>): (r: Ops)
    requires CanRebase(client, edits)
    ensures AllStored(r) && Weight(r) <= Weight(client) + TotalWeight(edits)
    ensures if edits == [] then r == client else Normal(r)
    decreases |edits|
  {
    if edits == [] then client
    else
      var p := Progress(client, edits[0], []);
      ReachBound(client, edits[0]);
      TransformMeaning(client, edits[0]);
      CanGoOn(client, edits, TransformRuns(p));
      RebaseRuns(TransformRuns(p), edits[1..])
  }

  /** The edits as the author of `client` has to apply them on top of its own. */
  function CarryRuns(edits: seq<Ops>, client: Ops): seq<Edit>
    requires CanRebase(client, edits)
    decreases |edits|
  {
    if edits == [] then []
    else
      var p := Progress(client, edits[0], []);
      ReachBound(client, edits[0]);
      TransformMeaning(client, edits[0]);
      CanGoOn(client, edits, TransformRuns(p));
      [ToCarry(p)] + CarryRuns(edits[1..], TransformRuns(p))
  }

  /** An author and a server that has moved on end up with one text, whatever the edits are. */
  lemma {:induction false} RebaseConverges(client: Ops, edits: seq<Ops>, t: string)
    requires CanRebase(client, edits)
    requires BaseLength(Expand(client)) <= |t| && Replayable(ExpandAll(edits), t)
    ensures var rebased, carried := Expand(RebaseRuns(client, edits)), CarryRuns(edits, client);
      && BaseLength(rebased) <= |ApplyAll(ExpandAll(edits), t)|
      && Replayable(carried, Apply(Expand(client), t))
      && ApplyAll(carried, Apply(Expand(client), t)) == Apply(rebased, ApplyAll(ExpandAll(edits), t))
      && Inserted(rebased) == Inserted(Expand(client))
    decreases |edits|
  {
    hide Expand, TransformRuns, ToCarry, AllStored, Weight, Reach, Removed, Inserted;
    if edits != [] {
      var p := Progress(client, edits[0], []);
      ReachBound(client, edits[0]);
      TransformMeaning(client, edits[0]);
      CanGoOn(client, edits, TransformRuns(p));
      TransformConverges(client, edits[0], t);
      assert ExpandAll(edits)[1..] == ExpandAll(edits[1..]);
      RebaseConverges(TransformRuns(p), edits[1..], Apply(Expand(edits[0]), t));
      assert CarryRuns(edits, client)[1..] == CarryRuns(edits[1..], TransformRuns(p));
    }
  }

  /** Over edits that hide no insertion, rebasing is what the unit rule says. */
  lemma {:induction false} RebaseBySolid(client: Ops, edits: seq<Ops>)
    requires CanRebase(client, edits) && AllSolid(edits)
    ensures Expand(RebaseRuns(client, edits)) == RebaseAll(Expand(client), ExpandAll(edits))
    decreases |edits|
  {
    hide Expand, TransformRuns, AllStored, Weight, Reach, Solid;
    if edits != [] {
      var p := Progress(client, edits[0], []);
      ReachBound(client, edits[0]);
      TransformMeaning(client, edits[0]);
      CanGoOn(client, edits, TransformRuns(p));
      assert ExpandAll(edits)[1..] == ExpandAll(edits[1..]);
      RebaseBySolid(TransformRuns(p), edits[1..]);
    }
  }

  /** And so is carrying. */
  lemma {:induction false} CarryBySolid(client: Ops, edits: seq<Ops>)
    requires CanRebase(client, edits) && AllSolid(edits)
    ensures CarryRuns(edits, client) == CarryAll(ExpandAll(edits), Expand(client))
    decreases |edits|
  {
    hide Expand, TransformRuns, ToCarry, AllStored, Weight, Reach, Solid;
    if edits != [] {
      var p := Progress(client, edits[0], []);
      ReachBound(client, edits[0]);
      TransformMeaning(client, edits[0]);
      CanGoOn(client, edits, TransformRuns(p));
      CarryRefines(p);
      assert ExpandAll(edits)[1..] == ExpandAll(edits[1..]);
      CarryBySolid(TransformRuns(p), edits[1..]);
    }
  }

  // ---------- runs ----------

  /** A client sends an edit that it made on the text of `version`. */
  datatype Request = Request(version: nat, edit: Ops)

  predicate Accepted(log: seq<Ops>, r: Request) {
    r.version <= |log| <= r.version + HISTORY_CAPACITY
  }

  /** Lengths are 32-bit: what rebasing adds up must fit. */
  predicate Fits(log: seq<Ops>, r: Request) {
    Accepted(log, r) ==> CanRebase(r.edit, log[r.version..])
  }

  /** The accepted edits after the document has served one more request. */
  function Serve(log: seq<Ops>, r: Request): seq<Ops>
    requires Fits(log, r)
  {
    if Accepted(log, r) then log + [RebaseRuns(r.edit, log[r.version..])] else log
  }

  function ServeAll(log: seq<Ops>, rs: seq<Request>): seq<Ops>
    requires AllFit(log, rs)
    decreases |rs|
  {
    if rs == [] then log else ServeAll(Serve(log, rs[0]), rs[1..])
  }

  predicate AllFit(log: seq<Ops>, rs: seq<Request>)
    decreases |rs|
  {
    rs != [] ==> Fits(log, rs[0]) && AllFit(Serve(log, rs[0]), rs[1..])
  }

  /** The edit is in range for the text that its author saw. */
  predicate InRange(log: seq<Ops>, r: Request) {
    Accepted(log, r) ==>
      && Replayable(ExpandAll(log[..r.version]), "")
      && BaseLength(Expand(r.edit)) <= |TextAfter(log[..r.version])|
  }

  predicate AllInRange(log: seq<Ops>, rs: seq<Request>)
    requires AllFit(log, rs)
    decreases |rs|
  {
    rs != [] ==> InRange(log, rs[0]) && AllInRange(Serve(log, rs[0]), rs[1..])
  }

  lemma LogInParts(log: seq<Ops>, n: nat)
    requires n <= |log|
    ensures ExpandAll(log) == ExpandAll(log[..n]) + ExpandAll(log[n..])
    ensures Replayable(ExpandAll(log), "") <==>
      Replayable(ExpandAll(log[..n]), "") && Replayable(ExpandAll(log[n..]), TextAfter(log[..n]))
    ensures Replayable(ExpandAll(log), "") ==>
      TextAfter(log) == ApplyAll(ExpandAll(log[n..]), TextAfter(log[..n]))
  {
    assert ExpandAll(log) == ExpandAll(log[..n]) + ExpandAll(log[n..]);
    ReplayInParts(ExpandAll(log[..n]), ExpandAll(log[n..]), "");
  }

  /** One accepted edit: it is in range for the server's text, inserts what its author inserted, and the
      text it gives is the one its author reaches by carrying the edits it had not seen across its own. */
  lemma ServeConverges(log: seq<Ops>, r: Request)
    requires Replayable(ExpandAll(log), "") && Accepted(log, r) && Fits(log, r) && InRange(log, r)
    ensures Replayable(ExpandAll(log[r.version..]), TextAfter(log[..r.version]))
    ensures var seen, unseen, op := TextAfter(log[..r.version]), log[r.version..], RebaseRuns(r.edit, log[r.version..]);
      && Replayable(ExpandAll(Serve(log, r)), "")
      && BaseLength(Expand(op)) <= |TextAfter(log)|
      && TextAfter(Serve(log, r)) == Apply(Expand(op), TextAfter(log))
      && Replayable(CarryRuns(unseen, r.edit), Apply(Expand(r.edit), seen))
      && TextAfter(Serve(log, r)) == ApplyAll(CarryRuns(unseen, r.edit), Apply(Expand(r.edit), seen))
      && Inserted(Expand(op)) == Inserted(Expand(r.edit))
  {
    hide Expand, CanRebase, RebaseRuns, CarryRuns, Inserted;
    var unseen := log[r.version..];
    LogInParts(log, r.version);
    RebaseConverges(r.edit, unseen, TextAfter(log[..r.version]));
    var op := RebaseRuns(r.edit, unseen);
    var last := [Expand(op)];
    assert (log + [op])[..|log|] == log && (log + [op])[|log|..] == [op] && ExpandAll([op]) == last;
    LogInParts(log + [op], |log|);
    assert last[1..] == [];
  }

  /** Over any run of in-range requests the accepted edits stay replayable, nothing accepted is ever
      rewritten, and a replica that joins at any revision catches up with the server's text. */
  lemma {:induction false} RunKeepsReplicas(log: seq<Ops>, rs: seq<Request>)
    requires Replayable(ExpandAll(log), "") && AllFit(log, rs) && AllInRange(log, rs)
    ensures var end := ServeAll(log, rs);
      && log <= end
      && Replayable(ExpandAll(end), "")
      && Replayable(ExpandAll(end[|log|..]), TextAfter(log))
      && ApplyAll(ExpandAll(end[|log|..]), TextAfter(log)) == TextAfter(end)
    decreases |rs|
  {
    hide Fits, InRange, Accepted, RebaseRuns, CarryRuns;
    if rs != [] {
      ServeKeeps(log, rs[0]);
      RunKeepsReplicas(Serve(log, rs[0]), rs[1..]);
    }
    var end := ServeAll(log, rs);
    assert end[..|log|] == log;
    LogInParts(end, |log|);
  }

  lemma ServeKeeps(log: seq<Ops>, r: Request)
    requires Replayable(ExpandAll(log), "") && Fits(log, r) && InRange(log, r)
    ensures log <= Serve(log, r) && Replayable(ExpandAll(Serve(log, r)), "")
  {
    if Accepted(log, r) {
      ServeConverges(log, r);
    }
  }

  /** Folding an edit into the stored text gives the new text exactly when no boundary is fragile. */
  lemma ContentExactly(content: Ops, edit: Ops, text: string)
    requires Holds(content, text) && AllStored(edit) && Weight(content) + Weight(edit) <= UINT32_MAX
    requires BaseLength(Expand(edit)) <= |text|
    ensures Holds(ComposeRuns(Progress(content, edit, [])), Apply(Expand(edit), text)) <==> Clean(content, edit, 0)
  {
    ComposeExactly(content, edit, "");
  }

  /** Folding `op` into `content` stays within 32-bit lengths and gives `content'`. */
  predicate Folded(content: Ops, op: Ops, content': Ops) {
    && AllStored(content) && AllStored(op) && Weight(content) + Weight(op) <= UINT32_MAX
    && content' == ComposeRuns(Progress(content, op, []))
  }

  /** `contents` are the stored texts of a document that accepts the edits of `log` one by one. */
  predicate FoldedAll(contents: seq<Ops>, log: seq<Ops>) {
    && |contents| == |log| + 1 && contents[0] == []
    && forall i :: 0 <= i < |log| ==> Folded(contents[i], log[i], contents[i + 1])
  }

  predicate AllClean(contents: seq<Ops>, log: seq<Ops>)
    requires |contents| == |log| + 1
  {
    forall i :: 0 <= i < |log| ==> Clean(contents[i], log[i], 0)
  }

  lemma FoldedNext(contents: seq<Ops>, log: seq<Ops>, op: Ops, content': Ops)
    requires FoldedAll(contents, log)
    requires AllStored(contents[|log|]) && AllStored(op) && Weight(contents[|log|]) + Weight(op) <= UINT32_MAX
    requires content' == ComposeRuns(Progress(contents[|log|], op, []))
    ensures AllStored(content')
    ensures FoldedAll(contents + [content'], log + [op])
    ensures (contents + [content'])[|log + [op]|] == content'
  {
    hide ComposeRuns, Clean, Same, Whole, Yield, Growth, Expand;
    ComposeLoop(Progress(contents[|log|], op, []));
  }

  lemma FoldedOne(content: Ops, op: Ops, content': Ops)
    requires AllStored(content) && AllStored(op) && Weight(content) + Weight(op) <= UINT32_MAX
    requires content' == ComposeRuns(Progress(content, op, []))
    ensures Folded(content, op, content')
  {
  }

  lemma FoldedLess(contents: seq<Ops>, log: seq<Ops>, n: nat)
    requires FoldedAll(contents, log) && |log| == n + 1
    ensures FoldedAll(contents[..n + 1], log[..n])
    ensures AllClean(contents, log) <==> AllClean(contents[..n + 1], log[..n]) && Clean(contents[n], log[n], 0)
  {
  }

  /** The last edit of a log. */
  lemma TextOfLast(log: seq<Ops>, n: nat)
    requires |log| == n + 1 && Replayable(ExpandAll(log), "")
    ensures Replayable(ExpandAll(log[..n]), "")
    ensures BaseLength(Expand(log[n])) <= |TextAfter(log[..n])|
    ensures TextAfter(log) == Apply(Expand(log[n]), TextAfter(log[..n]))
  {
    var first, last := ExpandAll(log[..n]), [Expand(log[n])];
    assert ExpandAll(log) == first + last;
    ReplayInParts(first, last, "");
    assert last[1..] == [];
  }

  lemma HoldsLength(content: Ops, text: string)
    requires Holds(content, text)
    ensures Growth(Expand(content)) == |text|
  {
    ApplyGrowth(Expand(content), "");
  }

  /** Over a whole run the stored text is the text of the replicas exactly if no accepted edit ever
      had a fragile boundary: text that is lost once never comes back. */
  lemma {:induction false} RunExactly(contents: seq<Ops>, log: seq<Ops>)
    requires FoldedAll(contents, log) && Replayable(ExpandAll(log), "")
    ensures Holds(contents[|log|], TextAfter(log)) <==> AllClean(contents, log)
    ensures !AllClean(contents, log) ==> Growth(Expand(contents[|log|])) < |TextAfter(log)|
    decreases |log|
  {
    if log != [] {
      var n := |log| - 1;
      FoldedLess(contents, log, n);
      TextOfLast(log, n);
      RunExactly(contents[..n + 1], log[..n]);
      RunExactlyStep(contents[n], log[n], contents[n + 1], TextAfter(log[..n]));
    }
  }

  lemma RunExactlyStep(content: Ops, op: Ops, content': Ops, text: string)
    requires Folded(content, op, content') && BaseLength(Expand(op)) <= |text|
    requires Holds(content, text) || Growth(Expand(content)) < |text|
    ensures var text' := Apply(Expand(op), text);
      && (Holds(content', text') <==> Holds(content, text) && Clean(content, op, 0))
      && (!Holds(content', text') ==> Growth(Expand(content')) < |text'|)
  {
    var text' := Apply(Expand(op), text);
    ComposeLoop(Progress(content, op, []));
    ApplyGrowth(Expand(op), text);
    if Holds(content, text) {
      ContentExactly(content, op, text);
      HoldsLength(content, text);
    }
    if Holds(content', text') {
      HoldsLength(content', text');
    }
  }

  /** `history`, starting at revision `from`, is the latest part of `log` that is kept. */
  predicate IsWindow(history: seq<Ops>, from: nat, log: seq<Ops>) {
    && |history| == (if |log| <= HISTORY_CAPACITY then |log| else HISTORY_CAPACITY)
    && from == |log| - |history|
    && history == log[from..]
  }

  lemma WindowMoves(history: seq<Ops>, from: nat, log: seq<Ops>, op: Ops)
    requires IsWindow(history, from, log)
    ensures if |history| >= HISTORY_CAPACITY then IsWindow(history[1..] + [op], from + 1, log + [op])
            else IsWindow(history + [op], from, log + [op])
  {
  }

  /** The stored text is the text that every replica gets from the accepted edits. */
  predicate Faithful(log: seq<Ops>, content: Ops) {
    Replayable(ExpandAll(log), "") && Holds(content, TextAfter(log))
  }

  /** What accepting `op`, a rebased in-range edit, does to the text and to its stored copy. */
  predicate Continues(log: seq<Ops>, content: Ops, op: Ops, content': Ops) {
    && Replayable(ExpandAll(log), "") && Replayable(ExpandAll(log + [op]), "")
    && BaseLength(Expand(op)) <= |TextAfter(log)|
    && TextAfter(log + [op]) == Apply(Expand(op), TextAfter(log))
    && (Faithful(log, content) ==> (Faithful(log + [op], content') <==> Clean(content, op, 0)))
  }

  /** The texts of the replicas go on with an edit that is in range for what its author saw, and the
      stored text stays right exactly if no boundary is fragile. */
  lemma StoredExactly(log: seq<Ops>, content: Ops, r: Request, content': Ops)
    requires Replayable(ExpandAll(log), "") && Accepted(log, r) && Fits(log, r) && InRange(log, r)
    requires Folded(content, RebaseRuns(r.edit, log[r.version..]), content')
    ensures Continues(log, content, RebaseRuns(r.edit, log[r.version..]), content')
  {
    hide CanRebase, RebaseRuns, CarryRuns, InRange, Inserted;
    ServeConverges(log, r);
    if Faithful(log, content) {
      ContentExactly(content, RebaseRuns(r.edit, log[r.version..]), TextAfter(log));
    }
  }

  /** The document accepts a version exactly if the run does, and rebases over the same edits. */
  lemma WindowAccepts(history: seq<Ops>, from: nat, log: seq<Ops>, r: Request)
    requires IsWindow(history, from, log)
    ensures Accepted(log, r) <==> from <= r.version <= |log|
    ensures Accepted(log, r) ==> history[r.version - from..] == log[r.version..]
  {
  }

  lemma WindowStored(history: seq<Ops>, from: nat, log: seq<Ops>, version: nat)
    requires IsWindow(history, from, log) && LogStored(log) && from <= version <= |log|
    ensures from + |history| == |log| && LogStored(log[version..])
  {
  }

  class Document {
    var content_: Ops
    var revision_: nat
    var min_revision_: nat
    var history_: seq<Ops>
    ghost var log: seq<Ops>       // every edit this document has accepted, as returned to be broadcast
    ghost var contents: seq<Ops>  // what was stored after each of them, and at first

    ghost predicate Valid()
      reads this
    {
      && revision_ == |log|
      && IsWindow(history_, min_revision_, log)
      && AllStored(content_)
      && LogStored(log)
      && FoldedAll(contents, log) && contents[|log|] == content_
    }

    /** Lengths are 32-bit: the stored text, the edit and what it is rebased over must fit. */
    ghost predicate Room(version: nat, client: Ops)
      requires Valid()
      reads this
    {
      Accepts(version) ==>
        && AllStored(client)
        && Weight(content_) + Weight(client) + TotalWeight(history_[version - min_revision_..]) <= UINT32_MAX
    }

    predicate Accepts(version: nat)
      reads this
    {
      min_revision_ <= version <= revision_
    }

    constructor ()
      ensures Valid() && log == [] && Faithful(log, content_)
    {
      content_ := [];
      revision_ := 0;
      min_revision_ := 0;
      history_ := [];
      log, contents := [], [[]];
    }

    method GetContent() returns (content: Ops, version: nat)
      requires Valid()
      ensures content == content_ && version == |log|
      ensures Replayable(ExpandAll(log), "") ==> (Holds(content, TextAfter(log)) <==> AllClean(contents, log))
    {
      if Replayable(ExpandAll(log), "") {
        RunExactly(contents, log);
      }
      content, version := content_, revision_;
    }

    method ApplyOp(version: nat, client: Ops) returns (newVersion: nat, result: Ops)
      requires Valid() && Room(version, client)
      modifies this
      ensures Valid()
      ensures !old(Accepts(version)) ==>
        result == [] && newVersion == version && log == old(log) && contents == old(contents) && content_ == old(content_)
      ensures Fits(old(log), Request(version, client)) && log == Serve(old(log), Request(version, client))
      ensures old(Accepts(version)) ==>
        && newVersion == revision_ == old(revision_) + 1
        && version <= old(revision_) && CanRebase(client, old(log)[version..])
        && result == RebaseRuns(client, old(log)[version..]) && log == old(log) + [result]
        && contents == old(contents) + [content_] && Folded(old(content_), result, content_)
      ensures old(Accepts(version)) && Replayable(ExpandAll(old(log)), "") && InRange(old(log), Request(version, client)) ==>
        Continues(old(log), old(content_), result, content_)
    {
      hide FoldedAll, Folded, IsWindow, LogStored, AllStored, Normal, ComposeRuns, Weight, TotalWeight, Expand,
        RebaseRuns, ExpandAll, InRange, Continues;
      ghost var request := Request(version, client);
      WindowAccepts(history_, min_revision_, log, request);
      if version < min_revision_ || version > revision_ {
        return version, [];
      }
      WindowStored(history_, min_revision_, log, version);
      var op := RebaseOver(client, history_, version - min_revision_);
      revision_ := revision_ + 1;
      newVersion := revision_;
      var content := Transformation.Compose(content_, op);
      FoldedNext(contents, log, op, content);
      FoldedOne(content_, op, content);
      if Replayable(ExpandAll(log), "") && InRange(log, request) {
        StoredExactly(log, content_, request, content);
      }
      contents := contents + [content];
      content_ := content;
      PushToHistory(op);
      result := op;
    }

    method PushToHistory(op: Ops)
      requires IsWindow(history_, min_revision_, log) && LogStored(log) && AllStored(op)
      modifies `history_, `min_revision_, `log
      ensures log == old(log) + [op] && LogStored(log)
      ensures IsWindow(history_, min_revision_, log)
    {
      WindowMoves(history_, min_revision_, log, op);
      log := log + [op];
      if |history_| >= HISTORY_CAPACITY {
        history_ := history_[1..];
        min_revision_ := min_revision_ + 1;
      }
      history_ := history_ + [op];
    }
  }

  /** The loop of `ApplyOp`: `client` over every edit of `history` from position `from` on. */
  method RebaseOver(client: Ops, history: seq<Ops>, from: nat) returns (op: Ops)
    requires from <= |history| && CanRebase(client, history[from..])
    ensures op == RebaseRuns(client, history[from..])
  {
    hide Normal, AllStored, LogStored, TransformRuns, Weight;
    op := client;
    for i := from to |history|
      invariant CanRebase(op, history[i..]) && RebaseRuns(op, history[i..]) == RebaseRuns(client, history[from..])
    {
      assert history[i..][1..] == history[i + 1..] && history[i..][0] == history[i];
      CanTransform(op, history[i..]);
      ReachBound(op, history[i]);
      TransformMeaning(op, history[i]);
      CanGoOn(op, history[i..], TransformRuns(Progress(op, history[i], [])));
      op := Transformation.Transform(op, history[i]);
    }
  }

  lemma CanTransform(op: Ops, edits: seq<Ops>)
    requires CanRebase(op, edits) && edits != []
    ensures AllStored(op) && AllStored(edits[0]) && Weight(op) + Weight(edits[0]) <= UINT32_MAX
  {
  }

  lemma OneInsertHolds(length: uint32, text: string)
    requires 0 < length <= |text| <= UINT32_MAX
    ensures Holds([Component(INSERT, length, text)], text)
  {
    ApplyPut(text, End, "");
    assert Expand([Component(INSERT, length, text)]) == PutRun(text, End);
  }

  lemma SecondEdit()
    ensures Folded([Component(INSERT, 2, "ab")], [Retain(1), Insert("X")], [Component(INSERT, 1, "aXb")])
  {
    var c1, e2 := [Component(INSERT, 2, "ab")], [Retain(1), Insert("X")];
    var p1 := Progress([Component(INSERT, 1, "b")], [Insert("X")], [Component(INSERT, 1, "a")]);
    var p2 := Progress([Component(INSERT, 1, "b")], [], [Component(INSERT, 1, "aX")]);
    assert "ab"[..1] == "a" && "ab"[1..] == "b" && "b"[..1] == "b" && "a" + "X" == "aX" && "aX" + "b" == "aXb";
    assert e2[1..] == [Insert("X")] && c1[1..] == [];
    assert Weight(c1) == 2 && Weight(e2[1..]) == 1 && Weight(e2) == 2;
    assert ComposeStep(Progress(c1, e2, [])) == p1;
    assert ComposeStep(p1) == p2;
    assert ComposeRuns(p2) == [Component(INSERT, 1, "aXb")];
  }

  /** The first part of this insertion was one character long: reading two "finishes" it. */
  lemma ThirdEdit()
    ensures Folded([Component(INSERT, 1, "aXb")], [Retain(2), Insert("Y")], [Component(INSERT, 2, "aXY")])
  {
    var c2, e3 := [Component(INSERT, 1, "aXb")], [Retain(2), Insert("Y")];
    var q1 := Progress([], [Insert("Y")], [Component(INSERT, 2, "aX")]);
    assert "aXb"[..2] == "aX" && "aX" + "Y" == "aXY" && e3[1..] == [Insert("Y")] && c2[1..] == [];
    assert Weight(c2) == 3 && Weight(e3[1..]) == 1 && Weight(e3) == 3;
    assert ComposeStep(Progress(c2, e3, [])) == q1;
    assert ComposeStep(q1) == Progress([], [], [Component(INSERT, 2, "aXY")]);
  }

  lemma FirstEdit()
    ensures Folded([], [Insert("ab")], [Component(INSERT, 2, "ab")])
  {
  }

  /** The operation makes `after` of the text `before`. */
  predicate Gives(op: Ops, before: string, after: string) {
    BaseLength(Expand(op)) <= |before| && Apply(Expand(op), before) == after
  }

  /** Three edits of one author: type "ab", put X behind the a, put Y behind the X.  Every one is in
      range and every replica reads "aXYb", but the stored text has lost the b. */
  lemma ThirdEditLosesText(c1: Ops, c2: Ops, c3: Ops)
    requires c1 == [Component(INSERT, 2, "ab")]
    requires c2 == [Component(INSERT, 1, "aXb")]
    requires c3 == [Component(INSERT, 2, "aXY")]
    ensures Folded([], [Insert("ab")], c1) && Holds(c1, "ab")
    ensures Folded(c1, [Retain(1), Insert("X")], c2) && Holds(c2, "aXb")
    ensures Folded(c2, [Retain(2), Insert("Y")], c3) && Holds(c3, "aXY")
    ensures Gives([Retain(2), Insert("Y")], "aXb", "aXYb")
  {
    hide Folded, Holds, Gives;
    FirstEdit();
    SecondEdit();
    ThirdEdit();
    OneInsertHolds(2, "ab");
    OneInsertHolds(1, "aXb");
    OneInsertHolds(2, "aXY");
    ReplicaText();
  }

  lemma ReplicaText()
    ensures Gives([Retain(2), Insert("Y")], "aXb", "aXYb")
  {
  }
}
