/**
 Broadcasting to the users of a document across worker threads
 (src/services/document/document_service.cc, src/core/context.h, src/core/event_loop.cc).

 A message for several connections is one reference-counted context.  Its sender sets the count,
 issues one send per user, and forgets it; every delivery releases one reference, and the last one
 frees the context.  The workers run at once: between any two sends or deliveries of one broadcast
 there may be steps of any other.
 */
module Broadcasts {

  type Conn = nat
  type Doc = nat
  type ContextId = nat

  /** A context and what has become of it.  `flying` are the messages that other workers have still
      to take; `handled` are the users whose message has been delivered or found its user gone. */
  datatype Context = Context(
    sender: Conn, refCount: int, todo: seq<Conn>, flying: multiset<Conn>, handled: multiset<Conn>,
    audience: multiset<Conn>, freeings: nat, misused: bool)

  datatype System = System(
    open: map<Conn, Doc>, users: map<Doc, seq<Conn>>, online: set<Conn>,
    contexts: map<ContextId, Context>, next: ContextId, received: multiset<(Conn, ContextId)>)

  const START := System(map[], map[], {}, map[], 0, multiset{})

  function ListOf(users: map<Doc, seq<Conn>>, d: Doc): seq<Conn> { if d in users then users[d] else [] }

  function UsersOf(s: System, d: Doc): seq<Conn> { ListOf(s.users, d) }

  /** The user list without the node of `c`. */
  function Erase(users: seq<Conn>, c: Conn): seq<Conn> {
    if users == [] then [] else if users[0] == c then users[1..] else [users[0]] + Erase(users[1..], c)
  }

  /** The users that a broadcast by `c` is sent to, in order. */
  function Others(users: seq<Conn>, c: Conn): seq<Conn> {
    if users == [] then [] else (if users[0] == c then [] else [users[0]]) + Others(users[1..], c)
  }

  // ---------- contexts ----------

  /** A context for `refs` receivers, sent to every user but `c`. */
  function NewContext(c: Conn, users: seq<Conn>, refs: nat): Context {
    var todo := Others(users, c);
    Context(c, refs, todo, multiset{}, multiset{}, multiset(todo), 0, false)
  }

  /** Use the context for the message to `t`, then release it. */
  function Handle(x: Context, t: Conn): Context {
    x.(handled := x.handled + multiset{t}, refCount := x.refCount - 1,
       freeings := if x.refCount == 1 then x.freeings + 1 else x.freeings,
       misused := x.misused || x.freeings > 0)
  }

  /** The count is the sends still to issue plus the messages in flight; the context is alive until it
      is zero, is then freed, once, and nobody uses it afterwards. */
  predicate Accounted(x: Context) {
    && x.refCount == |x.todo| + |x.flying|
    && x.freeings == (if x.refCount == 0 then 1 else 0)
    && !x.misused
    && x.audience == multiset(x.todo) + x.flying + x.handled
  }

  // ---------- steps ----------

  datatype Step =
    | Connect(c: Conn)
    | Disconnect(c: Conn)
    | Open(c: Conn, d: Doc)
    | Edit(c: Conn)
    | Close(c: Conn)
    | Issue(x: ContextId, sameWorker: bool)
    | Deliver(x: ContextId, t: Conn)

  function Announce(s: System, c: Conn, users: seq<Conn>, refs: nat): System {
    s.(contexts := s.contexts[s.next := NewContext(c, users, refs)], next := s.next + 1)
  }

  function ExitUser(s: System, c: Conn): System {
    if c !in s.open then s
    else
      var d := s.open[c];
      s.(users := s.users[d := Erase(UsersOf(s, d), c)], open := s.open - {c})
  }

  function JoinUser(s: System, c: Conn, d: Doc): System {
    s.(users := s.users[d := [c] + UsersOf(s, d)], open := s.open[c := d])
  }

  /** The message to `t` reaches its worker: the user gets it if the connection is still there. */
  function Arrive(s: System, x: ContextId, t: Conn, ctx: Context): System {
    s.(contexts := s.contexts[x := Handle(ctx, t)],
       received := if t in s.online then s.received + multiset{(t, x)} else s.received)
  }

  function Next(s: System, step: Step): System {
    match step
    case Connect(c) => s.(online := s.online + {c})
    case Disconnect(c) => s.(online := s.online - {c})
    case Open(c, d) =>
      var t := JoinUser(ExitUser(s, c), c, d);
      var users := UsersOf(t, d);
      if |users| > 1 then Announce(t, c, users, |users| - 1) else t
    case Edit(c) =>
      if c !in s.open then s
      else
        var users := UsersOf(s, s.open[c]);
        if |users| > 1 then Announce(s, c, users, |users| - 1) else s
    case Close(c) =>
      if c !in s.open then s
      else
        var t := ExitUser(s, c);
        var users := UsersOf(t, s.open[c]);
        if |users| > 0 then Announce(t, c, users, |users|) else t
    case Issue(x, sameWorker) =>
      if x !in s.contexts || s.contexts[x].todo == [] then s
      else
        var ctx := s.contexts[x];
        var t, rest := ctx.todo[0], ctx.(todo := ctx.todo[1..]);
        if sameWorker then Arrive(s, x, t, rest)
        else s.(contexts := s.contexts[x := rest.(flying := rest.flying + multiset{t},
                                                 misused := rest.misused || rest.freeings > 0)])
    case Deliver(x, t) =>
      if x !in s.contexts || t !in s.contexts[x].flying then s
      else
        var ctx := s.contexts[x];
        Arrive(s, x, t, ctx.(flying := ctx.flying - multiset{t}))
  }

  function Run(s: System, steps: seq<Step>): System
    decreases |steps|
  {
    if steps == [] then s else Run(Next(s, steps[0]), steps[1..])
  }

  // ---------- what every step keeps ----------

  /** The list of `d` holds `c` once if `c` has `d` open, and not at all otherwise. */
  predicate ListedRight(open: map<Conn, Doc>, users: map<Doc, seq<Conn>>, d: Doc, c: Conn) {
    multiset(ListOf(users, d))[c] == if c in open && open[c] == d then 1 else 0
  }

  ghost predicate UsersRight(open: map<Conn, Doc>, users: map<Doc, seq<Conn>>) {
    forall d: Doc, c: Conn :: ListedRight(open, users, d, c)
  }

  ghost predicate Inv(s: System) {
    && UsersRight(s.open, s.users)
    && forall x :: x in s.contexts ==> x < s.next && Accounted(s.contexts[x])
  }

  lemma {:induction false} OthersOf(users: seq<Conn>, c: Conn)
    ensures |Others(users, c)| == |users| - multiset(users)[c]
    ensures multiset(Others(users, c)) == multiset(users)[c := 0]
  {
    if users != [] {
      OthersOf(users[1..], c);
      assert users == [users[0]] + users[1..];
    }
  }

  lemma {:induction false} EraseOne(users: seq<Conn>, c: Conn)
    ensures multiset(Erase(users, c)) == multiset(users) - multiset{c}
  {
    if users != [] {
      var u, rest := users[0], users[1..];
      assert users == [u] + rest;
      if u != c {
        EraseOne(rest, c);
        assert multiset(Erase(users, c)) == multiset{u} + multiset(Erase(rest, c));
      }
    }
  }

  /** A context counted for all users but one is in order exactly if its sender is a user, once. */
  lemma CountsExactly(c: Conn, users: seq<Conn>)
    requires |users| > 1
    ensures Accounted(NewContext(c, users, |users| - 1)) <==> multiset(users)[c] == 1
  {
    OthersOf(users, c);
  }

  /** A context counted for all users is in order exactly if its sender is none of them any more. */
  lemma CountsAll(c: Conn, users: seq<Conn>)
    requires |users| > 0
    ensures Accounted(NewContext(c, users, |users|)) <==> multiset(users)[c] == 0
  {
    OthersOf(users, c);
  }

  lemma Listed(s: System, d: Doc, c: Conn)
    requires UsersRight(s.open, s.users)
    ensures multiset(UsersOf(s, d))[c] == if c in s.open && s.open[c] == d then 1 else 0
  {
    assert ListedRight(s.open, s.users, d, c);
  }

  lemma ExitKeeps(s: System, c: Conn)
    requires UsersRight(s.open, s.users)
    ensures var t := ExitUser(s, c);
      UsersRight(t.open, t.users) && c !in t.open && t.contexts == s.contexts && t.next == s.next
  {
    if c in s.open {
      var t, d := ExitUser(s, c), s.open[c];
      EraseOne(UsersOf(s, d), c);
      forall d', c' ensures ListedRight(t.open, t.users, d', c') {
        assert ListedRight(s.open, s.users, d', c');
      }
    }
  }

  lemma JoinKeeps(s: System, c: Conn, d: Doc)
    requires UsersRight(s.open, s.users) && c !in s.open
    ensures var t := JoinUser(s, c, d); UsersRight(t.open, t.users)
  {
    var t := JoinUser(s, c, d);
    assert multiset([c] + UsersOf(s, d)) == multiset{c} + multiset(UsersOf(s, d));
    forall d', c' ensures ListedRight(t.open, t.users, d', c') {
      assert ListedRight(s.open, s.users, d', c');
    }
  }

  lemma HandleKeeps(x: Context, t: Conn)
    requires t in x.flying && Accounted(x)
    ensures Accounted(Handle(x.(flying := x.flying - multiset{t}), t))
  {
  }

  lemma IssueKeeps(x: Context)
    requires x.todo != [] && Accounted(x)
    ensures var t, rest := x.todo[0], x.(todo := x.todo[1..]);
      && Accounted(Handle(rest, t))
      && Accounted(rest.(flying := rest.flying + multiset{t}, misused := rest.misused || rest.freeings > 0))
  {
    assert x.todo == [x.todo[0]] + x.todo[1..];
  }

  lemma AnnounceKeeps(s: System, c: Conn, users: seq<Conn>, refs: nat)
    requires Inv(s) && Accounted(NewContext(c, users, refs))
    ensures Inv(Announce(s, c, users, refs))
  {
    hide Accounted, NewContext, UsersRight;
  }

  lemma UpdateKeeps(s: System, r: System, x: ContextId, ctx: Context)
    requires Inv(s) && x in s.contexts && Accounted(ctx)
    requires r.open == s.open && r.users == s.users && r.contexts == s.contexts[x := ctx] && r.next == s.next
    ensures Inv(r)
  {
    hide Accounted, UsersRight;
  }

  lemma NextKeeps(s: System, step: Step)
    requires Inv(s)
    ensures Inv(Next(s, step))
  {
    hide Accounted, NewContext, Handle, ListedRight, UsersRight, ListOf, Erase, Others, Announce, ExitUser, JoinUser;
    match step
    case Connect(c) =>
    case Disconnect(c) =>
    case Open(c, d) => OpenKeeps(s, c, d);
    case Edit(c) =>
      if c in s.open && |UsersOf(s, s.open[c])| > 1 {
        Listed(s, s.open[c], c);
        CountsExactly(c, UsersOf(s, s.open[c]));
        AnnounceKeeps(s, c, UsersOf(s, s.open[c]), |UsersOf(s, s.open[c])| - 1);
      }
    case Close(c) => CloseKeeps(s, c);
    case Issue(x, sameWorker) =>
      if x in s.contexts && s.contexts[x].todo != [] {
        IssueKeeps(s.contexts[x]);
        UpdateKeeps(s, Next(s, step), x, Next(s, step).contexts[x]);
      }
    case Deliver(x, t) =>
      if x in s.contexts && t in s.contexts[x].flying {
        HandleKeeps(s.contexts[x], t);
        UpdateKeeps(s, Next(s, step), x, Next(s, step).contexts[x]);
      }
  }

  lemma OpenKeeps(s: System, c: Conn, d: Doc)
    requires Inv(s)
    ensures Inv(Next(s, Open(c, d)))
  {
    hide Accounted, NewContext, UsersRight, ListedRight, ListOf, Announce, ExitUser;
    ExitKeeps(s, c);
    JoinKeeps(ExitUser(s, c), c, d);
    var t := JoinUser(ExitUser(s, c), c, d);
    Listed(t, d, c);
    var users := UsersOf(t, d);
    if |users| > 1 {
      CountsExactly(c, users);
      AnnounceKeeps(t, c, users, |users| - 1);
    }
  }

  lemma CloseKeeps(s: System, c: Conn)
    requires Inv(s)
    ensures Inv(Next(s, Close(c)))
  {
    hide Accounted, NewContext, UsersRight, ListedRight, ListOf, Announce, ExitUser;
    if c in s.open {
      ExitKeeps(s, c);
      var t := ExitUser(s, c);
      var users := UsersOf(t, s.open[c]);
      Listed(t, s.open[c], c);
      if |users| > 0 {
        CountsAll(c, users);
        AnnounceKeeps(t, c, users, |users|);
      }
    }
  }

  lemma {:induction false} RunKeeps(s: System, steps: seq<Step>)
    requires Inv(s)
    ensures Inv(Run(s, steps))
    decreases |steps|
  {
    if steps != [] {
      NextKeeps(s, steps[0]);
      RunKeeps(Next(s, steps[0]), steps[1..]);
    }
  }

  /** What the accounts record: using a context that has been freed, to issue a send or to handle a
      message, is misuse, and nothing else is. */
  lemma NextMisuses(s: System, step: Step, x: ContextId)
    requires x in s.contexts && x < s.next
    ensures x in Next(s, step).contexts
    ensures var uses := match step
        case Issue(y, _) => y == x && s.contexts[x].todo != []
        case Deliver(y, t) => y == x && t in s.contexts[x].flying
        case _ => false;
      Next(s, step).contexts[x].misused <==> s.contexts[x].misused || (uses && s.contexts[x].freeings > 0)
  {
    hide Erase, Others, ListOf, NewContext, UsersOf;
    match step
    case Issue(y, sameWorker) =>
    case Deliver(y, t) =>
    case _ => OthersKeep(s, step, x);
  }

  lemma OthersKeep(s: System, step: Step, x: ContextId)
    requires x in s.contexts && x < s.next && !step.Issue? && !step.Deliver?
    ensures x in Next(s, step).contexts && Next(s, step).contexts[x] == s.contexts[x]
  {
    hide Erase, Others, ListOf, NewContext, UsersOf;
  }

  /** Over every run: no context is used after it is freed or freed twice, and one with nothing left to
      issue or deliver has been freed, after each of its users was handled once. */
  lemma EveryRunAccounts(steps: seq<Step>, x: ContextId)
    requires x in Run(START, steps).contexts
    ensures var ctx := Run(START, steps).contexts[x];
      && !ctx.misused && ctx.freeings <= 1
      && (ctx.freeings == 1 <==> ctx.todo == [] && ctx.flying == multiset{})
      && (ctx.freeings == 1 ==> ctx.handled == ctx.audience)
  {
    RunKeeps(START, steps);
  }

  // ---------- who receives what ----------

  function HandledOf(s: System, x: ContextId): multiset<Conn> {
    if x in s.contexts then s.contexts[x].handled else multiset{}
  }

  predicate ReceivedAtMost(s: System, x: ContextId, t: Conn) { s.received[(t, x)] <= HandledOf(s, x)[t] }

  /** Whoever has received a message is among those handled, and nobody is addressed twice. */
  ghost predicate Delivered(s: System) {
    && (forall x: ContextId, t: Conn :: ReceivedAtMost(s, x, t))
    && (forall x, t: Conn :: x in s.contexts ==> s.contexts[x].audience[t] <= 1)
  }

  lemma ArriveDelivers(s: System, x: ContextId, t: Conn, ctx: Context)
    requires Delivered(s) && x in s.contexts
    requires ctx.handled == s.contexts[x].handled && ctx.audience == s.contexts[x].audience
    ensures Delivered(Arrive(s, x, t, ctx))
  {
    var r := Arrive(s, x, t, ctx);
    forall x': ContextId, t': Conn ensures ReceivedAtMost(r, x', t') {
      assert ReceivedAtMost(s, x', t');
    }
  }

  lemma AnnounceDelivers(s: System, c: Conn, users: seq<Conn>, refs: nat)
    requires Delivered(s) && Inv(s) && forall t: Conn :: multiset(users)[t] <= 1
    ensures Delivered(Announce(s, c, users, refs))
  {
    var r := Announce(s, c, users, refs);
    OthersOf(users, c);
    forall x': ContextId, t': Conn ensures ReceivedAtMost(r, x', t') {
      assert ReceivedAtMost(s, x', t');
    }
  }

  lemma UsersOnce(s: System, d: Doc)
    requires UsersRight(s.open, s.users)
    ensures forall t: Conn :: multiset(UsersOf(s, d))[t] <= 1
  {
    forall t: Conn ensures multiset(UsersOf(s, d))[t] <= 1 {
      Listed(s, d, t);
    }
  }

  lemma SameDeliveries(s: System, t: System)
    requires Delivered(s) && t.contexts == s.contexts && t.received == s.received
    ensures Delivered(t)
  {
    forall x: ContextId, u: Conn ensures ReceivedAtMost(t, x, u) {
      assert ReceivedAtMost(s, x, u);
    }
  }

  lemma NextDelivers(s: System, step: Step)
    requires Inv(s) && Delivered(s)
    ensures Delivered(Next(s, step))
  {
    hide Accounted, NewContext, Delivered, ListedRight, ListOf, Erase;
    match step
    case Connect(c) => SameDeliveries(s, Next(s, step));
    case Disconnect(c) => SameDeliveries(s, Next(s, step));
    case Open(c, d) =>
      var t := JoinUser(ExitUser(s, c), c, d);
      ExitKeeps(s, c);
      JoinKeeps(ExitUser(s, c), c, d);
      SameDeliveries(s, t);
      UsersOnce(t, d);
      if |UsersOf(t, d)| > 1 {
        AnnounceDelivers(t, c, UsersOf(t, d), |UsersOf(t, d)| - 1);
      }
    case Edit(c) =>
      if c in s.open && |UsersOf(s, s.open[c])| > 1 {
        UsersOnce(s, s.open[c]);
        AnnounceDelivers(s, c, UsersOf(s, s.open[c]), |UsersOf(s, s.open[c])| - 1);
      }
    case Close(c) =>
      if c in s.open {
        var t, d := ExitUser(s, c), s.open[c];
        ExitKeeps(s, c);
        SameDeliveries(s, t);
        UsersOnce(t, d);
        if |UsersOf(t, d)| > 0 {
          AnnounceDelivers(t, c, UsersOf(t, d), |UsersOf(t, d)|);
        }
      }
    case Issue(x, sameWorker) =>
      if x in s.contexts && s.contexts[x].todo != [] {
        var ctx := s.contexts[x];
        var t, rest := ctx.todo[0], ctx.(todo := ctx.todo[1..]);
        if sameWorker {
          ArriveDelivers(s, x, t, rest);
        } else {
          KeptDeliveries(s, x, Next(s, step));
        }
      }
    case Deliver(x, t) =>
      if x in s.contexts && t in s.contexts[x].flying {
        var ctx := s.contexts[x];
        ArriveDelivers(s, x, t, ctx.(flying := ctx.flying - multiset{t}));
      }
  }

  lemma KeptDeliveries(s: System, x: ContextId, r: System)
    requires Delivered(s) && x in s.contexts && x in r.contexts && r.received == s.received
    requires r.contexts == s.contexts[x := r.contexts[x]]
    requires r.contexts[x].handled == s.contexts[x].handled && r.contexts[x].audience == s.contexts[x].audience
    ensures Delivered(r)
  {
    forall x': ContextId, t': Conn ensures ReceivedAtMost(r, x', t') {
      assert ReceivedAtMost(s, x', t');
    }
  }

  lemma {:induction false} RunDelivers(s: System, steps: seq<Step>)
    requires Inv(s) && Delivered(s)
    ensures Inv(Run(s, steps)) && Delivered(Run(s, steps))
    decreases |steps|
  {
    hide Inv, Delivered;
    if steps != [] {
      NextKeeps(s, steps[0]);
      NextDelivers(s, steps[0]);
      RunDelivers(Next(s, steps[0]), steps[1..]);
    }
  }

  /** Over every run, nobody receives a message twice, or one that was not addressed to them. */
  lemma EveryRunDeliversAtMostOnce(steps: seq<Step>, x: ContextId, t: Conn)
    ensures var s := Run(START, steps);
      && s.received[(t, x)] <= 1
      && (s.received[(t, x)] == 1 ==> x in s.contexts && s.contexts[x].audience[t] == 1)
  {
    RunDelivers(START, steps);
    var s := Run(START, steps);
    assert ReceivedAtMost(s, x, t);
    if x in s.contexts {
      var ctx := s.contexts[x];
      assert Accounted(ctx) && ctx.audience[t] <= 1;
      assert ctx.handled[t] <= ctx.audience[t];
    }
  }

  // ---------- nothing is lost ----------

  /** Does this step hand the message of context `x` to `t`, online or not? */
  predicate Handles(s: System, step: Step, x: ContextId, t: Conn) {
    x in s.contexts &&
    match step
    case Issue(y, sameWorker) => y == x && sameWorker && s.contexts[x].todo != [] && s.contexts[x].todo[0] == t
    case Deliver(y, u) => y == x && u == t && t in s.contexts[x].flying
    case _ => false
  }

  /** A step gives a message to exactly the user it hands it to, once, if that user is online. */
  lemma NextReceives(s: System, step: Step, x: ContextId, t: Conn)
    ensures Next(s, step).received[(t, x)] == s.received[(t, x)] + if Handles(s, step, x, t) && t in s.online then 1 else 0
  {
    hide Erase, Others, ListOf;
  }

  lemma AnnounceHandles(s: System, c: Conn, users: seq<Conn>, refs: nat, x: ContextId)
    requires s.next !in s.contexts
    ensures HandledOf(Announce(s, c, users, refs), x) == HandledOf(s, x)
  {
    hide Others;
  }

  lemma NextIsNew(s: System)
    requires Inv(s)
    ensures s.next !in s.contexts
  {
  }

  /** And counts exactly that user as handled.  New contexts have handled nobody. */
  lemma NextHandles(s: System, step: Step, x: ContextId, t: Conn)
    requires Inv(s)
    ensures HandledOf(Next(s, step), x)[t] == HandledOf(s, x)[t] + if Handles(s, step, x, t) then 1 else 0
  {
    hide Erase, Others, ListOf, Accounted, UsersRight, Inv, Announce, NewContext;
    NextIsNew(s);
    match step
    case Open(c, d) =>
      var j := JoinUser(ExitUser(s, c), c, d);
      AnnounceHandles(j, c, UsersOf(j, d), if |UsersOf(j, d)| > 1 then |UsersOf(j, d)| - 1 else 0, x);
    case Edit(c) =>
      if c in s.open && |UsersOf(s, s.open[c])| > 1 {
        AnnounceHandles(s, c, UsersOf(s, s.open[c]), |UsersOf(s, s.open[c])| - 1, x);
      }
    case Close(c) =>
      if c in s.open {
        var e := ExitUser(s, c);
        AnnounceHandles(e, c, UsersOf(e, s.open[c]), |UsersOf(e, s.open[c])|, x);
      }
    case Issue(y, sameWorker) => IssueHandles(s, y, sameWorker, x, t);
    case Deliver(y, u) => DeliverHandles(s, y, u, x, t);
    case _ =>
  }

  lemma IssueHandles(s: System, y: ContextId, sameWorker: bool, x: ContextId, t: Conn)
    ensures HandledOf(Next(s, Issue(y, sameWorker)), x)[t]
         == HandledOf(s, x)[t] + if Handles(s, Issue(y, sameWorker), x, t) then 1 else 0
  {
  }

  lemma DeliverHandles(s: System, y: ContextId, u: Conn, x: ContextId, t: Conn)
    ensures HandledOf(Next(s, Deliver(y, u)), x)[t]
         == HandledOf(s, x)[t] + if Handles(s, Deliver(y, u), x, t) then 1 else 0
  {
  }

  /** The connection is online: its last connecting is later than its last disconnecting. */
  predicate Connected(steps: seq<Step>, t: Conn) {
    steps != [] &&
    var last, before := steps[|steps| - 1], steps[..|steps| - 1];
    if last == Connect(t) then true else if last == Disconnect(t) then false else Connected(before, t)
  }

  lemma {:induction false} RunConcat(s: System, a: seq<Step>, b: seq<Step>)
    ensures Run(s, a + b) == Run(Run(s, a), b)
    decreases |a|
  {
    if a == [] {
      assert a + b == b;
    } else {
      assert (a + b)[1..] == a[1..] + b;
      RunConcat(Next(s, a[0]), a[1..], b);
    }
  }

  lemma NextOnline(s: System, step: Step, t: Conn)
    ensures t in Next(s, step).online <==>
      if step == Connect(t) then true else if step == Disconnect(t) then false else t in s.online
  {
  }

  lemma {:induction false} OnlineIsConnected(steps: seq<Step>, t: Conn)
    ensures t in Run(START, steps).online <==> Connected(steps, t)
    decreases |steps|
  {
    hide Next;
    if steps != [] {
      var before, last := steps[..|steps| - 1], steps[|steps| - 1];
      assert steps == before + [last] && [last][1..] == [];
      RunConcat(START, before, [last]);
      OnlineIsConnected(before, t);
      NextOnline(Run(START, before), last, t);
    }
  }

  /** As long as a user is online, what it has been handed it has received. */
  lemma {:induction false} OnlineReceives(s: System, steps: seq<Step>, x: ContextId, t: Conn)
    requires Inv(s) && t in s.online && Disconnect(t) !in steps
    requires s.received[(t, x)] == HandledOf(s, x)[t]
    ensures Run(s, steps).received[(t, x)] == HandledOf(Run(s, steps), x)[t]
    decreases |steps|
  {
    hide Next, Inv, Handles, HandledOf;
    if steps != [] {
      NextKeeps(s, steps[0]);
      NextReceives(s, steps[0], x, t);
      NextHandles(s, steps[0], x, t);
      NextOnline(s, steps[0], t);
      OnlineReceives(Next(s, steps[0]), steps[1..], x, t);
    }
  }

  /** Over every run: a user that is online when a message is announced and stays so has received it,
      exactly as often as it is addressed, once the message is freed. */
  lemma EveryRunDelivers(first: seq<Step>, rest: seq<Step>, x: ContextId, t: Conn)
    requires x !in Run(START, first).contexts && Connected(first, t) && Disconnect(t) !in rest
    ensures Run(START, first + rest) == Run(Run(START, first), rest)
    ensures var s := Run(START, first + rest);
      && (x in s.contexts ==> s.received[(t, x)] == s.contexts[x].handled[t])
      && (x in s.contexts && s.contexts[x].freeings > 0 ==> s.received[(t, x)] == s.contexts[x].audience[t])
  {
    hide Next, Inv, Delivered, ReceivedAtMost;
    var m := Run(START, first);
    RunConcat(START, first, rest);
    StartIsRight();
    RunDelivers(START, first);
    OnlineIsConnected(first, t);
    assert m.received[(t, x)] == 0 by {
      EveryRunDeliversAtMostOnce(first, x, t);
    }
    OnlineReceives(m, rest, x, t);
    if x in Run(m, rest).contexts {
      EveryRunAccounts(first + rest, x);
    }
  }

  lemma StartIsRight()
    ensures Inv(START) && Delivered(START)
  {
  }

  // ---------- who is addressed ----------

  /** The document that the steps leave open for `c`, if any. */
  function LastOpen(steps: seq<Step>, c: Conn): (d: seq<Doc>)
    ensures |d| <= 1
  {
    if steps == [] then []
    else
      var last, before := steps[|steps| - 1], steps[..|steps| - 1];
      if last.Open? && last.c == c then [last.d] else if last == Close(c) then [] else LastOpen(before, c)
  }

  function OpenIn(s: System, c: Conn): seq<Doc> { if c in s.open then [s.open[c]] else [] }

  lemma NextOpens(s: System, step: Step, c: Conn)
    ensures OpenIn(Next(s, step), c) ==
      if step.Open? && step.c == c then [step.d] else if step == Close(c) then [] else OpenIn(s, c)
  {
    hide Erase, Others, ListOf;
  }

  /** A connection has open what it has opened last and not closed since. */
  lemma {:induction false} OpenExactly(steps: seq<Step>, c: Conn)
    ensures OpenIn(Run(START, steps), c) == LastOpen(steps, c)
    decreases |steps|
  {
    hide Next, OpenIn;
    if steps == [] {
      assert OpenIn(START, c) == [] by { NothingOpen(c); }
    } else {
      var before, last := steps[..|steps| - 1], steps[|steps| - 1];
      assert steps == before + [last] && [last][1..] == [];
      RunConcat(START, before, [last]);
      OpenExactly(before, c);
      NextOpens(Run(START, before), last, c);
    }
  }

  lemma NothingOpen(c: Conn)
    ensures OpenIn(START, c) == []
  {
  }

  /** An edit is addressed to every other connection that has the document open, once, and to nobody
      else. */
  lemma EditAddressesOthers(s: System, c: Conn, t: Conn)
    requires Inv(s) && c in s.open && |UsersOf(s, s.open[c])| > 1
    ensures s.next in Next(s, Edit(c)).contexts
    ensures Next(s, Edit(c)).contexts[s.next].audience[t] ==
              if t != c && t in s.open && s.open[t] == s.open[c] then 1 else 0
  {
    OthersOf(UsersOf(s, s.open[c]), c);
    Listed(s, s.open[c], t);
  }

  /** Opening a document is announced to every other connection that has it open, and closing it to all
      that still have, once each and to nobody else. */
  lemma OpenAddressesOthers(s: System, c: Conn, d: Doc, t: Conn)
    requires Inv(s)
    ensures var r := Next(s, Open(c, d));
      var others := t != c && t in s.open && s.open[t] == d;
      && (others ==> s.next in r.contexts)
      && (s.next in r.contexts ==> r.contexts[s.next].audience[t] == if others then 1 else 0)
  {
    hide Erase, Others, ListOf, UsersRight, ListedRight, Accounted;
    var e := ExitUser(s, c);
    ExitKeeps(s, c);
    JoinKeeps(e, c, d);
    var j := JoinUser(e, c, d);
    var users := UsersOf(j, d);
    Listed(j, d, t);
    Listed(j, d, c);
    OthersOf(users, c);
    if t != c && t in users {
      ManyUsers(users, c, t);
    }
  }

  lemma CloseAddressesRest(s: System, c: Conn, t: Conn)
    requires Inv(s) && c in s.open
    ensures var r := Next(s, Close(c));
      var others := t != c && t in s.open && s.open[t] == s.open[c];
      && (others ==> s.next in r.contexts)
      && (s.next in r.contexts ==> r.contexts[s.next].audience[t] == if others then 1 else 0)
  {
    hide Erase, Others, ListOf, UsersRight, ListedRight, Accounted;
    var e := ExitUser(s, c);
    ExitKeeps(s, c);
    var users := UsersOf(e, s.open[c]);
    Listed(e, s.open[c], t);
    Listed(e, s.open[c], c);
    OthersOf(users, c);
  }

  lemma ManyUsers(users: seq<Conn>, c: Conn, t: Conn)
    requires c != t && c in users && t in users
    ensures |users| > 1
  {
  }
}
