/**
 The pointers behind the slots of the timing wheel (src/core/timer.h, timer.cc).

 A slot is a singly linked list whose nodes also know the pointer that points at them: the head of
 the slot, or the `next` of the node in front.  `TimerCancel` unlinks a node as `timer_cancel` does,
 `Destroy` as the destructor does.  Both take a linked node out of its list; only the destructor
 leaves the back link of its successor right.  What they do to other nodes is stated as well.
 */
module TimerSlots {

  class TimerHead {
    var first: TimerNode?

    constructor ()
      ensures Chain(this, [])
    {
      first := null;
    }
  }

  /** A pointer to the pointer that points at a node. */
  datatype Link = Nowhere | OfHead(head: TimerHead) | OfNode(node: TimerNode)

  class TimerNode {
    var next: TimerNode?
    var pprev: Link
    var flag: bool

    constructor ()
      ensures next == null && pprev == Nowhere && !flag
    {
      next, pprev, flag := null, Nowhere, false;
    }
  }

  /** The nodes and heads whose pointers a link leads to. */
  function NodeOf(l: Link): set<TimerNode> { if l.OfNode? then {l.node} else {} }
  function HeadOf(l: Link): set<TimerHead> { if l.OfHead? then {l.head} else {} }

  function Successor(timer: TimerNode): set<TimerNode>
    reads timer
  {
    if timer.next == null then {} else {timer.next}
  }

  function NextIn(nodes: seq<TimerNode>, i: nat): TimerNode?
    requires i <= |nodes|
  {
    if i == |nodes| then null else nodes[i]
  }

  function BackIn(head: TimerHead, nodes: seq<TimerNode>, i: nat): (l: Link)
    requires i < |nodes|
    ensures l != Nowhere
  {
    if i == 0 then OfHead(head) else OfNode(nodes[i - 1])
  }

  /** Following the forward links from `head` gives exactly `nodes`. */
  ghost predicate Chain(head: TimerHead, nodes: seq<TimerNode>)
    reads head, nodes
  {
    && (forall i, j :: 0 <= i < j < |nodes| ==> nodes[i] != nodes[j])
    && head.first == NextIn(nodes, 0)
    && forall i :: 0 <= i < |nodes| ==> nodes[i].next == NextIn(nodes, i + 1)
  }

  ghost predicate BackAt(head: TimerHead, nodes: seq<TimerNode>, i: nat)
    requires i < |nodes|
    reads nodes
  {
    nodes[i].pprev == BackIn(head, nodes, i)
  }

  /** Every node knows who points at it. */
  ghost predicate AllBack(head: TimerHead, nodes: seq<TimerNode>)
    reads nodes
  {
    forall i :: 0 <= i < |nodes| ==> BackAt(head, nodes, i)
  }

  function Without(nodes: seq<TimerNode>, k: nat): seq<TimerNode>
    requires k < |nodes|
  {
    nodes[..k] + nodes[k + 1..]
  }

  /** `__insert`. */
  method PutInFront(head: TimerHead, timer: TimerNode)
    modifies head, timer, if head.first == null then {} else {head.first}
    ensures head.first == timer && timer.next == old(head.first)
    ensures timer.pprev == OfHead(head) && timer.flag == old(timer.flag)
    ensures var n := old(head.first);
      n != null && n != timer ==> n.next == old(n.next) && n.flag == old(n.flag) && n.pprev == OfNode(timer)
  {
    timer.next := head.first;
    if head.first != null {
      head.first.pprev := OfNode(timer);
    }
    timer.pprev := OfHead(head);
    head.first := timer;
  }

  lemma ChainCons(head: TimerHead, timer: TimerNode, nodes: seq<TimerNode>)
    requires head.first == timer && timer !in nodes && timer.next == NextIn(nodes, 0)
    requires forall i, j :: 0 <= i < j < |nodes| ==> nodes[i] != nodes[j]
    requires forall i :: 0 <= i < |nodes| ==> nodes[i].next == NextIn(nodes, i + 1)
    ensures Chain(head, [timer] + nodes)
  {
    var r := [timer] + nodes;
    forall i | 0 <= i < |r| ensures r[i].next == NextIn(r, i + 1) {
      assert i > 0 ==> r[i] == nodes[i - 1];
    }
  }

  /** Put `timer` in front.  Even a front node that had lost its back link gets a right one. */
  method Insert(head: TimerHead, timer: TimerNode, ghost nodes: seq<TimerNode>)
    requires Chain(head, nodes) && timer !in nodes
    modifies head, timer, if nodes == [] then {} else {nodes[0]}
    ensures Chain(head, [timer] + nodes)
    ensures BackAt(head, [timer] + nodes, 0)
    ensures nodes != [] ==> BackAt(head, [timer] + nodes, 1)
    ensures forall i :: 1 <= i < |nodes| ==> nodes[i].pprev == old(nodes[i].pprev)
    ensures timer.flag == old(timer.flag) && forall i :: 0 <= i < |nodes| ==> nodes[i].flag == old(nodes[i].flag)
  {
    PutInFront(head, timer);
    assert forall i :: 0 <= i < |nodes| ==> nodes[i].next == old(nodes[i].next);
    ChainCons(head, timer, nodes);
  }

  /** `Without` in terms of the positions it keeps. */
  lemma WithoutAt(nodes: seq<TimerNode>, k: nat)
    requires k < |nodes|
    ensures |Without(nodes, k)| == |nodes| - 1
    ensures forall i :: 0 <= i < k ==> Without(nodes, k)[i] == nodes[i]
    ensures forall i :: k <= i < |nodes| - 1 ==> Without(nodes, k)[i] == nodes[i + 1]
  {
  }

  /** If the pointer in front of `k` points behind it, the links from `head` are a chain without it. */
  lemma ChainWithout(head: TimerHead, nodes: seq<TimerNode>, k: nat)
    requires k < |nodes| && forall i, j :: 0 <= i < j < |nodes| ==> nodes[i] != nodes[j]
    requires head.first == NextIn(nodes, if k == 0 then 1 else 0)
    requires forall i :: 0 <= i < |nodes| && i != k ==>
      nodes[i].next == NextIn(nodes, if i + 1 == k then k + 1 else i + 1)
    ensures Chain(head, Without(nodes, k))
  {
  }

  lemma ChainPrefix(head: TimerHead, nodes: seq<TimerNode>, k: nat)
    requires k < |nodes| && forall i, j :: 0 <= i < j < |nodes| ==> nodes[i] != nodes[j]
    requires head.first == NextIn(nodes, 0) && nodes[k].next == null
    requires forall i :: 0 <= i < k ==> nodes[i].next == NextIn(nodes, i + 1)
    ensures Chain(head, nodes[..k + 1])
  {
  }

  /** Without node `k` the back links are right exactly if that of its successor is. */
  lemma BackWithout(head: TimerHead, nodes: seq<TimerNode>, k: nat)
    requires k < |nodes|
    requires forall i :: 0 <= i < |nodes| && i != k && i != k + 1 ==> BackAt(head, nodes, i)
    ensures AllBack(head, Without(nodes, k)) <==> (k + 1 < |nodes| ==> nodes[k + 1].pprev == BackIn(head, nodes, k))
  {
    WithoutAt(nodes, k);
    var r := Without(nodes, k);
    forall i | 0 <= i < |r| && i != k ensures BackAt(head, r, i) {
      var i' := if i < k then i else i + 1;
      assert BackAt(head, nodes, i');
    }
    if k < |r| {
      assert BackAt(head, r, k) <==> nodes[k + 1].pprev == BackIn(head, nodes, k);
    }
  }

  /** The link leads to a pointer of the slot. */
  ghost predicate LeadsInto(l: Link, head: TimerHead, nodes: seq<TimerNode>) {
    l == OfHead(head) || (l.OfNode? && l.node in nodes)
  }

  /** Cancel a timer, which is at `k` of a slot, or not in it if `k` is its length.  Its back link is
      cleared before it is handed on.

      A timer of the slot that knows who points at it leaves it, and the other back links stay right
      exactly when nothing was behind it.  One that knows nobody, or somebody of another slot, stays and
      cuts off what was behind it.  A timer that has fired, or has never been armed, is left alone. */
  method TimerCancel(timer: TimerNode, ghost head: TimerHead, ghost nodes: seq<TimerNode>, ghost k: nat)
    requires Chain(head, nodes) && k <= |nodes|
    requires if k < |nodes| then nodes[k] == timer else timer !in nodes
    modifies HeadOf(timer.pprev)`first, NodeOf(timer.pprev)`next, timer`next, timer`pprev, Successor(timer)`pprev
    ensures old(timer.flag || (timer.pprev == Nowhere && timer.next == null)) ==>
      unchanged(timer) && unchanged(head) && forall i :: 0 <= i < |nodes| ==> unchanged(nodes[i])
    ensures !timer.flag ==> timer.next == null && timer.pprev == Nowhere
    ensures !timer.flag && k + 1 < |nodes| ==> nodes[k + 1].pprev == Nowhere
    ensures !timer.flag && k < |nodes| && old(BackAt(head, nodes, k)) ==> Chain(head, Without(nodes, k))
    ensures !timer.flag && k < |nodes| && old(AllBack(head, nodes)) ==>
      (AllBack(head, Without(nodes, k)) <==> old(timer.next) == null)
    ensures !timer.flag && k < |nodes| && !LeadsInto(old(timer.pprev), head, nodes) ==> Chain(head, nodes[..k + 1])
  {
    hide Without, AllBack, NextIn, BackIn;
    if timer.flag { return; }
    ghost var right := AllBack(head, nodes);
    ghost var links := LinksOf(nodes);
    AllBackLinks(head, nodes);
    if k < |nodes| {
      NextAt(head, nodes, k);
      LinkOf(head, nodes, k);
    }
    match timer.pprev {
      case Nowhere =>
      case OfHead(h) => h.first := timer.next;
      case OfNode(n) => n.next := timer.next;
    }
    timer.pprev := Nowhere;
    if timer.next != null {
      timer.next.pprev := timer.pprev;
      timer.next := null;
    }
    if k < |nodes| {
      if links[k] == BackIn(head, nodes, k) {
        ChainWithout(head, nodes, k);
      } else if !LeadsInto(links[k], head, nodes) {
        ChainPrefix(head, nodes, k);
      }
      if right {
        CancelledBack(head, nodes, k, links);
      }
    }
  }

  /** Cancelling a timer of a slot that knows who points at it, or nobody, stays within the slot. */
  lemma StaysInSlot(timer: TimerNode, head: TimerHead, nodes: seq<TimerNode>, k: nat)
    requires Chain(head, nodes) && k < |nodes| && nodes[k] == timer
    requires BackAt(head, nodes, k) || timer.pprev == Nowhere
    ensures HeadOf(timer.pprev) <= {head}
    ensures forall n :: n in NodeOf(timer.pprev) || n in Successor(timer) ==> n in nodes
  {
    NextAt(head, nodes, k);
  }

  lemma NextAt(head: TimerHead, nodes: seq<TimerNode>, k: nat)
    requires Chain(head, nodes) && k < |nodes|
    ensures nodes[k].next == if k + 1 < |nodes| then nodes[k + 1] else null
  {
  }

  lemma LinkOf(head: TimerHead, nodes: seq<TimerNode>, k: nat)
    requires k < |nodes|
    ensures BackIn(head, nodes, k) == if k == 0 then OfHead(head) else OfNode(nodes[k - 1])
  {
  }

  ghost function LinksOf(nodes: seq<TimerNode>): (r: seq<Link>)
    reads nodes
    ensures |r| == |nodes| && forall i :: 0 <= i < |nodes| ==> r[i] == nodes[i].pprev
  {
    seq(|nodes|, i requires 0 <= i < |nodes| reads nodes => nodes[i].pprev)
  }

  ghost predicate AllLinks(head: TimerHead, nodes: seq<TimerNode>, links: seq<Link>) {
    |links| == |nodes| && forall i :: 0 <= i < |nodes| ==> links[i] == BackIn(head, nodes, i)
  }

  lemma AllBackLinks(head: TimerHead, nodes: seq<TimerNode>)
    ensures AllBack(head, nodes) <==> AllLinks(head, nodes, LinksOf(nodes))
  {
    hide BackIn;
    if AllBack(head, nodes) {
      forall i | 0 <= i < |nodes| ensures LinksOf(nodes)[i] == BackIn(head, nodes, i) {
        assert BackAt(head, nodes, i);
      }
    }
    if AllLinks(head, nodes, LinksOf(nodes)) {
      forall i | 0 <= i < |nodes| ensures BackAt(head, nodes, i) {
        assert LinksOf(nodes)[i] == BackIn(head, nodes, i);
      }
    }
  }

  /** Without node `k`, whose successor has no back link, the others are right if they were. */
  lemma CancelledBack(head: TimerHead, nodes: seq<TimerNode>, k: nat, links: seq<Link>)
    requires k < |nodes| && AllLinks(head, nodes, links)
    requires forall i :: 0 <= i < |nodes| && i != k && i != k + 1 ==> nodes[i].pprev == links[i]
    requires k + 1 < |nodes| ==> nodes[k + 1].pprev == Nowhere
    ensures AllBack(head, Without(nodes, k)) <==> k + 1 == |nodes|
  {
    BackWithout(head, nodes, k);
  }

  // ---------- arming a pending timer again ----------

  /** Two lists share no node. */
  ghost predicate Apart(a: seq<TimerNode>, b: seq<TimerNode>) {
    forall n :: n in a ==> n !in b
  }

  /** Following the pointers from `head` leads through `front` to `to`. */
  ghost predicate Leads(head: TimerHead, front: seq<TimerNode>, to: TimerNode)
    reads head, front
  {
    && (forall i, j :: 0 <= i < j < |front| ==> front[i] != front[j])
    && head.first == NextIn(front + [to], 0)
    && forall i :: 0 <= i < |front| ==> front[i].next == NextIn(front + [to], i + 1)
  }

  lemma ChainLeads(head: TimerHead, nodes: seq<TimerNode>, k: nat)
    requires Chain(head, nodes) && k < |nodes|
    ensures Leads(head, nodes[..k], nodes[k]) && nodes[k] !in nodes[..k]
  {
    var front := nodes[..k] + [nodes[k]];
    forall i | 0 <= i <= k ensures NextIn(front, i) == NextIn(nodes, i) {
    }
  }

  /** A list that leads into another runs through both. */
  lemma LeadsJoin(head: TimerHead, front: seq<TimerNode>, to: TimerNode, other: TimerHead, rest: seq<TimerNode>)
    requires Leads(head, front, to) && Chain(other, [to] + rest) && Apart(front, [to] + rest)
    ensures Chain(head, front + ([to] + rest))
  {
    var back, r := [to] + rest, front + ([to] + rest);
    forall i | 0 <= i < |r| ensures r[i].next == NextIn(r, i + 1) {
      if i >= |front| {
        assert r[i] == back[i - |front|];
        assert NextIn(back, i - |front| + 1) == NextIn(r, i + 1);
      } else {
        assert NextIn(front + [to], i + 1) == NextIn(r, i + 1);
      }
    }
    forall i, j | 0 <= i < j < |r| ensures r[i] != r[j] {
      if i >= |front| {
        assert back[i - |front|] != back[j - |front|];
      } else if j >= |front| {
        assert r[i] in front && r[j] in back;
      }
    }
  }

  /** The parts of a list around node `k`, and another list apart from it. */
  lemma AroundNode(
    head: TimerHead, nodes: seq<TimerNode>, k: nat, others: seq<TimerNode>, front: seq<TimerNode>, less: seq<TimerNode>)
    requires Chain(head, nodes) && k < |nodes| && Apart(nodes, others)
    requires front == nodes[..k] && less == Without(nodes, k)
    ensures nodes[k] !in others && forall i :: 0 <= i < |others| ==> others[i] !in nodes
    ensures forall i :: 0 <= i < |front| ==> front[i] != nodes[k] && front[i] in nodes && front[i] !in others
    ensures forall i :: 0 <= i < |less| ==> less[i] != nodes[k] && less[i] in nodes && less[i] !in others
    ensures Apart(front, [nodes[k]] + others) && Apart(less, [nodes[k]] + others)
  {
    assert forall i :: 0 <= i < |less| ==> less[i] in nodes;
  }

  lemma NotApart(a: seq<TimerNode>, b: seq<TimerNode>, n: TimerNode)
    requires n in a && n in b
    ensures !Apart(a, b)
  {
  }

  lemma LinkIsSomewhere(head: TimerHead, nodes: seq<TimerNode>, k: nat)
    requires k < |nodes|
    ensures BackAt(head, nodes, k) ==> nodes[k].pprev != Nowhere
  {
  }

  /** Arm the pending timer at `k` again for another slot.  The two slots stay separate lists exactly if
      the timer knew who points at it; otherwise it hangs in both, and its old slot runs into the new
      one. */
  method Rearm(timer: TimerNode, ghost head: TimerHead, ghost nodes: seq<TimerNode>, ghost k: nat,
               other: TimerHead, ghost others: seq<TimerNode>)
    returns (ghost a: seq<TimerNode>, ghost b: seq<TimerNode>)
    requires Chain(head, nodes) && k < |nodes| && nodes[k] == timer && !timer.flag
    requires BackAt(head, nodes, k) || timer.pprev == Nowhere
    requires Chain(other, others) && head != other && Apart(nodes, others)
    modifies head, nodes, other, others
    ensures Chain(head, a) && Chain(other, b)
    ensures a == if old(BackAt(head, nodes, k)) then Without(nodes, k) else nodes[..k + 1] + others
    ensures b == [timer] + others
    ensures Apart(a, b) <==> old(BackAt(head, nodes, k))
    ensures k + 1 < |nodes| ==> nodes[k + 1].pprev == Nowhere
    ensures forall i :: 0 <= i < |nodes| ==> nodes[i].flag == old(nodes[i].flag)
  {
    hide NextIn, Apart, BackAt, Without;
    ghost var linked := BackAt(head, nodes, k);
    ghost var front, less := nodes[..k], Without(nodes, k);
    AroundNode(head, nodes, k, others, front, less);
    LinkIsSomewhere(head, nodes, k);
    StaysInSlot(timer, head, nodes, k);
    TimerCancel(timer, head, nodes, k);
    if !linked {
      ChainLeads(head, nodes[..k + 1], k);
      assert nodes[..k + 1][..k] == front;
    }
    assert linked ==> Chain(head, less);
    label Cancelled:
    Insert(other, timer, others);
    b := [timer] + others;
    if linked {
      a := less;
      assert forall i :: 0 <= i < |less| ==> less[i].next == old@Cancelled(less[i].next);
    } else {
      LeadsJoin(head, front, timer, other, others);
      a := nodes[..k + 1] + others;
      assert front + ([timer] + others) == a;
      NotApart(a, b, timer);
    }
  }

  /** The same for its own slot: it comes to the front, or, without its back link, the slot runs into
      itself, and following the pointers from the head never ends. */
  method RearmInPlace(timer: TimerNode, head: TimerHead, ghost nodes: seq<TimerNode>, ghost k: nat)
    requires Chain(head, nodes) && k < |nodes| && nodes[k] == timer && !timer.flag
    requires BackAt(head, nodes, k) || timer.pprev == Nowhere
    modifies head, nodes
    ensures old(BackAt(head, nodes, k)) ==> Chain(head, [timer] + Without(nodes, k))
    ensures !old(BackAt(head, nodes, k)) ==> forall list :: !Chain(head, list)
  {
    hide NextIn, BackAt, Without;
    ghost var linked := BackAt(head, nodes, k);
    ghost var front, less := nodes[..k], Without(nodes, k);
    AroundNode(head, nodes, k, [], front, less);
    LinkIsSomewhere(head, nodes, k);
    StaysInSlot(timer, head, nodes, k);
    TimerCancel(timer, head, nodes, k);
    if !linked {
      ChainLeads(head, nodes[..k + 1], k);
      assert nodes[..k + 1][..k] == front;
    }
    assert linked ==> Chain(head, less);
    NextIsIn(if linked then less else front + [timer], nodes);
    label Cancelled:
    PutInFront(head, timer);
    if linked {
      assert forall i :: 0 <= i < |less| ==> less[i].next == old@Cancelled(less[i].next);
      ChainCons(head, timer, less);
    } else {
      assert forall i :: 0 <= i < |front| ==> front[i].next == old@Cancelled(front[i].next);
      LoopHasNoEnd(head, front, timer);
    }
  }

  lemma NextIsIn(part: seq<TimerNode>, nodes: seq<TimerNode>)
    requires forall i :: 0 <= i < |part| ==> part[i] in nodes
    ensures NextIn(part, 0) == null || NextIn(part, 0) in nodes
  {
  }

  lemma LoopHasNoEnd(head: TimerHead, front: seq<TimerNode>, to: TimerNode)
    requires head.first == to && to.next == NextIn(front + [to], 0)
    requires forall i :: 0 <= i < |front| ==> front[i].next == NextIn(front + [to], i + 1)
    ensures forall list :: !Chain(head, list)
  {
    forall list ensures !Chain(head, list) {
      if Chain(head, list) {
        StaysInLoop(head, front, to, list, |list|);
        assert false;
      }
    }
  }

  /** Every pointer on the way leads to another node of the loop. */
  lemma {:induction false} StaysInLoop(head: TimerHead, front: seq<TimerNode>, to: TimerNode, list: seq<TimerNode>, n: nat)
    requires head.first == to && to.next == NextIn(front + [to], 0)
    requires forall i :: 0 <= i < |front| ==> front[i].next == NextIn(front + [to], i + 1)
    requires Chain(head, list) && n <= |list|
    ensures NextIn(list, n) != null && NextIn(list, n) in front + [to]
  {
    if n > 0 {
      StaysInLoop(head, front, to, list, n - 1);
      assert list[n - 1].next == NextIn(list, n);
    }
  }

  // ---------- the destructor ----------

  /** The nodes of a slot that know who points at them. */
  ghost function Known(head: TimerHead, nodes: seq<TimerNode>): set<TimerNode>
    reads nodes
  {
    KnownBy(head, nodes, LinksOf(nodes))
  }

  ghost function KnownBy(head: TimerHead, nodes: seq<TimerNode>, links: seq<Link>): set<TimerNode>
    requires |links| == |nodes|
  {
    set i | 0 <= i < |nodes| && links[i] == BackIn(head, nodes, i) :: nodes[i]
  }

  lemma KnownAt(head: TimerHead, nodes: seq<TimerNode>, links: seq<Link>, n: TimerNode)
    requires |links| == |nodes| && forall i, j :: 0 <= i < j < |nodes| ==> nodes[i] != nodes[j]
    ensures forall i :: 0 <= i < |nodes| && nodes[i] == n ==>
      (n in KnownBy(head, nodes, links) <==> links[i] == BackIn(head, nodes, i))
    ensures n in KnownBy(head, nodes, links) ==> n in nodes
  {
  }

  /** The pointer that `timer` would write belongs to the slot and holds something else than it writes. */
  ghost predicate Overwrites(timer: TimerNode, head: TimerHead, nodes: seq<TimerNode>)
    reads timer, head, nodes
  {
    match timer.pprev
    case Nowhere => false
    case OfHead(h) => h == head && head.first != timer.next
    case OfNode(n) => n in nodes && n.next != timer.next
  }

  /** The node that `timer` would tell who points at it belongs to the slot and knows better. */
  ghost predicate Misleads(timer: TimerNode, head: TimerHead, nodes: seq<TimerNode>)
    reads timer, nodes
  {
    exists i :: 0 <= i < |nodes| && nodes[i] == timer.next && BackAt(head, nodes, i) && nodes[i].pprev != timer.pprev
  }

  /** The destructor does a slot no harm: a timer of the slot knows who points at it, and a timer that is
      not in the slot any more writes no pointer and no back link of it wrong. */
  ghost predicate Harmless(timer: TimerNode, head: TimerHead, nodes: seq<TimerNode>, k: nat)
    reads timer, head, nodes
  {
    if k < |nodes| then BackAt(head, nodes, k)
    else !Overwrites(timer, head, nodes) && !Misleads(timer, head, nodes)
  }

  /** The nodes are a list, and those of `known` know who points at them. */
  ghost predicate InOrder(head: TimerHead, nodes: seq<TimerNode>, known: set<TimerNode>)
    reads head, nodes
  {
    Chain(head, nodes) && forall i :: 0 <= i < |nodes| && nodes[i] in known ==> BackAt(head, nodes, i)
  }

  /** The destructor of a timer, which is at `k` of a slot, or not in it if `k` is its length.  The slot
      is left without the timer, and with every back link that was right, exactly if that is harmless. */
  method Destroy(timer: TimerNode, ghost head: TimerHead, ghost nodes: seq<TimerNode>, ghost k: nat)
    requires Chain(head, nodes) && k <= |nodes|
    requires if k < |nodes| then nodes[k] == timer else timer !in nodes
    modifies HeadOf(timer.pprev)`first, NodeOf(timer.pprev)`next, Successor(timer)`pprev
    ensures InOrder(head, if k < |nodes| then Without(nodes, k) else nodes, old(Known(head, nodes)) - {timer})
       <==> old(Harmless(timer, head, nodes, k))
    ensures k == |nodes| ==> (Chain(head, nodes) <==> !old(Overwrites(timer, head, nodes)))
    ensures match old(timer.pprev)
      case Nowhere => true
      case OfHead(h) => h.first == old(timer.next)
      case OfNode(n) => n.next == old(timer.next)
    ensures old(timer.next) != null ==> old(timer.next).pprev == old(timer.pprev)
  {
    hide Without, NextIn, BackIn, KnownBy, InOrder, Misleads, TellsWrong;
    ghost var links := LinksOf(nodes);
    ghost var harmless, next := Harmless(timer, head, nodes, k), timer.next;
    if k < |nodes| {
      NextAt(head, nodes, k);
      FrontAt(head, nodes, k);
      LinkOf(head, nodes, k);
    } else {
      WouldMislead(timer, head, nodes);
    }
    match timer.pprev {
      case Nowhere =>
      case OfHead(h) => h.first := timer.next;
      case OfNode(n) => n.next := timer.next;
    }
    if timer.next != null {
      timer.next.pprev := timer.pprev;
    }
    if k == |nodes| {
      KnownStays(head, nodes, links, timer, next, timer.pprev);
    } else if harmless {
      ChainWithout(head, nodes, k);
      KnownWithout(head, nodes, k, links);
    } else {
      StillThere(head, nodes, k);
      NotInOrder(head, Without(nodes, k), KnownBy(head, nodes, links) - {timer});
    }
  }

  lemma NotInOrder(head: TimerHead, nodes: seq<TimerNode>, known: set<TimerNode>)
    requires !Chain(head, nodes)
    ensures !InOrder(head, nodes, known)
  {
  }

  /** The pointer in front of a node. */
  lemma FrontAt(head: TimerHead, nodes: seq<TimerNode>, k: nat)
    requires Chain(head, nodes) && k < |nodes|
    ensures if k == 0 then head.first == nodes[0] else nodes[k - 1].next == nodes[k]
  {
  }

  lemma StillThere(head: TimerHead, nodes: seq<TimerNode>, k: nat)
    requires k < |nodes| && forall i, j :: 0 <= i < j < |nodes| ==> nodes[i] != nodes[j]
    requires if k == 0 then head.first == nodes[0] else nodes[k - 1].next == nodes[k]
    ensures !Chain(head, Without(nodes, k))
  {
    WithoutAt(nodes, k);
    var r := Without(nodes, k);
    assert k < |r| ==> r[k] == nodes[k + 1];
    assert Chain(head, r) && k > 0 ==> r[k - 1].next == NextIn(r, k);
  }

  lemma KnownWithout(head: TimerHead, nodes: seq<TimerNode>, k: nat, links: seq<Link>)
    requires k < |nodes| == |links| && links[k] == BackIn(head, nodes, k)
    requires forall i, j :: 0 <= i < j < |nodes| ==> nodes[i] != nodes[j]
    requires forall i :: 0 <= i < |nodes| && i != k && i != k + 1 ==> nodes[i].pprev == links[i]
    requires k + 1 < |nodes| ==> nodes[k + 1].pprev == links[k]
    requires Chain(head, Without(nodes, k))
    ensures InOrder(head, Without(nodes, k), KnownBy(head, nodes, links) - {nodes[k]})
  {
    hide KnownBy, Without, Chain;
    WithoutAt(nodes, k);
    var r := Without(nodes, k);
    forall i | 0 <= i < |r| && r[i] in KnownBy(head, nodes, links) ensures BackAt(head, r, i) {
      var i' := if i < k then i else i + 1;
      KnownAt(head, nodes, links, nodes[i']);
    }
  }

  lemma WouldMislead(timer: TimerNode, head: TimerHead, nodes: seq<TimerNode>)
    ensures Misleads(timer, head, nodes) <==> TellsWrong(head, nodes, LinksOf(nodes), timer.next, timer.pprev)
  {
  }

  predicate TellsWrong(head: TimerHead, nodes: seq<TimerNode>, links: seq<Link>, next: TimerNode?, told: Link)
    requires |links| == |nodes|
  {
    exists i :: 0 <= i < |nodes| && nodes[i] == next && links[i] == BackIn(head, nodes, i) && links[i] != told
  }

  /** If only the link of `next` has been written, all that were known still are exactly if it was told
      what it knew already. */
  lemma KnownStays(
      head: TimerHead, nodes: seq<TimerNode>, links: seq<Link>, timer: TimerNode, next: TimerNode?, told: Link)
    requires |links| == |nodes| && forall i, j :: 0 <= i < j < |nodes| ==> nodes[i] != nodes[j]
    requires forall i :: 0 <= i < |nodes| ==> nodes[i].pprev == if nodes[i] == next then told else links[i]
    requires timer !in nodes
    ensures InOrder(head, nodes, KnownBy(head, nodes, links) - {timer})
       <==> Chain(head, nodes) && !TellsWrong(head, nodes, links, next, told)
  {
    hide KnownBy, BackIn, Chain;
    forall i | 0 <= i < |nodes| ensures nodes[i] in KnownBy(head, nodes, links) <==> links[i] == BackIn(head, nodes, i) {
      KnownAt(head, nodes, links, nodes[i]);
    }
  }

  // ---------- instances ----------

  /** Cancelling the first and then the second timer of any slot leaves the second in the slot, where
      it will still fire, and loses all the others, which will not. */
  method CancelTwice(head: TimerHead, first: TimerNode, second: TimerNode, ghost nodes: seq<TimerNode>)
    requires Chain(head, nodes) && |nodes| >= 2 && BackAt(head, nodes, 0)
    requires first == nodes[0] && second == nodes[1] && !first.flag && !second.flag
    modifies head, nodes`next, nodes`pprev
    ensures Chain(head, [second])
  {
    hide Chain, BackAt;
    ghost var rest := nodes[1..];
    assert Without(nodes, 0) == rest && rest[..1] == [second];
    StaysInSlot(first, head, nodes, 0);
    TimerCancel(first, head, nodes, 0);
    StaysInSlot(second, head, rest, 0);
    TimerCancel(second, head, rest, 0);
  }

  /** Arming the first timer of any slot again for a second slot and then the second for a third leaves
      the second timer in its old slot as well, with everything that was in the third behind it: all of
      it fires, or is moved, when the old slot is reached. */
  method RearmTwice(head: TimerHead, first: TimerNode, second: TimerNode, ghost nodes: seq<TimerNode>,
                    other: TimerHead, ghost others: seq<TimerNode>, third: TimerHead, ghost rest: seq<TimerNode>)
    requires Chain(head, nodes) && |nodes| >= 2 && BackAt(head, nodes, 0)
    requires first == nodes[0] && second == nodes[1] && !first.flag && !second.flag
    requires Chain(other, others) && Chain(third, rest) && head != other && head != third && other != third
    requires Apart(nodes, others) && Apart(nodes, rest) && Apart(others, rest)
    modifies head, nodes, other, others, third, rest
    ensures Chain(head, [second] + rest) && Chain(third, [second] + rest)
  {
    hide Chain, NextIn, BackAt, Without, Apart;
    ghost var tail := nodes[1..];
    ApartLess(nodes, others, rest);
    ghost var a, b := Rearm(first, head, nodes, 0, other, others);
    LinkIsSomewhere(head, tail, 0);
    assert Chain(third, rest);
    a, b := Rearm(second, head, tail, 0, third, rest);
  }

  lemma ApartLess(nodes: seq<TimerNode>, others: seq<TimerNode>, rest: seq<TimerNode>)
    requires |nodes| >= 2 && Apart(nodes, rest) && Apart(others, rest)
    ensures Apart(nodes[1..], rest) && Without(nodes, 0) == nodes[1..] && nodes[1..][..1] + rest == [nodes[1]] + rest
    ensures forall i :: 0 <= i < |rest| ==> rest[i] !in nodes && rest[i] !in others
  {
  }

  /** Firing a slot: its timers are taken out and marked, but keep their links to the slot and to each
      other. */
  method FireSlot(head: TimerHead, ghost nodes: seq<TimerNode>)
    requires Chain(head, nodes)
    modifies head, nodes`flag
    ensures Chain(head, [])
    ensures forall i :: 0 <= i < |nodes| ==> nodes[i].flag
  {
    var timer := head.first;
    head.first := null;
    ghost var i := 0;
    while timer != null
      invariant head.first == null && i <= |nodes| && timer == NextIn(nodes, i)
      invariant forall j :: 0 <= j < i ==> nodes[j].flag
      decreases |nodes| - i
    {
      var nextTimer := timer.next;
      timer.flag := true;
      timer := nextTimer;
      i := i + 1;
    }
  }

  /** Destroying a timer that has fired, after another has been armed into the slot it fired from, loses
      that other timer. */
  method DestroyAfterFiring(head: TimerHead, timer: TimerNode, other: TimerNode)
    requires Chain(head, [timer]) && BackAt(head, [timer], 0) && other != timer
    modifies head, timer, other
    ensures Chain(head, [])
  {
    FireSlot(head, [timer]);
    Insert(head, other, []);
    assert Chain(head, [other]);
    Destroy(timer, head, [other], 1);
  }

  /** Three neighbours fire from one slot, the third is armed again for another slot, and the second is
      destroyed: then the third takes the first for what points at it.  Cancelling it leaves it in its
      slot and loses what is behind it. */
  method DestroyInFront(head: TimerHead, ghost nodes: seq<TimerNode>, ghost k: nat,
                        first: TimerNode, second: TimerNode, third: TimerNode,
                        other: TimerHead, ghost others: seq<TimerNode>)
    requires Chain(head, nodes) && AllBack(head, nodes) && k + 2 < |nodes|
    requires first == nodes[k] && second == nodes[k + 1] && third == nodes[k + 2]
    requires Chain(other, others) && head != other && Apart(nodes, others)
    modifies head, nodes, other, others
    ensures Chain(other, [third]) && !third.flag
  {
    hide NextIn, AllBack, Apart, Chain, Known, InOrder, Harmless;
    Neighbours(head, nodes, k, others);
    FireSlot(head, nodes);
    assert Chain(other, others);
    third.flag := false;
    Insert(other, third, others);
    ghost var slot := [third] + others;
    NextAt(other, slot, 0);
    assert slot[1..] == others;
    Destroy(second, other, slot, |slot|);
    assert third.pprev == OfNode(first);
    assert Chain(other, slot);
    TimerCancel(third, other, slot, 0);
    assert slot[..1] == [third];
  }

  lemma Neighbours(head: TimerHead, nodes: seq<TimerNode>, k: nat, others: seq<TimerNode>)
    requires Chain(head, nodes) && AllBack(head, nodes) && k + 2 < |nodes| && Apart(nodes, others)
    ensures nodes[k + 1].next == nodes[k + 2] && nodes[k + 1].pprev == OfNode(nodes[k])
    ensures nodes[k] != nodes[k + 1] && nodes[k + 1] != nodes[k + 2] && nodes[k] != nodes[k + 2]
    ensures forall i :: 0 <= i < |others| ==> others[i] !in nodes
    ensures forall i :: k <= i <= k + 2 ==> nodes[i] !in others
  {
    assert BackAt(head, nodes, k + 1);
  }
}
