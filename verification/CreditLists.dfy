/**
 The two run queues as linked lists: every client stores the iterator of its own
 node, and the loop that charges a served request unlinks and relinks through it.
 */
module CreditLists {
  import opened CreditPolicy
  import opened RequestLists
  import opened Sequences

  /** A list node; the handle stands for its address, which is what an iterator holds. */
  datatype Node = Node(handle: nat, clientId: int)

  /** `position` is the stored list iterator. */
  datatype Credit = Credit(clientId: int, priority: real, credit: real, kind: CreditType, position: nat)

  /** `next` is an address not yet in use. */
  datatype Lists = Lists(credits: map<int, Credit>, under: seq<Node>, over: seq<Node>, next: nat)

  function Ids(q: seq<Node>): (ids: seq<int>)
    ensures |ids| == |q|
    ensures forall k :: 0 <= k < |q| ==> ids[k] == q[k].clientId
  {
    seq(|q|, k requires 0 <= k < |q| => q[k].clientId)
  }

  function AccountOf(a: Credit): Account {
    Account(a.priority, a.credit, a.kind)
  }

  function Accounts(credits: map<int, Credit>): (accounts: map<int, Account>)
    ensures accounts.Keys == credits.Keys
  {
    map c | c in credits :: AccountOf(credits[c])
  }

  /** The state of the policy that the lists stand for. */
  function Seen(l: Lists, workers: nat, order: seq<int>, requests: map<int, seq<Request>>, count: int): Sched {
    Sched(workers, Accounts(l.credits), order, Ids(l.under), Ids(l.over), requests, count)
  }

  /** list::erase(iterator). */
  function Erase(q: seq<Node>, handle: nat): (q': seq<Node>)
    ensures |q'| <= |q|
    ensures forall x :: x in q' <==> x in q && x.handle != handle
  {
    if q == [] then []
    else
      var n := |q| - 1;
      if q[n].handle == handle then Erase(q[..n], handle) else Erase(q[..n], handle) + [q[n]]
  }

  /** Credit::enqueue of an idle client, and the tail of Credit::schedule. */
  function Push(l: Lists, c: int): (l': Lists)
    requires c in l.credits
  {
    var kind := Standing(l.credits[c].credit);
    var node := Node(l.next, c);
    Lists(l.credits[c := l.credits[c].(kind := kind, position := l.next)],
          if kind == UNDER then l.under + [node] else l.under,
          if kind == OVER then l.over + [node] else l.over,
          l.next + 1)
  }

  /** Credit::dequeue of a client that is not idle. */
  function Unlink(l: Lists, c: int): (l': Lists)
    requires c in l.credits
  {
    match l.credits[c].kind
    case UNDER => l.(under := Erase(l.under, l.credits[c].position))
    case OVER => l.(over := Erase(l.over, l.credits[c].position))
    case IDLE => l
  }

  function Raise(l: Lists, o: int, gain: real): (l': Lists)
    requires o in l.credits
  {
    l.(credits := l.credits[o := l.credits[o].(credit := l.credits[o].credit + gain)])
  }

  /** One round of the loop in Credit::schedule. */
  function Requeue(l: Lists, o: int, gain: real): (l': Lists)
    requires o in l.credits
    ensures l'.credits.Keys == l.credits.Keys
  {
    if l.credits[o].kind == IDLE then Raise(l, o, gain) else Push(Unlink(Raise(l, o, gain), o), o)
  }

  /** The same round for any client; the served one is passed over. */
  function AfterRound(l: Lists, o: int, c: int, workers: nat, fileSize: nat): (l': Lists)
    requires o in l.credits && 0 < workers
    ensures l'.credits.Keys == l.credits.Keys
  {
    if o == c then l else Requeue(l, o, Gain(l.credits[o].priority, fileSize, workers))
  }

  /** The first k rounds. */
  function AfterRounds(l: Lists, order: seq<int>, c: int, workers: nat, fileSize: nat, k: nat): (l': Lists)
    requires 0 < workers && k <= |order| && forall i :: 0 <= i < |order| ==> order[i] in l.credits
    ensures l'.credits.Keys == l.credits.Keys
  {
    if k == 0 then l
    else AfterRound(AfterRounds(l, order, c, workers, fileSize, k - 1), order[k - 1], c, workers, fileSize)
  }

  /** The tail of Credit::schedule: c is charged and, if it has more requests, linked again. */
  function Charge(l: Lists, c: int, cost: real, backlog: bool): (l': Lists)
    requires c in l.credits
  {
    var charged := Raise(l, c, -cost);
    if backlog then Push(charged, c)
    else charged.(credits := charged.credits[c := charged.credits[c].(kind := IDLE)])
  }

  /** Credit::schedule from its call of dequeue on. */
  function Scheduled(l: Lists, order: seq<int>, c: int, workers: nat, fileSize: nat, backlog: bool): (l': Lists)
    requires 0 < workers && c in l.credits && forall i :: 0 <= i < |order| ==> order[i] in l.credits
  {
    Charge(AfterRounds(Unlink(l, c), order, c, workers, fileSize, |order|), c, Cost(fileSize, workers), backlog)
  }

  // ---- iterators name their own nodes ----

  predicate HandlesApart(q: seq<Node>) {
    forall j, k :: 0 <= j < k < |q| ==> q[j].handle != q[k].handle
  }

  ghost predicate LinkedQueue(q: seq<Node>, l: Lists, kind: CreditType) {
    && (forall k :: 0 <= k < |q| ==>
                      && q[k].clientId in l.credits && l.credits[q[k].clientId].kind == kind
                      && l.credits[q[k].clientId].position == q[k].handle < l.next)
    && HandlesApart(q)
  }

  ghost predicate Linked(l: Lists) {
    LinkedQueue(l.under, l, UNDER) && LinkedQueue(l.over, l, OVER)
  }

  /** Erasing through a client's iterator removes that client and nobody else. */
  lemma {:induction false} EraseIsWithout(q: seq<Node>, handle: nat, c: int)
    requires forall k :: 0 <= k < |q| ==> (q[k].handle == handle <==> q[k].clientId == c)
    ensures Ids(Erase(q, handle)) == Without(Ids(q), c)
  {
    if q != [] {
      var n := |q| - 1;
      EraseIsWithout(q[..n], handle, c);
      assert Ids(q)[..n] == Ids(q[..n]);
      var rest := Erase(q[..n], handle);
      var front := Without(Ids(q)[..n], c);
      assert Without(Ids(q), c) == if Ids(q)[n] == c then front else front + [Ids(q)[n]];
      assert Ids(rest + [q[n]]) == Ids(rest) + [q[n].clientId];
      assert Ids(Erase(q, handle)) == Without(Ids(q), c);
    } else {
      assert Ids(q) == [];
    }
  }

  /** The last handle differs from every handle among the nodes before it. */
  lemma LastHandleApart(q: seq<Node>, rest: seq<Node>)
    requires q != [] && HandlesApart(q) && forall x :: x in rest ==> x in q[..|q| - 1]
    ensures forall k :: 0 <= k < |rest| ==> rest[k].handle != q[|q| - 1].handle
  {
    forall k | 0 <= k < |rest|
      ensures rest[k].handle != q[|q| - 1].handle
    {
      var x := rest[k];
      assert x in rest;
      var i :| 0 <= i < |q| - 1 && q[..|q| - 1][i] == x;
      assert q[i] == x;
    }
  }

  lemma {:induction false} EraseKeepsHandlesApart(q: seq<Node>, handle: nat)
    requires HandlesApart(q)
    ensures HandlesApart(Erase(q, handle))
  {
    if q == [] {
    } else {
      var n := |q| - 1;
      assert HandlesApart(q[..n]);
      EraseKeepsHandlesApart(q[..n], handle);
      LastHandleApart(q, Erase(q[..n], handle));
    }
  }

  /** Unlinking a client that is in its queue removes it, from there only. */
  lemma UnlinkRemoves(l: Lists, c: int)
    requires Linked(l) && c in l.credits
    requires l.credits[c].kind == UNDER ==> c in Ids(l.under)
    requires l.credits[c].kind == OVER ==> c in Ids(l.over)
    ensures Linked(Unlink(l, c)) && Unlink(l, c).credits == l.credits && Unlink(l, c).next == l.next
    ensures Ids(Unlink(l, c).under) == Without(Ids(l.under), c)
    ensures Ids(Unlink(l, c).over) == Without(Ids(l.over), c)
  {
    UnlinkQueue(l, l.under, UNDER, c);
    UnlinkQueue(l, l.over, OVER, c);
  }

  lemma UnlinkQueue(l: Lists, q: seq<Node>, kind: CreditType, c: int)
    requires LinkedQueue(q, l, kind) && c in l.credits
    requires l.credits[c].kind == kind ==> c in Ids(q)
    ensures l.credits[c].kind != kind ==> Without(Ids(q), c) == Ids(q)
    ensures l.credits[c].kind == kind ==>
              var q' := Erase(q, l.credits[c].position);
              Ids(q') == Without(Ids(q), c) && LinkedQueue(q', l, kind)
  {
    var h := l.credits[c].position;
    if l.credits[c].kind == kind {
      var n :| 0 <= n < |q| && Ids(q)[n] == c;
      assert q[n].handle == h;
      EraseIsWithout(q, h, c);
      EraseKeepsHandlesApart(q, h);
      var q' := Erase(q, h);
      forall k | 0 <= k < |q'|
        ensures q'[k] in q
      {
        assert q'[k] in q';
      }
    } else {
      WithoutAbsent(Ids(q), c);
    }
  }

  lemma RaiseKeepsLinks(l: Lists, o: int, gain: real)
    requires Linked(l) && o in l.credits
    ensures Linked(Raise(l, o, gain))
  {
  }

  lemma IdsAppend(q: seq<Node>, node: Node)
    ensures Ids(q + [node]) == Ids(q) + [node.clientId]
  {
  }

  lemma PushQueue(l: Lists, q: seq<Node>, kind: CreditType, c: int)
    requires LinkedQueue(q, l, kind) && c in l.credits && c !in Ids(q)
    ensures LinkedQueue(if Standing(l.credits[c].credit) == kind then q + [Node(l.next, c)] else q, Push(l, c), kind)
  {
    assert forall k :: 0 <= k < |q| ==> Ids(q)[k] == q[k].clientId;
  }

  lemma PushKeepsLinks(l: Lists, c: int)
    requires Linked(l) && c in l.credits && c !in Ids(l.under) && c !in Ids(l.over)
    ensures Linked(Push(l, c))
  {
    PushQueue(l, l.under, UNDER, c);
    PushQueue(l, l.over, OVER, c);
  }

  /** Pushing a client that is in neither queue puts it at the end of the one its credit says. */
  lemma PushAppends(l: Lists, c: int)
    requires Linked(l) && c in l.credits && c !in Ids(l.under) && c !in Ids(l.over)
    ensures var l', kind := Push(l, c), Standing(l.credits[c].credit);
            && Linked(l')
            && Ids(l'.under) == (if kind == UNDER then Ids(l.under) + [c] else Ids(l.under))
            && Ids(l'.over) == (if kind == OVER then Ids(l.over) + [c] else Ids(l.over))
            && Accounts(l'.credits) == Accounts(l.credits)[c := AccountOf(l.credits[c]).(kind := kind)]
  {
    PushKeepsLinks(l, c);
    IdsAppend(l.under, Node(l.next, c));
    IdsAppend(l.over, Node(l.next, c));
  }

  // ---- the loop is a rebuild ----

  /** The clients of q that the loop has yet to visit. */
  function Unvisited(q: seq<int>, order: seq<int>, k: nat): (q': seq<int>)
    requires k <= |order|
    ensures forall x :: x in q' <==> x in q && x in order[k..]
  {
    if q == [] then []
    else
      var n := |q| - 1;
      if q[n] in order[k..] then Unvisited(q[..n], order, k) + [q[n]] else Unvisited(q[..n], order, k)
  }

  lemma {:induction false} VisitOne(q: seq<int>, order: seq<int>, k: nat)
    requires k < |order| && Distinct(order)
    ensures Without(Unvisited(q, order, k), order[k]) == Unvisited(q, order, k + 1)
  {
    if q == [] {
    } else {
      var n := |q| - 1;
      VisitOne(q[..n], order, k);
      assert order[k..] == [order[k]] + order[k + 1..] && order[k] !in order[k + 1..];
      var rest := Unvisited(q[..n], order, k);
      assert (rest + [q[n]])[..|rest|] == rest;
    }
  }

  lemma {:induction false} AllUnvisited(q: seq<int>, order: seq<int>)
    requires forall i :: 0 <= i < |q| ==> q[i] in order
    ensures Unvisited(q, order, 0) == q
  {
    if q == [] {
    } else {
      var n := |q| - 1;
      assert order[0..] == order;
      AllUnvisited(q[..n], order);
      assert q == q[..n] + [q[n]];
    }
  }

  lemma {:induction false} NoneUnvisited(q: seq<int>, order: seq<int>)
    ensures Unvisited(q, order, |order|) == []
  {
    if q == [] {
    } else {
      NoneUnvisited(q[..|q| - 1], order);
    }
  }

  lemma WithoutOther(q: seq<int>, x: int, c: int)
    requires x != c
    ensures Without(q + [x], c) == Without(q, c) + [x]
  {
    assert (q + [x])[..|q|] == q;
  }

  lemma {:induction false} WithoutConcat(a: seq<int>, b: seq<int>, c: int)
    requires c !in b
    ensures Without(a + b, c) == Without(a, c) + b
  {
    if b == [] {
      assert a + b == a;
    } else {
      var front, x := b[..|b| - 1], b[|b| - 1];
      assert b == front + [x];
      WithoutConcat(a, front, c);
      WithoutOther(a + front, x, c);
      assert a + b == (a + front) + [x];
      assert Without(a, c) + b == (Without(a, c) + front) + [x];
    }
  }

  /** A queue half way through the loop: old members not yet visited, then the visited ones in order. */
  function Halfway(q: seq<int>, order: seq<int>, accounts: map<int, Account>, kind: CreditType, c: int, k: nat): seq<int>
    requires k <= |order|
  {
    Unvisited(q, order, k) + OfKind(order, accounts, kind, c, k)
  }

  /** Visiting a client moves it from the first part to the second, or leaves it where it belongs. */
  lemma HalfwayStep(q: seq<int>, order: seq<int>, accounts: map<int, Account>, kind: CreditType, c: int, k: nat)
    requires k < |order| && Distinct(order) && order[k] in accounts && (order[k] == c ==> c !in q)
    ensures var o := order[k];
            Halfway(q, order, accounts, kind, c, k + 1)
            == Without(Halfway(q, order, accounts, kind, c, k), o)
            + (if o != c && accounts[o].kind == kind then [o] else [])
  {
    var o := order[k];
    assert o !in order[..k];
    VisitOne(q, order, k);
    WithoutConcat(Unvisited(q, order, k), OfKind(order, accounts, kind, c, k), o);
  }

  /** The queues after k rounds. */
  ghost predicate QueuesAt(l0: Lists, l: Lists, order: seq<int>, accounts: map<int, Account>, c: int, k: nat)
    requires k <= |order|
  {
    && Linked(l)
    && Ids(l.under) == Halfway(Ids(l0.under), order, accounts, UNDER, c, k)
    && Ids(l.over) == Halfway(Ids(l0.over), order, accounts, OVER, c, k)
  }

  /** The credits after k rounds: settled for those visited, as before for the others. */
  ghost predicate CreditsAt(l0: Lists, l: Lists, order: seq<int>, accounts: map<int, Account>, c: int, k: nat)
    requires k <= |order|
  {
    && l.credits.Keys == l0.credits.Keys == accounts.Keys
    && forall i :: 0 <= i < |order| && order[i] in l.credits ==>
                     if i < k && order[i] != c then AccountOf(l.credits[order[i]]) == accounts[order[i]]
                     else l.credits[order[i]] == l0.credits[order[i]]
  }

  ghost predicate LoopInvariant(l0: Lists, l: Lists, order: seq<int>, accounts: map<int, Account>, c: int, k: nat)
    requires k <= |order|
  {
    QueuesAt(l0, l, order, accounts, c, k) && CreditsAt(l0, l, order, accounts, c, k)
  }

  /** The queues name exactly the clients of their standing, apart from c, which has just been unlinked. */
  ghost predicate UnlinkedOnly(l: Lists, c: int) {
    && Linked(l)
    && (forall x :: x in Ids(l.under) <==> x in l.credits && l.credits[x].kind == UNDER && x != c)
    && (forall x :: x in Ids(l.over) <==> x in l.credits && l.credits[x].kind == OVER && x != c)
  }

  /** Before its turn a client is in the queue of its old standing. */
  lemma NotYetVisited(l0: Lists, l: Lists, order: seq<int>, accounts: map<int, Account>, c: int, k: nat)
    requires k < |order| && Arranges(order, l0.credits.Keys) && UnlinkedOnly(l0, c)
    requires LoopInvariant(l0, l, order, accounts, c, k)
    ensures var o := order[k];
            && o in l.credits && l.credits[o] == l0.credits[o]
            && (o in Ids(l.under) <==> o != c && l0.credits[o].kind == UNDER)
            && (o in Ids(l.over) <==> o != c && l0.credits[o].kind == OVER)
  {
    var o := order[k];
    assert o in order && o in order[k..];
    forall i | 0 <= i < k
      ensures order[i] != o
    {
    }
    assert o !in order[..k];
  }

  /** What a round for o does to the lists, on the ids. */
  ghost predicate Visited(l: Lists, l': Lists, o: int, account: Account) {
    && Linked(l') && l'.credits.Keys == l.credits.Keys && o in l.credits
    && Ids(l'.under) == Without(Ids(l.under), o) + (if account.kind == UNDER then [o] else [])
    && Ids(l'.over) == Without(Ids(l.over), o) + (if account.kind == OVER then [o] else [])
    && AccountOf(l'.credits[o]) == account
    && (forall x :: x in l.credits && x != o ==> l'.credits[x] == l.credits[x])
  }

  lemma RequeueVisits(l: Lists, o: int, gain: real)
    requires Linked(l) && o in l.credits
    requires o in Ids(l.under) <==> l.credits[o].kind == UNDER
    requires o in Ids(l.over) <==> l.credits[o].kind == OVER
    ensures var a := l.credits[o];
            Visited(l, Requeue(l, o, gain), o,
                    Account(a.priority, a.credit + gain, if a.kind == IDLE then IDLE else Standing(a.credit + gain)))
  {
    RaiseKeepsLinks(l, o, gain);
    if l.credits[o].kind == IDLE {
      IdleStays(l, o, gain);
    } else {
      var raised := Raise(l, o, gain);
      RequeueBusy(raised, o);
      assert forall x :: x in l.credits && x != o ==> raised.credits[x] == l.credits[x];
    }
  }

  lemma IdleStays(l: Lists, o: int, gain: real)
    requires o in l.credits && l.credits[o].kind == IDLE && Linked(Raise(l, o, gain))
    requires o !in Ids(l.under) && o !in Ids(l.over)
    ensures var a := l.credits[o];
            Visited(l, Raise(l, o, gain), o, Account(a.priority, a.credit + gain, IDLE))
  {
    WithoutAbsent(Ids(l.under), o);
    WithoutAbsent(Ids(l.over), o);
  }

  lemma UnlinkedThenPushed(l: Lists, u: Lists, o: int)
    requires Linked(u) && o in l.credits && u.credits == l.credits
    requires Ids(u.under) == Without(Ids(l.under), o) && Ids(u.over) == Without(Ids(l.over), o)
    ensures var a := l.credits[o];
            Visited(l, Push(u, o), o, Account(a.priority, a.credit, Standing(a.credit)))
  {
    PushAppends(u, o);
  }

  lemma RequeueBusy(l: Lists, o: int)
    requires Linked(l) && o in l.credits && l.credits[o].kind != IDLE
    requires o in Ids(l.under) <==> l.credits[o].kind == UNDER
    requires o in Ids(l.over) <==> l.credits[o].kind == OVER
    ensures var a := l.credits[o];
            Visited(l, Push(Unlink(l, o), o), o, Account(a.priority, a.credit, Standing(a.credit)))
  {
    UnlinkRemoves(l, o);
    UnlinkedThenPushed(l, Unlink(l, o), o);
  }

  lemma QueuesStep(l0: Lists, l: Lists, l': Lists, order: seq<int>, accounts: map<int, Account>, c: int, k: nat)
    requires k < |order| && Distinct(order) && order[k] in accounts && order[k] != c
    requires QueuesAt(l0, l, order, accounts, c, k) && Visited(l, l', order[k], accounts[order[k]])
    ensures QueuesAt(l0, l', order, accounts, c, k + 1)
  {
    HalfwayStep(Ids(l0.under), order, accounts, UNDER, c, k);
    HalfwayStep(Ids(l0.over), order, accounts, OVER, c, k);
  }

  lemma CreditsStep(l0: Lists, l: Lists, l': Lists, order: seq<int>, accounts: map<int, Account>, c: int, k: nat)
    requires k < |order| && Distinct(order) && order[k] in accounts && order[k] != c
    requires CreditsAt(l0, l, order, accounts, c, k) && Visited(l, l', order[k], accounts[order[k]])
    ensures CreditsAt(l0, l', order, accounts, c, k + 1)
  {
  }

  lemma SkipStep(l0: Lists, l: Lists, order: seq<int>, accounts: map<int, Account>, c: int, k: nat)
    requires k < |order| && Arranges(order, l0.credits.Keys) && order[k] == c && UnlinkedOnly(l0, c)
    requires LoopInvariant(l0, l, order, accounts, c, k)
    ensures LoopInvariant(l0, l, order, accounts, c, k + 1)
  {
    NotYetVisited(l0, l, order, accounts, c, k);
    HalfwayStep(Ids(l0.under), order, accounts, UNDER, c, k);
    HalfwayStep(Ids(l0.over), order, accounts, OVER, c, k);
    WithoutAbsent(Ids(l.under), c);
    WithoutAbsent(Ids(l.over), c);
  }

  lemma LoopStep(l0: Lists, l: Lists, order: seq<int>, accounts: map<int, Account>, c: int, gain: real, k: nat)
    requires k < |order| && Arranges(order, l0.credits.Keys) && order[k] != c && UnlinkedOnly(l0, c)
    requires LoopInvariant(l0, l, order, accounts, c, k)
    requires order[k] in l0.credits
    requires var a := l0.credits[order[k]];
             accounts[order[k]] == Account(a.priority, a.credit + gain, if a.kind == IDLE then IDLE else Standing(a.credit + gain))
    ensures LoopInvariant(l0, Requeue(l, order[k], gain), order, accounts, c, k + 1)
  {
    var o := order[k];
    NotYetVisited(l0, l, order, accounts, c, k);
    RequeueVisits(l, o, gain);
    QueuesStep(l0, l, Requeue(l, o, gain), order, accounts, c, k);
    CreditsStep(l0, l, Requeue(l, o, gain), order, accounts, c, k);
  }

  lemma StartUnvisited(q: seq<int>, order: seq<int>, clients: set<int>, accounts: map<int, Account>, kind: CreditType, c: int)
    requires Arranges(order, clients) && forall i :: 0 <= i < |q| ==> q[i] in clients
    ensures Halfway(q, order, accounts, kind, c, 0) == q
  {
    forall i | 0 <= i < |q|
      ensures q[i] in order
    {
      var x := q[i];
      assert x in clients;
    }
    AllUnvisited(q, order);
  }

  lemma LoopStart(l0: Lists, order: seq<int>, accounts: map<int, Account>, c: int)
    requires Arranges(order, l0.credits.Keys) && UnlinkedOnly(l0, c) && accounts.Keys == l0.credits.Keys
    ensures LoopInvariant(l0, l0, order, accounts, c, 0)
  {
    StartUnvisited(Ids(l0.under), order, l0.credits.Keys, accounts, UNDER, c);
    StartUnvisited(Ids(l0.over), order, l0.credits.Keys, accounts, OVER, c);
    assert QueuesAt(l0, l0, order, accounts, c, 0);
    assert CreditsAt(l0, l0, order, accounts, c, 0);
  }

  /** One client's account after somebody else has been served. */
  ghost predicate Settles(account: Account, a: Credit, workers: nat, fileSize: nat)
    requires 0 < workers
  {
    var credit := a.credit + Gain(a.priority, fileSize, workers);
    account == Account(a.priority, credit, if a.kind == IDLE then IDLE else Standing(credit))
  }

  ghost predicate AllSettle(accounts: map<int, Account>, credits: map<int, Credit>, c: int, workers: nat, fileSize: nat)
    requires 0 < workers
  {
    && accounts.Keys == credits.Keys
    && forall o :: o in credits && o != c ==> Settles(accounts[o], credits[o], workers, fileSize)
  }

  /** A whole round of the loop, l to l'. */
  lemma Round(l0: Lists, l: Lists, l': Lists, order: seq<int>, accounts: map<int, Account>, c: int, workers: nat, fileSize: nat, k: nat)
    requires 0 < workers && k < |order| && Arranges(order, l0.credits.Keys) && UnlinkedOnly(l0, c)
    requires LoopInvariant(l0, l, order, accounts, c, k)
    requires AllSettle(accounts, l0.credits, c, workers, fileSize)
    requires order[k] in l.credits && l' == AfterRound(l, order[k], c, workers, fileSize)
    ensures LoopInvariant(l0, l', order, accounts, c, k + 1)
  {
    var o := order[k];
    NotYetVisited(l0, l, order, accounts, c, k);
    if o == c {
      SkipStep(l0, l, order, accounts, c, k);
    } else {
      assert Settles(accounts[o], l0.credits[o], workers, fileSize);
      LoopStep(l0, l, order, accounts, c, Gain(l0.credits[o].priority, fileSize, workers), k);
    }
  }

  /** The queues name exactly the clients of their standing. */
  ghost predicate Sorted(l: Lists) {
    && Linked(l)
    && (forall x :: x in Ids(l.under) <==> x in l.credits && l.credits[x].kind == UNDER)
    && (forall x :: x in Ids(l.over) <==> x in l.credits && l.credits[x].kind == OVER)
  }

  /** What unlinking the served client leaves for the loop. */
  lemma UnlinkStarts(l: Lists, c: int)
    requires Sorted(l) && c in l.credits
    ensures UnlinkedOnly(Unlink(l, c), c) && Unlink(l, c).credits == l.credits
  {
    UnlinkRemoves(l, c);
  }

  /** What the loop leaves: the others' queues rebuilt in iteration order, and their accounts settled. */
  ghost predicate LoopDone(l: Lists, order: seq<int>, accounts: map<int, Account>, c: int) {
    && Linked(l)
    && Ids(l.under) == OfKind(order, accounts, UNDER, c, |order|)
    && Ids(l.over) == OfKind(order, accounts, OVER, c, |order|)
    && l.credits.Keys == accounts.Keys
    && forall x :: x in accounts && x != c ==> AccountOf(l.credits[x]) == accounts[x]
  }

  lemma LoopEnd(l0: Lists, l: Lists, order: seq<int>, accounts: map<int, Account>, c: int)
    requires Arranges(order, l0.credits.Keys) && c in l0.credits
    requires LoopInvariant(l0, l, order, accounts, c, |order|)
    ensures LoopDone(l, order, accounts, c) && l.credits[c] == l0.credits[c]
  {
    NoneUnvisited(Ids(l0.under), order);
    NoneUnvisited(Ids(l0.over), order);
    forall x | x in accounts
      ensures if x == c then l.credits[x] == l0.credits[x] else AccountOf(l.credits[x]) == accounts[x]
    {
      assert x in order;
      var i :| 0 <= i < |order| && order[i] == x;
    }
  }

  /** What the loop needs of its start. */
  ghost predicate LoopReady(l: Lists, order: seq<int>, accounts: map<int, Account>, c: int, workers: nat, fileSize: nat) {
    && 0 < workers && Arranges(order, l.credits.Keys) && UnlinkedOnly(l, c)
    && AllSettle(accounts, l.credits, c, workers, fileSize)
    && forall i :: 0 <= i < |order| ==> order[i] in l.credits
  }

  lemma NextRound(l0: Lists, l: Lists, order: seq<int>, accounts: map<int, Account>, c: int, workers: nat, fileSize: nat, k: nat)
    requires LoopReady(l0, order, accounts, c, workers, fileSize)
    requires k < |order| && order[k] in l.credits && LoopInvariant(l0, l, order, accounts, c, k)
    ensures LoopInvariant(l0, AfterRound(l, order[k], c, workers, fileSize), order, accounts, c, k + 1)
  {
    Round(l0, l, AfterRound(l, order[k], c, workers, fileSize), order, accounts, c, workers, fileSize, k);
  }

  /** All rounds together keep the half-way form. */
  lemma {:induction false} RoundsRebuild(l0: Lists, l: Lists, order: seq<int>, accounts: map<int, Account>, c: int, workers: nat, fileSize: nat, k: nat)
    requires LoopReady(l0, order, accounts, c, workers, fileSize)
    requires k <= |order| && l == AfterRounds(l0, order, c, workers, fileSize, k)
    ensures LoopInvariant(l0, l, order, accounts, c, k)
    decreases k
  {
    if k == 0 {
      LoopStart(l0, order, accounts, c);
    } else {
      var l1 := AfterRounds(l0, order, c, workers, fileSize, k - 1);
      RoundsRebuild(l0, l1, order, accounts, c, workers, fileSize, k - 1);
      NextRound(l0, l1, order, accounts, c, workers, fileSize, k - 1);
    }
  }

  lemma ChargeLinks(l: Lists, c: int, cost: real, backlog: bool)
    requires Linked(l) && c in l.credits && c !in Ids(l.under) && c !in Ids(l.over)
    ensures var l', a := Charge(l, c, cost, backlog), l.credits[c];
            var kind := if backlog then Standing(a.credit - cost) else IDLE;
            && Linked(l')
            && Ids(l'.under) == Ids(l.under) + (if kind == UNDER then [c] else [])
            && Ids(l'.over) == Ids(l.over) + (if kind == OVER then [c] else [])
            && l'.credits.Keys == l.credits.Keys
            && AccountOf(l'.credits[c]) == Account(a.priority, a.credit - cost, kind)
            && forall x :: x in l.credits && x != c ==> l'.credits[x] == l.credits[x]
  {
    RaiseKeepsLinks(l, c, -cost);
    var charged := Raise(l, c, -cost);
    if backlog {
      PushAppends(charged, c);
    } else {
      assert forall k :: 0 <= k < |l.under| ==> Ids(l.under)[k] == l.under[k].clientId;
      assert forall k :: 0 <= k < |l.over| ==> Ids(l.over)[k] == l.over[k].clientId;
    }
  }

  /** The account of the client that has been served. */
  ghost predicate Pays(account: Account, a: Credit, cost: real, backlog: bool) {
    account == Account(a.priority, a.credit - cost, if backlog then Standing(a.credit - cost) else IDLE)
  }

  /** The state after Credit::schedule: queues and credits rebuilt in iteration order. */
  ghost predicate Rebuilt(l: Lists, order: seq<int>, accounts: map<int, Account>, c: int)
    requires c in accounts
  {
    && Linked(l)
    && Ids(l.under) == OfKind(order, accounts, UNDER, c, |order|) + (if accounts[c].kind == UNDER then [c] else [])
    && Ids(l.over) == OfKind(order, accounts, OVER, c, |order|) + (if accounts[c].kind == OVER then [c] else [])
    && Accounts(l.credits) == accounts
  }

  lemma ChargeRebuilds(l: Lists, order: seq<int>, accounts: map<int, Account>, c: int, cost: real, backlog: bool)
    requires LoopDone(l, order, accounts, c) && c in accounts && Pays(accounts[c], l.credits[c], cost, backlog)
    ensures Rebuilt(Charge(l, c, cost, backlog), order, accounts, c)
  {
    assert c !in OfKind(order, accounts, UNDER, c, |order|) && c !in OfKind(order, accounts, OVER, c, |order|);
    ChargeLinks(l, c, cost, backlog);
    SameAccounts(l, Charge(l, c, cost, backlog), accounts, c);
  }

  lemma SameAccounts(l: Lists, l': Lists, accounts: map<int, Account>, c: int)
    requires l.credits.Keys == accounts.Keys == l'.credits.Keys && c in accounts
    requires forall x :: x in accounts && x != c ==> AccountOf(l.credits[x]) == accounts[x]
    requires forall x :: x in l.credits && x != c ==> l'.credits[x] == l.credits[x]
    requires AccountOf(l'.credits[c]) == accounts[c]
    ensures Accounts(l'.credits) == accounts
  {
  }

  /** The specification of a turn, read on the lists. */
  lemma SettleFits(s: Sched, l: Lists, c: int, fileSize: nat, backlog: bool)
    requires 0 < s.workers && Queued(s) && Linked(l) && c in s.accounts
    requires s.accounts == Accounts(l.credits) && s.under == Ids(l.under) && s.over == Ids(l.over)
    ensures Sorted(l)
    ensures var accounts := Settle(s, c, fileSize, backlog);
            && AllSettle(accounts, l.credits, c, s.workers, fileSize)
            && Pays(accounts[c], l.credits[c], Cost(fileSize, s.workers), backlog)
  {
  }

  lemma ScheduleRebuilds(l: Lists, order: seq<int>, accounts: map<int, Account>, c: int, workers: nat, fileSize: nat, backlog: bool)
    requires 0 < workers && Arranges(order, l.credits.Keys) && Sorted(l) && c in l.credits
    requires forall i :: 0 <= i < |order| ==> order[i] in l.credits
    requires AllSettle(accounts, l.credits, c, workers, fileSize)
    requires Pays(accounts[c], l.credits[c], Cost(fileSize, workers), backlog)
    ensures Rebuilt(Scheduled(l, order, c, workers, fileSize, backlog), order, accounts, c)
  {
    var l0 := Unlink(l, c);
    UnlinkStarts(l, c);
    var l1 := AfterRounds(l0, order, c, workers, fileSize, |order|);
    RoundsRebuild(l0, l1, order, accounts, c, workers, fileSize, |order|);
    LoopEnd(l0, l1, order, accounts, c);
    ChargeRebuilds(l1, order, accounts, c, Cost(fileSize, workers), backlog);
  }

  /** Lists rebuilt after the first request of c are those of the turn, but for the count. */
  lemma RebuiltIsServed(s: Sched, l: Lists, c: int, r: Request, rest: seq<Request>)
    requires 0 < s.workers && c in s.accounts && Pending(s.requests, c) == [r] + rest
    requires Rebuilt(l, s.order, Settle(s, c, r.fileSize, rest != []), c)
    ensures Seen(l, s.workers, s.order, s.requests[c := rest], s.count) == Serve(s, c).(count := s.count)
  {
    assert Pending(s.requests, c)[1..] == rest;
  }

  lemma OrderRegistered(order: seq<int>, clients: set<int>)
    requires Arranges(order, clients)
    ensures forall i :: 0 <= i < |order| ==> order[i] in clients
  {
    forall i | 0 <= i < |order|
      ensures order[i] in clients
    {
      var o := order[i];
      assert o in order;
    }
  }

  /** What Credit::schedule needs of a client with a request. */
  lemma ReadyToSchedule(s: Sched, l: Lists, c: int)
    requires Consistent(s) && s.accounts == Accounts(l.credits) && c in l.credits && Pending(s.requests, c) != []
    ensures l.credits[c].kind != IDLE && forall i :: 0 <= i < |s.order| ==> s.order[i] in l.credits
  {
    OrderRegistered(s.order, l.credits.Keys);
    assert l.credits[c].kind == s.accounts[c].kind;
  }

  /** Credit::schedule on the lists is a turn of the policy, but for the count. */
  lemma ScheduleIsServe(s: Sched, l: Lists, c: int, list: seq<Request>)
    requires s == Seen(l, s.workers, s.order, s.requests, s.count)
    requires Consistent(s) && Linked(l) && c in l.credits && list == Pending(s.requests, c) != []
    ensures forall i :: 0 <= i < |s.order| ==> s.order[i] in l.credits
    ensures var l' := Scheduled(l, s.order, c, s.workers, list[0].fileSize, list[1..] != []);
            && Seen(l', s.workers, s.order, s.requests[c := list[1..]], s.count) == Serve(s, c).(count := s.count)
            && Linked(l')
  {
    ReadyToSchedule(s, l, c);
    var r, rest := list[0], list[1..];
    assert list == [r] + rest;
    SettleFits(s, l, c, r.fileSize, rest != []);
    ScheduleRebuilds(l, s.order, Settle(s, c, r.fileSize, rest != []), c, s.workers, r.fileSize, rest != []);
    RebuiltIsServed(s, Scheduled(l, s.order, c, s.workers, r.fileSize, rest != []), c, r, rest);
  }

  /** Linking the client of a new request is what the policy does. */
  lemma EnqueuedOnLists(s: Sched, l: Lists, r: Request)
    requires s == Seen(l, s.workers, s.order, s.requests, s.count)
    requires Queued(s) && Linked(l) && r.clientId in l.credits
    ensures var c := r.clientId;
            var l' := if l.credits[c].kind == IDLE then Push(l, c) else l;
            && Seen(l', s.workers, s.order, s.requests[c := Pending(s.requests, c) + [r]], s.count + 1) == Enqueue(s, r)
            && Linked(l')
  {
    var c := r.clientId;
    if l.credits[c].kind == IDLE {
      assert c !in Ids(l.under) && c !in Ids(l.over);
      PushAppends(l, c);
    }
  }

  /** Erasing c from the client map, the iteration order and the request lists. */
  lemma ErasedIsDeregistered(l: Lists, workers: nat, order: seq<int>, requests: map<int, seq<Request>>, count: int, c: int)
    requires c in l.credits
    ensures Seen(l.(credits := l.credits - {c}), workers, Without(order, c), requests - {c}, count)
         == Deregister(Seen(l, workers, order, requests, count), c)
  {
    assert Accounts(l.credits - {c}) == Accounts(l.credits) - {c};
  }

  /** A client in neither queue has no node to lose. */
  lemma EraseKeepsLinks(l: Lists, c: int)
    requires Linked(l) && c !in Ids(l.under) && c !in Ids(l.over)
    ensures Linked(l.(credits := l.credits - {c}))
  {
  }
}
