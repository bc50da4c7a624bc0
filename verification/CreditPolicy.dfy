/**
 The credit policy on values: what the queues, credits and requests are after each
 operation. The queues are lists of client ids, in order, without the list iterators.
 */
module CreditPolicy {
  import opened RequestLists
  import opened Sequences

  const DEFAULT_PRIORITY: real := 64.0
  const FILE_CREDIT_MULTIPLIER: real := 16536.0

  datatype CreditType = UNDER | OVER | IDLE

  datatype Account = Account(priority: real, credit: real, kind: CreditType)

  /** `order` is the order in which iteration over `accounts` meets the clients. */
  datatype Sched = Sched(workers: nat, accounts: map<int, Account>, order: seq<int>,
                         under: seq<int>, over: seq<int>,
                         requests: map<int, seq<Request>>, count: int)

  function Standing(credit: real): (kind: CreditType) {
    if credit > 0.0 then UNDER else OVER
  }

  /** What a served request costs its client. */
  function Cost(fileSize: nat, workers: nat): real
    requires 0 < workers
  {
    fileSize as real / FILE_CREDIT_MULTIPLIER / workers as real
  }

  /** What everybody else gains. */
  function Gain(priority: real, fileSize: nat, workers: nat): real
    requires 0 < workers
  {
    priority * fileSize as real / DEFAULT_PRIORITY / FILE_CREDIT_MULTIPLIER / workers as real
  }

  /** The clients of the given standing among the first k of `order`, except one. */
  function OfKind(order: seq<int>, accounts: map<int, Account>, kind: CreditType, except: int, k: nat): (q: seq<int>)
    requires k <= |order|
    ensures forall x :: x in q <==> x in order[..k] && x != except && x in accounts && accounts[x].kind == kind
  {
    if k == 0 then []
    else
      var q := OfKind(order, accounts, kind, except, k - 1);
      var o := order[k - 1];
      assert order[..k] == order[..k - 1] + [o];
      if o != except && o in accounts && accounts[o].kind == kind then q + [o] else q
  }

  // ---- operations ----

  function Empty(workers: nat): Sched {
    Sched(workers, map[], [], [], [], map[], 0)
  }

  /** emplace does nothing for a client that is already there. */
  function Register(s: Sched, c: int, priority: int, order: seq<int>): (s': Sched) {
    if c in s.accounts then s
    else s.(accounts := s.accounts[c := Account(priority as real, priority as real, IDLE)], order := order)
  }

  function Enqueue(s: Sched, r: Request): (s': Sched)
    requires r.clientId in s.accounts
  {
    var c := r.clientId;
    var a := s.accounts[c];
    var s1 := s.(requests := s.requests[c := Pending(s.requests, c) + [r]], count := s.count + 1);
    if a.kind != IDLE then s1
    else
      var kind := Standing(a.credit);
      s1.(accounts := s.accounts[c := a.(kind := kind)],
      under := if kind == UNDER then s.under + [c] else s.under,
      over := if kind == OVER then s.over + [c] else s.over)
  }

  /** The credits and standings once client c has been served a file of this size. */
  function Settle(s: Sched, c: int, fileSize: nat, backlog: bool): (accounts: map<int, Account>)
    requires 0 < s.workers
    ensures accounts.Keys == s.accounts.Keys
  {
    map o | o in s.accounts ::
      var a := s.accounts[o];
      if o == c then
        var credit := a.credit - Cost(fileSize, s.workers);
        Account(a.priority, credit, if backlog then Standing(credit) else IDLE)
      else
        var credit := a.credit + Gain(a.priority, fileSize, s.workers);
        Account(a.priority, credit, if a.kind == IDLE then IDLE else Standing(credit))
  }

  /** The rebuild: every queue in iteration order, the served client last. */
  function Queue(s: Sched, accounts: map<int, Account>, kind: CreditType, c: int): (q: seq<int>) {
    OfKind(s.order, accounts, kind, c, |s.order|)
    + if c in accounts && accounts[c].kind == kind then [c] else []
  }

  /** The client whose turn it is. */
  function Turn(s: Sched): int
    requires s.under != [] || s.over != []
  {
    if s.under != [] then s.under[0] else s.over[0]
  }

  function Serve(s: Sched, c: int): (s': Sched)
    requires 0 < s.workers && Pending(s.requests, c) != []
  {
    var r := Pending(s.requests, c)[0];
    var rest := Pending(s.requests, c)[1..];
    var accounts := Settle(s, c, r.fileSize, rest != []);
    s.(accounts := accounts, requests := s.requests[c := rest], count := s.count - 1,
    under := Queue(s, accounts, UNDER, c), over := Queue(s, accounts, OVER, c))
  }

  function Deregister(s: Sched, c: int): (s': Sched)
    requires c in s.accounts
  {
    s.(accounts := s.accounts - {c}, order := Without(s.order, c), requests := s.requests - {c})
  }

  // ---- the invariant ----

  /** The iteration order meets every client once, and the request count is right. */
  ghost predicate Counted(s: Sched) {
    && 0 < s.workers
    && Arranges(s.order, s.accounts.Keys)
    && s.requests.Keys <= s.accounts.Keys
    && s.count == TotalPending(s.order, s.requests)
  }

  /** Each queue holds exactly the clients of its standing, each once. */
  ghost predicate Queued(s: Sched) {
    && Distinct(s.under) && Distinct(s.over)
    && (forall c :: c in s.under <==> c in s.accounts && s.accounts[c].kind == UNDER)
    && (forall c :: c in s.over <==> c in s.accounts && s.accounts[c].kind == OVER)
  }

  /** A client is idle exactly when nothing of it waits; otherwise its credit decides. */
  ghost predicate Standings(s: Sched) {
    forall c :: c in s.accounts ==>
                  var a := s.accounts[c];
                  if Pending(s.requests, c) == [] then a.kind == IDLE else a.kind == Standing(a.credit)
  }

  ghost predicate Consistent(s: Sched) {
    Counted(s) && Queued(s) && Standings(s)
  }

  // ---- every operation keeps it ----

  lemma EmptyConsistent(workers: nat)
    requires 0 < workers
    ensures Consistent(Empty(workers))
  {
  }

  lemma RegisterConsistent(s: Sched, c: int, priority: int, order: seq<int>)
    requires Consistent(s) && Arranges(order, s.accounts.Keys + {c})
    ensures Consistent(Register(s, c, priority, order))
  {
    AnyOrder(s.order, order, s.requests);
  }

  lemma EnqueueCounted(s: Sched, r: Request)
    requires Counted(s) && r.clientId in s.accounts
    ensures Counted(Enqueue(s, r))
  {
    OneListChanges(s.order, s.requests, r.clientId, Pending(s.requests, r.clientId) + [r]);
  }

  lemma EnqueueQueued(s: Sched, r: Request)
    requires Queued(s) && r.clientId in s.accounts
    ensures Queued(Enqueue(s, r))
  {
  }

  lemma EnqueueConsistent(s: Sched, r: Request)
    requires Consistent(s) && r.clientId in s.accounts
    ensures Consistent(Enqueue(s, r))
  {
    EnqueueCounted(s, r);
    EnqueueQueued(s, r);
    assert Standings(Enqueue(s, r));
  }

  lemma {:induction false} OfKindDistinct(order: seq<int>, accounts: map<int, Account>, kind: CreditType, except: int, k: nat)
    requires k <= |order| && Distinct(order)
    ensures Distinct(OfKind(order, accounts, kind, except, k))
  {
    if k == 0 {
    } else {
      OfKindDistinct(order, accounts, kind, except, k - 1);
      assert order[k - 1] !in order[..k - 1];
    }
  }

  lemma QueueMembers(s: Sched, accounts: map<int, Account>, kind: CreditType, c: int)
    requires Arranges(s.order, s.accounts.Keys) && accounts.Keys == s.accounts.Keys && c in s.accounts
    ensures Distinct(Queue(s, accounts, kind, c))
    ensures forall x :: x in Queue(s, accounts, kind, c) <==> x in accounts && accounts[x].kind == kind
  {
    OfKindDistinct(s.order, accounts, kind, c, |s.order|);
    assert s.order[..|s.order|] == s.order;
  }

  // ---- the order of the queues ----

  ghost predicate Precedes(order: seq<int>, x: int, y: int) {
    exists i, j :: 0 <= i < j < |order| && order[i] == x && order[j] == y
  }

  ghost predicate InOrder(q: seq<int>, order: seq<int>) {
    forall i, j :: 0 <= i < j < |q| ==> Precedes(order, q[i], q[j])
  }

  lemma {:induction false} OfKindInOrder(order: seq<int>, accounts: map<int, Account>, kind: CreditType, except: int, k: nat)
    requires k <= |order|
    ensures InOrder(OfKind(order, accounts, kind, except, k), order)
  {
    if k == 0 {
    } else {
      OfKindInOrder(order, accounts, kind, except, k - 1);
      var q, o := OfKind(order, accounts, kind, except, k - 1), order[k - 1];
      forall i | 0 <= i < |q|
        ensures Precedes(order, q[i], o)
      {
        var x := q[i];
        assert x in order[..k - 1];
        var p :| 0 <= p < k - 1 && order[p] == x;
        assert order[p] == x && order[k - 1] == o;
      }
    }
  }

  /** After a turn each queue is in iteration order, but for the client just served, which is last. */
  lemma RebuiltInOrder(s: Sched, c: int)
    requires 0 < s.workers && Pending(s.requests, c) != []
    ensures forall i, j :: 0 <= i < j < |Serve(s, c).under| ==>
                             var x, y := Serve(s, c).under[i], Serve(s, c).under[j];
                             x != c && (y == c || Precedes(s.order, x, y))
    ensures forall i, j :: 0 <= i < j < |Serve(s, c).over| ==>
                             var x, y := Serve(s, c).over[i], Serve(s, c).over[j];
                             x != c && (y == c || Precedes(s.order, x, y))
  {
    var accounts := Serve(s, c).accounts;
    QueueInOrder(s, accounts, UNDER, c);
    QueueInOrder(s, accounts, OVER, c);
  }

  lemma QueueInOrder(s: Sched, accounts: map<int, Account>, kind: CreditType, c: int)
    ensures var q := Queue(s, accounts, kind, c);
            forall i, j :: 0 <= i < j < |q| ==> q[i] != c && (q[j] == c || Precedes(s.order, q[i], q[j]))
  {
    OfKindInOrder(s.order, accounts, kind, c, |s.order|);
    var others := OfKind(s.order, accounts, kind, c, |s.order|);
    forall i | 0 <= i < |others|
      ensures others[i] != c
    {
      var x := others[i];
      assert x in others;
    }
  }

  /** A client waits in the queue of the sign of its credit, once, and nowhere else. */
  lemma WaitingBySign(s: Sched)
    requires Consistent(s)
    ensures Distinct(s.under) && Distinct(s.over)
    ensures forall c :: c in s.under <==> c in s.accounts && Pending(s.requests, c) != [] && s.accounts[c].credit > 0.0
    ensures forall c :: c in s.over <==> c in s.accounts && Pending(s.requests, c) != [] && s.accounts[c].credit <= 0.0
  {
  }

  lemma ServeCounted(s: Sched, c: int)
    requires Counted(s) && c in s.accounts && Pending(s.requests, c) != []
    ensures Counted(Serve(s, c))
  {
    OneListChanges(s.order, s.requests, c, Pending(s.requests, c)[1..]);
  }

  lemma ServeQueued(s: Sched, c: int)
    requires Counted(s) && c in s.accounts && Pending(s.requests, c) != []
    ensures Queued(Serve(s, c))
  {
    var accounts := Serve(s, c).accounts;
    QueueMembers(s, accounts, UNDER, c);
    QueueMembers(s, accounts, OVER, c);
  }

  lemma ServeStandings(s: Sched, c: int)
    requires 0 < s.workers && Standings(s) && c in s.accounts && Pending(s.requests, c) != []
    ensures Standings(Serve(s, c))
  {
    var s' := Serve(s, c);
    forall o | o in s'.accounts
      ensures var a := s'.accounts[o];
              if Pending(s'.requests, o) == [] then a.kind == IDLE else a.kind == Standing(a.credit)
    {
      if o != c {
        assert Pending(s'.requests, o) == Pending(s.requests, o);
      }
    }
  }

  lemma ServeConsistent(s: Sched, c: int)
    requires Consistent(s) && c in s.accounts && Pending(s.requests, c) != []
    ensures Consistent(Serve(s, c))
  {
    ServeCounted(s, c);
    ServeQueued(s, c);
    ServeStandings(s, c);
  }

  /** Whether x stands before y when both wait after a turn of c. */
  ghost predicate ServedBefore(s: Sched, c: int, x: int, y: int) {
    && x in s.accounts && y in s.accounts
    && if (s.accounts[x].credit > 0.0) != (s.accounts[y].credit > 0.0) then s.accounts[x].credit > 0.0
       else x != c && (y == c || Precedes(s.order, x, y))
  }

  lemma HeadBefore(s: Sched, c: int, y: int)
    requires y in s.under || y in s.over
    requires forall x :: x in s.under ==> x in s.accounts && s.accounts[x].credit > 0.0
    requires forall x :: x in s.over ==> x in s.accounts && s.accounts[x].credit <= 0.0
    requires forall i, j :: 0 <= i < j < |s.under| ==>
                              s.under[i] != c && (s.under[j] == c || Precedes(s.order, s.under[i], s.under[j]))
    requires forall i, j :: 0 <= i < j < |s.over| ==>
                              s.over[i] != c && (s.over[j] == c || Precedes(s.order, s.over[i], s.over[j]))
    ensures y == Turn(s) || ServedBefore(s, c, Turn(s), y)
  {
    var t := Turn(s);
    assert s.under != [] ==> s.under[0] in s.under;
    assert s.over != [] ==> s.over[0] in s.over;
    if y in s.under {
      var j :| 0 <= j < |s.under| && s.under[j] == y;
    } else {
      var j :| 0 <= j < |s.over| && s.over[j] == y;
    }
  }

  lemma AfterTurn(s: Sched, c: int, y: int)
    requires Consistent(s) && c in s.accounts && Pending(s.requests, c) != []
    requires Pending(Serve(s, c).requests, y) != [] && y in s.accounts
    ensures var s' := Serve(s, c);
            && (y in s'.under || y in s'.over)
            && (forall x :: x in s'.under ==> x in s'.accounts && s'.accounts[x].credit > 0.0)
            && (forall x :: x in s'.over ==> x in s'.accounts && s'.accounts[x].credit <= 0.0)
  {
    ServeConsistent(s, c);
    WaitingBySign(Serve(s, c));
  }

  /**
   Who comes after a turn of c, if no request arrives: a client with positive credit
   before one without, then by iteration order, and c itself last of its sign.
   */
  lemma NextTurn(s: Sched, c: int, y: int)
    requires Consistent(s) && c in s.accounts && Pending(s.requests, c) != []
    requires Pending(Serve(s, c).requests, y) != [] && y in s.accounts
    ensures Serve(s, c).under != [] || Serve(s, c).over != []
    ensures y == Turn(Serve(s, c)) || ServedBefore(Serve(s, c), c, Turn(Serve(s, c)), y)
  {
    AfterTurn(s, c, y);
    RebuiltInOrder(s, c);
    HeadBefore(Serve(s, c), c, y);
  }

  lemma DeregisterCounted(s: Sched, c: int)
    requires Counted(s) && c in s.accounts && Pending(s.requests, c) == []
    ensures Counted(Deregister(s, c))
  {
    WithoutDistinct(s.order, c);
    WithoutOne(s.order, s.requests, c);
    SamePending(Without(s.order, c), s.requests, s.requests - {c});
  }

  /** Removing a client is sound exactly when nothing of it is waiting. */
  lemma DeregisterConsistentIffIdle(s: Sched, c: int)
    requires Consistent(s) && c in s.accounts
    ensures Consistent(Deregister(s, c)) <==> Pending(s.requests, c) == []
  {
    var s' := Deregister(s, c);
    if Pending(s.requests, c) == [] {
      DeregisterCounted(s, c);
      assert c !in s.under && c !in s.over;
      assert Queued(s');
      assert forall o :: o in s'.accounts ==> Pending(s'.requests, o) == Pending(s.requests, o);
      assert Standings(s');
    } else {
      assert c in s'.under || c in s'.over;
      assert c !in s'.accounts;
      assert !Queued(s');
    }
  }

  /**
   While requests wait there is a client to serve: neither queue is read when empty,
   its run queue is not empty, and it is a client without positive credit only when
   every client that waits has none.
   */
  lemma TurnIsReady(s: Sched)
    requires Consistent(s) && 0 < s.count
    ensures s.under != [] || s.over != []
    ensures Turn(s) in s.accounts && Pending(s.requests, Turn(s)) != []
    ensures s.accounts[Turn(s)].credit <= 0.0 ==>
              forall o :: o in s.accounts && Pending(s.requests, o) != [] ==> s.accounts[o].credit <= 0.0
  {
    var c := SomePending(s.order, s.requests);
    assert c in s.under || c in s.over;
    assert s.under != [] ==> s.under[0] in s.under;
    assert s.over != [] ==> s.over[0] in s.over;
    if s.accounts[Turn(s)].credit <= 0.0 {
      assert s.under == [];
      forall o | o in s.accounts && Pending(s.requests, o) != []
        ensures s.accounts[o].credit <= 0.0
      {
        assert o !in s.under;
      }
    }
  }

  lemma TurnConsistent(s: Sched)
    requires Consistent(s) && 0 < s.count
    ensures s.under != [] || s.over != []
    ensures Turn(s) in s.accounts && Pending(s.requests, Turn(s)) != []
    ensures Consistent(Serve(s, Turn(s)))
  {
    TurnIsReady(s);
    ServeConsistent(s, Turn(s));
  }
}
