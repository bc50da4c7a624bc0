/** Requests, the lists of them that wait per client, and lists of clients without repetition. */
module RequestLists {
  import opened Sequences

  datatype Request = Request(clientId: int, requestId: int, fileSize: nat)

  /** requestMap[c], which is an empty list until it is first used. */
  function Pending(requests: map<int, seq<Request>>, c: int): seq<Request> {
    if c in requests then requests[c] else []
  }

  // ---- lists of clients ----

  ghost predicate Arranges(order: seq<int>, clients: set<int>) {
    Distinct(order) && forall c :: c in order <==> c in clients
  }

  function Without(q: seq<int>, c: int): (q': seq<int>)
    ensures forall x :: x in q' <==> x in q && x != c
    ensures |q'| <= |q|
  {
    if q == [] then []
    else
      var n := |q| - 1;
      if q[n] == c then Without(q[..n], c) else Without(q[..n], c) + [q[n]]
  }

  function TotalPending(order: seq<int>, requests: map<int, seq<Request>>): nat {
    if order == [] then 0
    else TotalPending(order[..|order| - 1], requests) + |Pending(requests, order[|order| - 1])|
  }

  // ---- counting ----

  lemma {:induction false} SamePending(order: seq<int>, requests: map<int, seq<Request>>, requests': map<int, seq<Request>>)
    requires forall c :: c in order ==> Pending(requests, c) == Pending(requests', c)
    ensures TotalPending(order, requests) == TotalPending(order, requests')
  {
    if order == [] {
    } else {
      SamePending(order[..|order| - 1], requests, requests');
    }
  }

  /** Changing one client's list changes the total by as much. */
  lemma {:induction false} OneListChanges(order: seq<int>, requests: map<int, seq<Request>>, c: int, list: seq<Request>)
    requires Distinct(order) && c in order
    ensures TotalPending(order, requests[c := list]) == TotalPending(order, requests) - |Pending(requests, c)| + |list|
  {
    var n := |order| - 1;
    if order[n] == c {
      SamePending(order[..n], requests, requests[c := list]);
    } else {
      OneListChanges(order[..n], requests, c, list);
    }
  }

  /** How many requests wait does not depend on the order of counting. */
  lemma {:induction false} AnyOrder(order: seq<int>, order': seq<int>, requests: map<int, seq<Request>>)
    requires Distinct(order) && Distinct(order')
    requires forall c :: Pending(requests, c) != [] ==> (c in order <==> c in order')
    ensures TotalPending(order, requests) == TotalPending(order', requests)
  {
    if order == [] {
      Nothing(order', requests);
    } else {
      var n := |order| - 1;
      var last := order[n];
      WithoutOne(order', requests, last);
      WithoutDistinct(order', last);
      assert order == order[..n] + [last] && last !in order[..n];
      forall c | Pending(requests, c) != []
        ensures c in order[..n] <==> c in Without(order', last)
      {
        assert c in order <==> c in order[..n] || c == last;
      }
      AnyOrder(order[..n], Without(order', last), requests);
    }
  }

  lemma {:induction false} Nothing(order: seq<int>, requests: map<int, seq<Request>>)
    requires forall c :: c in order ==> Pending(requests, c) == []
    ensures TotalPending(order, requests) == 0
  {
    if order == [] {
    } else {
      Nothing(order[..|order| - 1], requests);
    }
  }

  lemma {:induction false} WithoutOne(order: seq<int>, requests: map<int, seq<Request>>, c: int)
    requires Distinct(order) && (c in order || Pending(requests, c) == [])
    ensures TotalPending(Without(order, c), requests) == TotalPending(order, requests) - |Pending(requests, c)|
  {
    if order == [] {
    } else {
      var n := |order| - 1;
      if order[n] == c {
        WithoutAbsent(order[..n], c);
      } else {
        WithoutOne(order[..n], requests, c);
        var rest := Without(order[..n], c);
        assert (rest + [order[n]])[..|rest|] == rest;
      }
    }
  }

  lemma {:induction false} WithoutAbsent(q: seq<int>, c: int)
    requires c !in q
    ensures Without(q, c) == q
  {
    if q == [] {
    } else {
      WithoutAbsent(q[..|q| - 1], c);
    }
  }

  lemma {:induction false} WithoutDistinct(q: seq<int>, c: int)
    requires Distinct(q)
    ensures Distinct(Without(q, c))
  {
    if q == [] {
    } else {
      var n := |q| - 1;
      WithoutDistinct(q[..n], c);
      assert q[n] !in q[..n];
    }
  }

  lemma {:induction false} SomePending(order: seq<int>, requests: map<int, seq<Request>>) returns (c: int)
    requires 0 < TotalPending(order, requests)
    ensures c in order && Pending(requests, c) != []
  {
    c := order[|order| - 1];
    if Pending(requests, c) == [] {
      c := SomePending(order[..|order| - 1], requests);
    }
  }

  lemma Regroup(served: seq<Request>, list: seq<Request>, list': seq<Request>, coming: seq<Request>, going: seq<Request>)
    requires list + coming == going + list'
    ensures served + list + coming == served + going + list'
  {
    assert served + list + coming == served + (list + coming);
    assert served + going + list' == served + (going + list');
  }
}
