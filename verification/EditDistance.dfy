/** get_levenshtein_distance and get_most_similar_string. */
module EditDistance {
  import opened Bytes

  // ---- edit scripts ----

  datatype Edit = InsertAt(at: nat, c: char) | DeleteAt(at: nat) | ReplaceAt(at: nat, c: char)

  predicate Applies(e: Edit, s: string) {
    if e.InsertAt? then e.at <= |s| else e.at < |s|
  }

  function Apply(e: Edit, s: string): string
    requires Applies(e, s)
  {
    match e
    case InsertAt(p, c) => s[..p] + [c] + s[p..]
    case DeleteAt(p) => s[..p] + s[p + 1..]
    case ReplaceAt(p, c) => s[..p] + [c] + s[p + 1..]
  }

  datatype Script = Done | Then(first: Edit, rest: Script)

  function Length(script: Script): nat {
    match script
    case Done => 0
    case Then(_, rest) => 1 + Length(rest)
  }

  function Append(script: Script, next: Script): (both: Script)
    ensures Length(both) == Length(script) + Length(next)
  {
    match script
    case Done => next
    case Then(e, rest) => Then(e, Append(rest, next))
  }

  /** The edits, one after the other, turn s into t. */
  predicate Turns(script: Script, s: string, t: string) {
    match script
    case Done => s == t
    case Then(e, rest) => Applies(e, s) && Turns(rest, Apply(e, s), t)
  }

  // ---- the recurrence of the table ----

  function Front(s: string): string
    requires s != []
  {
    s[..|s| - 1]
  }

  function Last(s: string): char
    requires s != []
  {
    s[|s| - 1]
  }

  function Min3(a: nat, b: nat, c: nat): nat {
    Min(a, Min(b, c))
  }

  /** When the last characters agree only the diagonal is considered. */
  function Distance(a: string, b: string): nat
    decreases |a| + |b|
  {
    if a == [] then |b|
    else if b == [] then |a|
    else if Last(a) == Last(b) then Distance(Front(a), Front(b))
    else 1 + Min3(Distance(Front(a), b), Distance(a, Front(b)), Distance(Front(a), Front(b)))
  }

  lemma {:induction false} Symmetric(a: string, b: string)
    ensures Distance(a, b) == Distance(b, a)
    decreases |a| + |b|
  {
    if a == [] || b == [] {
    } else {
      Symmetric(Front(a), Front(b));
      Symmetric(Front(a), b);
      Symmetric(a, Front(b));
    }
  }

  predicate Near(m: nat, n: nat) {
    m <= n + 1 && n <= m + 1
  }

  /** One more character moves the distance by one at most. */
  lemma {:induction false} OneMore(a: string, x: char, b: string)
    ensures Near(Distance(a + [x], b), Distance(a, b))
    decreases |a| + |b|
  {
    assert Front(a + [x]) == a;
    if b == [] {
    } else {
      OneMore(a, x, Front(b));
      assert b == Front(b) + [Last(b)];
      OneMore(Front(b), Last(b), a);
      Symmetric(a, b);
      Symmetric(a, Front(b));
    }
  }

  /** So does a different last character. */
  lemma {:induction false} OtherLast(a: string, x: char, y: char, b: string)
    ensures Near(Distance(a + [x], b), Distance(a + [y], b))
    decreases |b|
  {
    assert Front(a + [x]) == a && Front(a + [y]) == a;
    if b == [] {
    } else {
      OtherLast(a, x, y, Front(b));
      OneMore(a, x, Front(b));
      OneMore(a, y, Front(b));
      assert b == Front(b) + [Last(b)];
      OneMore(Front(b), Last(b), a);
      Symmetric(a, b);
      Symmetric(a, Front(b));
    }
  }

  /** What is near stays near when both sides are continued alike. */
  lemma {:induction false} Continued(a: string, a': string, v: string, b: string)
    requires forall b' :: |b'| <= |b| ==> Near(Distance(a, b'), Distance(a', b'))
    requires Near(|a|, |a'|)
    ensures Near(Distance(a + v, b), Distance(a' + v, b))
    decreases |v| + |b|
  {
    if v == [] {
      assert a + v == a && a' + v == a';
    } else {
      var w, c := Front(v), Last(v);
      assert Front(a + v) == a + w && Front(a' + v) == a' + w;
      assert Last(a + v) == c && Last(a' + v) == c;
      if b != [] {
        Continued(a, a', w, Front(b));
        Continued(a, a', w, b);
        Continued(a, a', v, Front(b));
      }
    }
  }

  // ---- the recurrence is the length of a shortest script ----

  lemma SelfZero(a: string)
    ensures Distance(a, a) == 0
  {
    if a != [] {
      SelfZero(Front(a));
    }
  }

  lemma Inserted(u: string, c: char, v: string, b: string)
    ensures Near(Distance(u + v, b), Distance(u + [c] + v, b))
  {
    forall b' | |b'| <= |b| {
      OneMore(u, c, b');
    }
    Continued(u, u + [c], v, b);
  }

  lemma Replaced(u: string, x: char, y: char, v: string, b: string)
    ensures Near(Distance(u + [x] + v, b), Distance(u + [y] + v, b))
  {
    forall b' | |b'| <= |b| {
      OtherLast(u, x, y, b');
    }
    Continued(u + [x], u + [y], v, b);
  }

  /** A single edit anywhere moves the distance to anything by one at most. */
  lemma EditMovesByOne(e: Edit, s: string, b: string)
    requires Applies(e, s)
    ensures Near(Distance(s, b), Distance(Apply(e, s), b))
  {
    match e
    case InsertAt(p, c) =>
      Inserted(s[..p], c, s[p..], b);
      assert s == s[..p] + s[p..];
    case DeleteAt(p) =>
      Inserted(s[..p], s[p], s[p + 1..], b);
      assert s == s[..p] + [s[p]] + s[p + 1..];
    case ReplaceAt(p, c) =>
      Replaced(s[..p], s[p], c, s[p + 1..], b);
      assert s == s[..p] + [s[p]] + s[p + 1..];
  }

  /** No script is shorter than the distance. */
  lemma {:induction false} NoShorterScript(script: Script, s: string, t: string)
    requires Turns(script, s, t)
    ensures Distance(s, t) <= Length(script)
  {
    match script
    case Done => SelfZero(s);
    case Then(e, rest) =>
      NoShorterScript(rest, Apply(e, s), t);
      EditMovesByOne(e, s, t);
  }

  /** Scripts compose. */
  lemma {:induction false} Compose(script: Script, next: Script, s: string, t: string, u: string)
    requires Turns(script, s, t) && Turns(next, t, u)
    ensures Turns(Append(script, next), s, u)
  {
    match script
    case Done =>
    case Then(e, rest) => Compose(rest, next, Apply(e, s), t, u);
  }

  /** A script leaves a character behind everything it touches alone. */
  lemma {:induction false} Behind(script: Script, s: string, t: string, x: char)
    requires Turns(script, s, t)
    ensures Turns(script, s + [x], t + [x])
  {
    match script
    case Done =>
    case Then(e, rest) =>
      assert Apply(e, s + [x]) == Apply(e, s) + [x];
      Behind(rest, Apply(e, s), t, x);
  }

  lemma ThenEdit(script: Script, s: string, t: string, e: Edit, u: string) returns (longer: Script)
    requires Turns(script, s, t) && Applies(e, t) && Apply(e, t) == u
    ensures Turns(longer, s, u) && Length(longer) == Length(script) + 1
  {
    assert Turns(Then(e, Done), t, u) && Length(Then(e, Done)) == 1;
    Compose(script, Then(e, Done), s, t, u);
    longer := Append(script, Then(e, Done));
  }

  // An edit of the last character.

  lemma InsertLast(b: string)
    requires b != []
    ensures Apply(InsertAt(|b| - 1, Last(b)), Front(b)) == b
  {
  }

  lemma DeleteLast(a: string)
    requires a != []
    ensures Apply(DeleteAt(|a| - 1), a) == Front(a)
  {
  }

  lemma ReplaceLast(b: string, x: char)
    requires b != []
    ensures Applies(ReplaceAt(|b| - 1, Last(b)), Front(b) + [x])
    ensures Apply(ReplaceAt(|b| - 1, Last(b)), Front(b) + [x]) == b
  {
  }

  lemma FrontThenLast(s: string)
    requires s != []
    ensures s == Front(s) + [Last(s)]
  {
  }

  /** A script that is wrong in the last character only, put right by a replacement. */
  lemma LastReplaced(script: Script, a: string, b: string, x: char) returns (longer: Script)
    requires b != [] && Turns(script, a, Front(b) + [x])
    ensures Turns(longer, a, b) && Length(longer) == Length(script) + 1
  {
    ReplaceLast(b, x);
    longer := ThenEdit(script, a, Front(b) + [x], ReplaceAt(|b| - 1, Last(b)), b);
  }

  /** Where the last characters differ, one replacement makes up for it. */
  lemma OneCharacterMore(script: Script, a: string, b: string, a': string, b': string) returns (longer: Script)
    requires Turns(script, a, b) && a' != [] && b' != [] && a == Front(a') && b == Front(b')
    ensures Turns(longer, a', b') && Length(longer) == Length(script) + if Last(a') == Last(b') then 0 else 1
  {
    var x := Last(a');
    Behind(script, a, b, x);
    FrontThenLast(a');
    FrontThenLast(b');
    longer := script;
    if x != Last(b') {
      longer := LastReplaced(script, a', b', x);
    }
  }

  /** There is a script as short as the distance. */
  lemma {:induction false} ShortestScript(a: string, b: string) returns (script: Script)
    ensures Turns(script, a, b) && Length(script) == Distance(a, b)
    decreases |a| + |b|, 1
  {
    if a == [] && b == [] {
      script := Done;
    } else if b != [] && Distance(a, b) == 1 + Distance(a, Front(b)) {
      script := EndWithInsert(a, b);
    } else if a != [] && Distance(a, b) == 1 + Distance(Front(a), b) {
      script := BeginWithDelete(a, b);
    } else {
      script := Diagonal(a, b);
    }
  }

  lemma {:induction false} EndWithInsert(a: string, b: string) returns (script: Script)
    requires b != [] && Distance(a, b) == 1 + Distance(a, Front(b))
    ensures Turns(script, a, b) && Length(script) == Distance(a, b)
    decreases |a| + |b|, 0
  {
    script := ShortestScript(a, Front(b));
    InsertLast(b);
    script := ThenEdit(script, a, Front(b), InsertAt(|b| - 1, Last(b)), b);
  }

  lemma {:induction false} BeginWithDelete(a: string, b: string) returns (script: Script)
    requires a != [] && Distance(a, b) == 1 + Distance(Front(a), b)
    ensures Turns(script, a, b) && Length(script) == Distance(a, b)
    decreases |a| + |b|, 0
  {
    script := ShortestScript(Front(a), b);
    DeleteLast(a);
    script := Then(DeleteAt(|a| - 1), script);
  }

  lemma {:induction false} Diagonal(a: string, b: string) returns (script: Script)
    requires a != [] && b != []
    requires Distance(a, b) == Distance(Front(a), Front(b)) + if Last(a) == Last(b) then 0 else 1
    ensures Turns(script, a, b) && Length(script) == Distance(a, b)
    decreases |a| + |b|, 0
  {
    script := ShortestScript(Front(a), Front(b));
    script := OneCharacterMore(script, Front(a), Front(b), a, b);
  }

  /** The distance is the least number of edits that turn a into b. */
  lemma DistanceIsLeast(a: string, b: string)
    ensures exists script :: Turns(script, a, b) && Length(script) == Distance(a, b)
    ensures forall script :: Turns(script, a, b) ==> Distance(a, b) <= Length(script)
  {
    var script := ShortestScript(a, b);
    forall other | Turns(other, a, b)
      ensures Distance(a, b) <= Length(other)
    {
      NoShorterScript(other, a, b);
    }
  }

  lemma {:induction false} ZeroIffEqual(a: string, b: string)
    ensures Distance(a, b) == 0 <==> a == b
  {
    var script := ShortestScript(a, b);
    SelfZero(a);
  }

  lemma Triangle(a: string, b: string, c: string)
    ensures Distance(a, c) <= Distance(a, b) + Distance(b, c)
  {
    var first := ShortestScript(a, b);
    var second := ShortestScript(b, c);
    Compose(first, second, a, b, c);
    NoShorterScript(Append(first, second), a, c);
  }

  lemma {:induction false} AtMostLonger(a: string, b: string)
    ensures Distance(a, b) <= Max(|a|, |b|)
    decreases |a| + |b|
  {
    if a == [] || b == [] {
    } else {
      AtMostLonger(Front(a), Front(b));
    }
  }

  // ---- the methods ----

  lemma TableStep(s1: string, s2: string, i: nat, j: nat)
    requires 0 < i <= |s1| && 0 < j <= |s2|
    ensures Distance(s1[..i], s2[..j]) ==
            if s1[i - 1] == s2[j - 1] then Distance(s1[..i - 1], s2[..j - 1])
            else 1 + Min3(Distance(s1[..i - 1], s2[..j]), Distance(s1[..i], s2[..j - 1]), Distance(s1[..i - 1], s2[..j - 1]))
  {
    assert Front(s1[..i]) == s1[..i - 1] && Front(s2[..j]) == s2[..j - 1];
  }

  /** The rows before i, and row i before column j, are filled. */
  ghost predicate Filled(s1: string, s2: string, dp: array2<nat>, i: nat, j: nat)
    reads dp
  {
    && dp.Length0 == |s1| + 1 && dp.Length1 == |s2| + 1
    && forall x, y :: 0 <= x <= |s1| && 0 <= y <= |s2| && (x < i || (x == i && y < j)) ==>
                        dp[x, y] == Distance(s1[..x], s2[..y])
  }

  /** One cell of the table. */
  method Cell(s1: string, s2: string, dp: array2<nat>, i: nat, j: nat) returns (d: nat)
    requires i <= |s1| && j <= |s2| && Filled(s1, s2, dp, i, j)
    ensures d == Distance(s1[..i], s2[..j])
  {
    if i == 0 {
      d := j;
    } else if j == 0 {
      d := i;
    } else {
      TableStep(s1, s2, i, j);
      if s1[i - 1] == s2[j - 1] {
        d := dp[i - 1, j - 1];
      } else {
        d := 1 + Min3(dp[i - 1, j], dp[i, j - 1], dp[i - 1, j - 1]);
      }
    }
  }

  method GetLevenshteinDistance(s1: string, s2: string) returns (d: nat)
    ensures d == Distance(s1, s2)
  {
    var dp := new nat[|s1| + 1, |s2| + 1]((_, _) => 0);
    for i := 0 to |s1| + 1
      invariant Filled(s1, s2, dp, i, 0)
    {
      for j := 0 to |s2| + 1
        invariant Filled(s1, s2, dp, i, j)
      {
        dp[i, j] := Cell(s1, s2, dp, i, j);
      }
    }
    d := dp[|s1|, |s2|];
    assert s1[..|s1|] == s1 && s2[..|s2|] == s2;
  }

  const SIZE_MAX := SIZE_LIMIT - 1

  /** `keys` are the keys of the map in its order; the strings are shorter than the largest size. */
  method GetMostSimilarString(keys: seq<string>, input: string) returns (mostSimilar: string)
    requires |input| < SIZE_MAX && forall i :: 0 <= i < |keys| ==> |keys[i]| < SIZE_MAX
    ensures keys == [] ==> mostSimilar == ""
    ensures keys != [] ==>
              exists k :: 0 <= k < |keys| && keys[k] == mostSimilar
                          && (forall i :: 0 <= i < |keys| ==> Distance(mostSimilar, input) <= Distance(keys[i], input))
                          && (forall i :: 0 <= i < k ==> Distance(mostSimilar, input) < Distance(keys[i], input))
  {
    mostSimilar := "";
    var minDistance: nat := SIZE_MAX;
    ghost var k := 0;
    for n := 0 to |keys|
      invariant n == 0 ==> minDistance == SIZE_MAX && mostSimilar == ""
      invariant n > 0 ==>
          && 0 <= k < n && keys[k] == mostSimilar && minDistance == Distance(mostSimilar, input)
          && (forall i :: 0 <= i < n ==> minDistance <= Distance(keys[i], input))
          && (forall i :: 0 <= i < k ==> minDistance < Distance(keys[i], input))
    {
      AtMostLonger(keys[n], input);
      var distance := GetLevenshteinDistance(keys[n], input);
      if distance < minDistance {
        minDistance := distance;
        mostSimilar := keys[n];
        k := n;
      }
    }
  }
}
