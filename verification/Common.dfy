/** Shared by the components: optional values, the trimming of strings and facts about collections. */
module Common {

  datatype Option<+T> = None | Some(value: T)

  // ----- Stable insertion sort

  function Insert<T>(x: T, xs: seq<T>, leq: (T, T) -> bool): (r: seq<T>)
    ensures |r| == |xs| + 1 && multiset(r) == multiset(xs) + multiset{x}
  {
    if xs == [] || leq(x, xs[0]) then
      assert multiset([x] + xs) == multiset(xs) + multiset{x};
      [x] + xs
    else
      assert xs == [xs[0]] + xs[1..];
      [xs[0]] + Insert(x, xs[1..], leq)
  }

  /** Inserting from the front, ahead of equals, keeps equals in their original order. */
  function Sort<T>(xs: seq<T>, leq: (T, T) -> bool): (r: seq<T>)
    ensures |r| == |xs| && multiset(r) == multiset(xs)
  {
    if xs == [] then []
    else
      assert xs == [xs[0]] + xs[1..];
      Insert(xs[0], Sort(xs[1..], leq), leq)
  }

  ghost predicate TotalPreorder<T(!new)>(leq: (T, T) -> bool) {
    (forall a, b :: leq(a, b) || leq(b, a)) && forall a, b, c :: leq(a, b) && leq(b, c) ==> leq(a, c)
  }

  ghost predicate Ordered<T>(xs: seq<T>, leq: (T, T) -> bool) {
    forall i, j :: 0 <= i < j < |xs| ==> leq(xs[i], xs[j])
  }

  lemma {:induction false} ConsOrdered<T(!new)>(x: T, xs: seq<T>, leq: (T, T) -> bool)
    requires Ordered(xs, leq) && forall y :: y in xs ==> leq(x, y)
    ensures Ordered([x] + xs, leq)
  {
  }

  lemma {:induction false} InsertOrdered<T(!new)>(x: T, xs: seq<T>, leq: (T, T) -> bool)
    requires TotalPreorder(leq) && Ordered(xs, leq)
    ensures Ordered(Insert(x, xs, leq), leq)
  {
    if xs == [] {
    } else if leq(x, xs[0]) {
      ConsOrdered(x, xs, leq);
    } else {
      var tail := Insert(x, xs[1..], leq);
      InsertOrdered(x, xs[1..], leq);
      SameMembers(tail, xs[1..] + [x]);
      assert leq(xs[0], x);
      ConsOrdered(xs[0], tail, leq);
    }
  }

  lemma {:induction false} SortOrders<T(!new)>(xs: seq<T>, leq: (T, T) -> bool)
    requires TotalPreorder(leq)
    ensures Ordered(Sort(xs, leq), leq)
  {
    if xs == [] {
    } else {
      SortOrders(xs[1..], leq);
      InsertOrdered(xs[0], Sort(xs[1..], leq), leq);
    }
  }

  /** The elements that the order ties with `a`. */
  function Ties<T>(xs: seq<T>, a: T, leq: (T, T) -> bool): seq<T> {
    if xs == [] then []
    else (if leq(a, xs[0]) && leq(xs[0], a) then [xs[0]] else []) + Ties(xs[1..], a, leq)
  }

  lemma {:induction false} InsertTies<T(!new)>(x: T, xs: seq<T>, a: T, leq: (T, T) -> bool)
    requires TotalPreorder(leq)
    ensures Ties(Insert(x, xs, leq), a, leq) == Ties([x] + xs, a, leq)
  {
    if xs == [] || leq(x, xs[0]) {
    } else {
      var head, rest := xs[0], xs[1..];
      assert xs == [head] + rest;
      InsertTies(x, rest, a, leq);
      TiesCons(head, Insert(x, rest, leq), a, leq);
      TiesCons(x, rest, a, leq);
      TiesCons(x, xs, a, leq);
      TiesCons(head, rest, a, leq);
      NotBothTied(x, head, a, leq);
    }
  }

  lemma {:induction false} TiesCons<T>(x: T, xs: seq<T>, a: T, leq: (T, T) -> bool)
    ensures Ties([x] + xs, a, leq) == (if leq(a, x) && leq(x, a) then [x] else []) + Ties(xs, a, leq)
  {
    assert ([x] + xs)[1..] == xs;
  }

  lemma {:induction false} NotBothTied<T(!new)>(x: T, y: T, a: T, leq: (T, T) -> bool)
    requires TotalPreorder(leq) && !leq(x, y)
    ensures !(leq(x, a) && leq(a, y))
  {
  }

  /** The sort is stable: tied elements keep their order. */
  lemma {:induction false} SortIsStable<T(!new)>(xs: seq<T>, a: T, leq: (T, T) -> bool)
    requires TotalPreorder(leq)
    ensures Ties(Sort(xs, leq), a, leq) == Ties(xs, a, leq)
  {
    if xs == [] {
    } else {
      var rest := Sort(xs[1..], leq);
      SortIsStable(xs[1..], a, leq);
      InsertTies(xs[0], rest, a, leq);
      assert ([xs[0]] + rest)[1..] == rest;
    }
  }

  // ----- Trimming

  /** What a trimming function takes for white space. */
  type Space = char -> bool

  function TrimStart(s: string, space: Space): (r: string)
    ensures |r| <= |s|
  {
    if s != "" && space(s[0]) then TrimStart(s[1..], space) else s
  }

  function TrimEnd(s: string, space: Space): (r: string)
    ensures |r| <= |s|
  {
    if s != "" && space(s[|s| - 1]) then TrimEnd(s[..|s| - 1], space) else s
  }

  function Trim(s: string, space: Space): string {
    TrimEnd(TrimStart(s, space), space)
  }

  lemma {:induction false} TrimStartLaw(s: string, space: Space)
    ensures var r := TrimStart(s, space);
      && r == s[|s| - |r|..] && (r == "" || !space(r[0]))
      && forall i :: 0 <= i < |s| - |r| ==> space(s[i])
  {
    if s == "" || !space(s[0]) {
    } else {
      TrimStartLaw(s[1..], space);
    }
  }

  lemma {:induction false} TrimEndLaw(s: string, space: Space)
    ensures var r := TrimEnd(s, space);
      && r == s[..|r|] && (r == "" || !space(r[|r| - 1]))
      && forall i :: |r| <= i < |s| ==> space(s[i])
  {
    if s == "" || !space(s[|s| - 1]) {
    } else {
      TrimEndLaw(s[..|s| - 1], space);
    }
  }

  ghost predicate AllSpace(s: string, space: Space) {
    forall i :: 0 <= i < |s| ==> space(s[i])
  }

  /** Neither starts nor ends with white space. */
  ghost predicate Solid(s: string, space: Space) {
    s != "" ==> !space(s[0]) && !space(s[|s| - 1])
  }

  /** Trimming splits a text into white space, a solid middle and white space, in the only way there is. */
  lemma {:induction false} TrimIff(s: string, core: string, space: Space)
    ensures Trim(s, space) == core <==>
      Solid(core, space) && exists a, b :: Padded(s, a, core, b, space)
  {
    if Trim(s, space) == core {
      var a, b := TrimSplits(s, space);
    }
    if a, b :| Solid(core, space) && Padded(s, a, core, b, space) {
      TrimPadded(a, core, b, space);
    }
  }

  ghost predicate Padded(s: string, a: string, core: string, b: string, space: Space) {
    AllSpace(a, space) && AllSpace(b, space) && s == a + core + b
  }

  lemma {:induction false} TrimSplits(s: string, space: Space) returns (a: string, b: string)
    ensures Solid(Trim(s, space), space) && Padded(s, a, Trim(s, space), b, space)
  {
    var r;
    a, r := SplitStart(s, space);
    b := SplitEnd(r, space);
    KeepsHead(Trim(s, space), b);
    Associate(a, Trim(s, space), b);
  }

  lemma KeepsHead<T>(a: seq<T>, b: seq<T>)
    ensures a != [] ==> (a + b)[0] == a[0]
  {
  }

  lemma {:induction false} SplitStart(s: string, space: Space) returns (a: string, r: string)
    ensures r == TrimStart(s, space) && AllSpace(a, space) && s == a + r && (r == "" || !space(r[0]))
  {
    r := TrimStart(s, space);
    TrimStartLaw(s, space);
    a := s[..|s| - |r|];
  }

  lemma {:induction false} SplitEnd(s: string, space: Space) returns (b: string)
    ensures var r := TrimEnd(s, space);
      AllSpace(b, space) && s == r + b && (r == "" || !space(r[|r| - 1]))
  {
    var r := TrimEnd(s, space);
    TrimEndLaw(s, space);
    b := s[|r|..];
  }

  /** A solid text starts and ends without white space. */
  lemma {:induction false} SolidEnds(a: string, b: string, space: Space)
    ensures Solid(a + b, space) && AllSpace(a, space) ==> a == ""
    ensures !(a + b != "" && space((a + b)[|a + b| - 1])) && AllSpace(b, space) ==> b == ""
  {
    assert a != "" ==> (a + b)[0] == a[0];
    assert b != "" ==> (a + b)[|a + b| - 1] == b[|b| - 1];
  }

  lemma {:induction false} TrimPadded(a: string, core: string, b: string, space: Space)
    requires AllSpace(a, space) && AllSpace(b, space) && Solid(core, space)
    ensures Trim(a + core + b, space) == core
  {
    if core == "" {
      SkipSpace(a + core + b, "", space);
      assert (a + core + b) + "" == a + core + b;
    } else {
      SkipSpace(a, core + b, space);
      assert a + (core + b) == a + core + b;
      DropSpace(core, b, space);
    }
  }

  lemma {:induction false} SkipSpace(a: string, rest: string, space: Space)
    requires AllSpace(a, space) && (rest == "" || !space(rest[0]))
    ensures TrimStart(a + rest, space) == rest
  {
    if a == "" {
      assert a + rest == rest;
    } else {
      assert (a + rest)[1..] == a[1..] + rest;
      SkipSpace(a[1..], rest, space);
    }
  }

  lemma {:induction false} DropSpace(rest: string, b: string, space: Space)
    requires AllSpace(b, space) && (rest == "" || !space(rest[|rest| - 1]))
    ensures TrimEnd(rest + b, space) == rest
  {
    if b == "" {
      assert rest + b == rest;
    } else {
      var init := b[..|b| - 1];
      assert (rest + b)[..|rest + b| - 1] == rest + init;
      DropSpace(rest, init, space);
    }
  }

  // ----- Collections

  lemma Associate<T>(a: seq<T>, b: seq<T>, c: seq<T>)
    ensures a + b + c == a + (b + c)
  {
  }

  lemma AddThenPut<K, V>(a: map<K, V>, b: map<K, V>, key: K, value: V)
    ensures a + b[key := value] == (a + b)[key := value]
  {
  }

  lemma SameMembers<T(!new)>(xs: seq<T>, ys: seq<T>)
    requires multiset(xs) == multiset(ys)
    ensures forall x :: x in xs <==> x in ys
  {
    forall x ensures x in xs <==> x in ys {
      assert x in xs <==> x in multiset(xs);
      assert x in ys <==> x in multiset(ys);
    }
  }
}
