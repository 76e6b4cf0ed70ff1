/** The route tables of the dashboard: exact paths, and prefixes tried longest first. */
module Router {
  import opened Outcomes

  type Handler = string

  datatype Route = Route(prefix: string, param: string, handler: Handler)

  predicate Matches(r: Route, path: string) {
    |r.prefix| <= |path| && path[..|r.prefix|] == r.prefix
  }

  // ---- the sorted table ----

  /** The place that a stable sort by descending length gives a new last element of a sorted list. */
  function Insert(table: seq<Route>, r: Route): seq<Route> {
    if table == [] then [r]
    else if |table[0].prefix| >= |r.prefix| then [table[0]] + Insert(table[1..], r)
    else [r] + table
  }

  /** `sort(key=len of prefix, reverse=True)`, which is stable. */
  function StableSort(routes: seq<Route>): seq<Route> {
    if routes == [] then [] else Insert(StableSort(routes[..|routes| - 1]), routes[|routes| - 1])
  }

  predicate Descending(table: seq<Route>) {
    table == [] ||
    (Descending(table[1..]) && (|table| > 1 ==> |table[0].prefix| >= |table[1].prefix|))
  }

  function IfLength(r: Route, n: nat): seq<Route> {
    if |r.prefix| == n then [r] else []
  }

  function OfLength(routes: seq<Route>, n: nat): seq<Route> {
    if routes == [] then []
    else IfLength(routes[0], n) + OfLength(routes[1..], n)
  }

  /** The first route of the table whose prefix the path has. */
  function FirstMatch(table: seq<Route>, path: string): (found: Option<Route>)
    ensures found.Some? ==> Matches(found.value, path)
  {
    if table == [] then None
    else if Matches(table[0], path) then Some(table[0])
    else FirstMatch(table[1..], path)
  }

  datatype Answer = Answer(handler: Handler, captured: Option<(string, string)>)

  function Chosen(exact: map<string, Handler>, table: seq<Route>, path: string): Option<Answer> {
    if path in exact then Some(Answer(exact[path], None))
    else
      match FirstMatch(table, path)
      case None => None
      case Some(r) => Some(Answer(r.handler, Some((r.param, path[|r.prefix|..]))))
  }

  class Routes {
    var exact: map<string, Handler>
    var prefixes: seq<Route>

    constructor ()
      ensures exact == map[] && prefixes == []
    {
      exact, prefixes := map[], [];
    }

    method AddExact(path: string, handler: Handler)
      modifies `exact
      ensures exact == old(exact)[path := handler]
    {
      exact := exact[path := handler];
    }

    method AddPrefix(prefix: string, param: string, handler: Handler)
      modifies `prefixes
      ensures prefixes == StableSort(old(prefixes) + [Route(prefix, param, handler)])
    {
      prefixes := prefixes + [Route(prefix, param, handler)];
      prefixes := StableSort(prefixes);
    }

    /** The handler that is called, and the path parameters it finds. */
    method Dispatch(path: string, params: map<string, string>)
      returns (handler: Option<Handler>, after: map<string, string>)
      ensures match Chosen(exact, prefixes, path)
              case None => handler == None && after == params
              case Some(a) =>
                && handler == Some(a.handler)
                && after == if a.captured.Some? then params[a.captured.value.0 := a.captured.value.1] else params
    {
      if path in exact {
        return Some(exact[path]), params;
      }
      assert prefixes[0..] == prefixes;
      for i := 0 to |prefixes|
        invariant FirstMatch(prefixes, path) == FirstMatch(prefixes[i..], path)
      {
        assert prefixes[i..][0] == prefixes[i] && prefixes[i..][1..] == prefixes[i + 1..];
        var r := prefixes[i];
        if Matches(r, path) {
          return Some(r.handler), params[r.param := path[|r.prefix|..]];
        }
      }
      return None, params;
    }
  }

  // ---- any sequence of registrations ----

  /** The table after registering routes one by one, sorting it each time. */
  function TableAfter(routes: seq<Route>): seq<Route> {
    if routes == [] then [] else StableSort(TableAfter(routes[..|routes| - 1]) + [routes[|routes| - 1]])
  }

  lemma {:induction false} InsertDescends(table: seq<Route>, r: Route)
    requires Descending(table)
    ensures Descending(Insert(table, r))
    ensures Insert(table, r) != [] && (Insert(table, r)[0] == r || (table != [] && Insert(table, r)[0] == table[0]))
  {
    if table != [] {
      if |table[0].prefix| >= |r.prefix| {
        InsertDescends(table[1..], r);
        var rest := Insert(table[1..], r);
        assert ([table[0]] + rest)[1..] == rest;
      } else {
        assert ([r] + table)[1..] == table;
      }
    }
  }

  lemma Regrouped(a: seq<Route>, b: seq<Route>, c: seq<Route>)
    ensures (a + b) + c == a + (b + c)
  {
  }

  lemma {:induction false} InsertKeeps(table: seq<Route>, r: Route, n: nat)
    requires Descending(table)
    ensures OfLength(Insert(table, r), n) == OfLength(table, n) + IfLength(r, n)
  {
    if table == [] {
      assert [r][1..] == [];
    } else if |table[0].prefix| >= |r.prefix| {
      InsertKeeps(table[1..], r, n);
      Regrouped(IfLength(table[0], n), OfLength(table[1..], n), IfLength(r, n));
    } else {
      NoneAsLong(table, |r.prefix|);
    }
  }

  lemma {:induction false} NoneAsLong(table: seq<Route>, n: nat)
    requires Descending(table) && (table != [] ==> |table[0].prefix| < n)
    ensures OfLength(table, n) == []
  {
    if table != [] {
      NoneAsLong(table[1..], n);
    }
  }

  lemma {:induction false} OfLengthSnoc(routes: seq<Route>, r: Route, n: nat)
    ensures OfLength(routes + [r], n) == OfLength(routes, n) + IfLength(r, n)
  {
    if routes == [] {
      assert [r] == [r] + [];
    } else {
      OfLengthSnoc(routes[1..], r, n);
      assert routes + [r] == [routes[0]] + (routes[1..] + [r]);
      Regrouped(IfLength(routes[0], n), OfLength(routes[1..], n), IfLength(r, n));
    }
  }

  lemma {:induction false} SortDescends(routes: seq<Route>)
    ensures Descending(StableSort(routes))
  {
    if routes != [] {
      SortDescends(routes[..|routes| - 1]);
      InsertDescends(StableSort(routes[..|routes| - 1]), routes[|routes| - 1]);
    }
  }

  lemma {:induction false} SortKeeps(routes: seq<Route>, n: nat)
    ensures OfLength(StableSort(routes), n) == OfLength(routes, n)
  {
    if routes != [] {
      var before, last := routes[..|routes| - 1], routes[|routes| - 1];
      SortKeeps(before, n);
      SortDescends(before);
      InsertKeeps(StableSort(before), last, n);
      OfLengthSnoc(before, last, n);
      assert routes == before + [last];
    }
  }

  /** The sort is a stable sort: descending, and among routes of one length the order of the list. */
  lemma SortIsStable(routes: seq<Route>, n: nat)
    ensures Descending(StableSort(routes))
    ensures OfLength(StableSort(routes), n) == OfLength(routes, n)
  {
    SortDescends(routes);
    SortKeeps(routes, n);
  }

  lemma {:induction false} InsertLast(table: seq<Route>, r: Route)
    requires Descending(table + [r])
    ensures Insert(table, r) == table + [r] && Descending(table)
  {
    if table != [] {
      assert (table + [r])[1..] == table[1..] + [r];
      InsertLast(table[1..], r);
      AllAsLong(table[1..], r);
      assert (table + [r])[0] == table[0] && (table + [r])[1] == (table[1..] + [r])[0];
      assert table == [table[0]] + table[1..];
      assert |table[0].prefix| >= |r.prefix|;
    }
  }

  lemma {:induction false} AllAsLong(table: seq<Route>, r: Route)
    requires Descending(table + [r])
    ensures |(table + [r])[0].prefix| >= |r.prefix|
  {
    if table != [] {
      assert (table + [r])[1..] == table[1..] + [r];
      AllAsLong(table[1..], r);
      assert (table + [r])[1] == (table[1..] + [r])[0];
    }
  }

  lemma {:induction false} SortedStays(table: seq<Route>)
    requires Descending(table)
    ensures StableSort(table) == table
  {
    if table != [] {
      var before, last := table[..|table| - 1], table[|table| - 1];
      assert table == before + [last];
      InsertLast(before, last);
      SortedStays(before);
    }
  }

  /** Sorting after each registration gives the one stable sort of all of them. */
  lemma {:induction false} TableIsSorted(routes: seq<Route>)
    ensures TableAfter(routes) == StableSort(routes) && Descending(TableAfter(routes))
  {
    if routes != [] {
      var before, last := routes[..|routes| - 1], routes[|routes| - 1];
      TableIsSorted(before);
      var table := TableAfter(before);
      SortedStays(table);
      assert (table + [last])[..|table|] == table;
      SortIsStable(routes, 0);
    }
  }

  // ---- dispatch finds the longest prefix ----

  /** The better of a candidate and a later route: the later one only if it matches and is longer. */
  function Better(best: Option<Route>, r: Route, path: string): Option<Route> {
    if Matches(r, path) && (best.None? || |best.value.prefix| < |r.prefix|) then Some(r) else best
  }

  lemma {:induction false} InsertMatch(table: seq<Route>, r: Route, path: string)
    requires Descending(table)
    ensures FirstMatch(Insert(table, r), path) == Better(FirstMatch(table, path), r, path)
  {
    if table == [] {
      assert [r][1..] == [];
    } else if |table[0].prefix| >= |r.prefix| {
      InsertMatch(table[1..], r, path);
      assert ([table[0]] + Insert(table[1..], r))[1..] == Insert(table[1..], r);
    } else {
      assert ([r] + table)[1..] == table;
      if FirstMatch(table, path).Some? {
        ShorterMatch(table, path);
      }
    }
  }

  lemma {:induction false} ShorterMatch(table: seq<Route>, path: string)
    requires Descending(table) && FirstMatch(table, path).Some?
    ensures |FirstMatch(table, path).value.prefix| <= |table[0].prefix|
  {
    if !Matches(table[0], path) {
      ShorterMatch(table[1..], path);
    }
  }

  /** Route `i` has the longest prefix of the path among the routes, and is the earliest with that length. */
  ghost predicate IsLongest(routes: seq<Route>, path: string, i: int) {
    && 0 <= i < |routes| && Matches(routes[i], path)
    && forall j :: 0 <= j < |routes| && Matches(routes[j], path) ==>
         |routes[j].prefix| < |routes[i].prefix| || (|routes[j].prefix| == |routes[i].prefix| && i <= j)
  }

  ghost predicate NoneMatches(routes: seq<Route>, path: string) {
    forall j :: 0 <= j < |routes| ==> !Matches(routes[j], path)
  }

  /** The longest match of a list of registrations, found in one pass. */
  function LongestMatch(routes: seq<Route>, path: string): Option<Route> {
    if routes == [] then None
    else Better(LongestMatch(routes[..|routes| - 1], path), routes[|routes| - 1], path)
  }

  lemma {:induction false} SortedMatch(routes: seq<Route>, path: string)
    ensures FirstMatch(StableSort(routes), path) == LongestMatch(routes, path)
  {
    if routes != [] {
      var before := routes[..|routes| - 1];
      SortedMatch(before, path);
      SortIsStable(before, 0);
      InsertMatch(StableSort(before), routes[|routes| - 1], path);
    }
  }

  lemma {:induction false} LongestIndex(routes: seq<Route>, path: string) returns (i: int)
    ensures LongestMatch(routes, path).None? ==> NoneMatches(routes, path)
    ensures LongestMatch(routes, path).Some? ==>
            IsLongest(routes, path, i) && routes[i] == LongestMatch(routes, path).value
  {
    i := 0;
    if routes != [] {
      var before, last := routes[..|routes| - 1], routes[|routes| - 1];
      i := LongestIndex(before, path);
      forall j | 0 <= j < |before| ensures routes[j] == before[j] {}
      if Better(LongestMatch(before, path), last, path) != LongestMatch(before, path) {
        i := |before|;
      }
    }
  }

  /**
    After any sequence of registrations the table yields the longest registered prefix of the path, the
    earliest registered among equals, and nothing exactly when no registered prefix fits.
   */
  lemma TableFindsLongest(routes: seq<Route>, path: string)
    ensures var found := FirstMatch(TableAfter(routes), path);
            && (found.None? <==> NoneMatches(routes, path))
            && (found.Some? ==> exists i :: IsLongest(routes, path, i) && routes[i] == found.value)
  {
    TableIsSorted(routes);
    SortedMatch(routes, path);
    var i := LongestIndex(routes, path);
  }

  lemma CapturedRest(r: Route, path: string)
    requires Matches(r, path)
    ensures r.prefix + path[|r.prefix|..] == path
  {
  }

  /**
    Dispatch takes the exact route of the path if there is one, and otherwise the longest registered
    prefix; prefix and captured parameter make up the path.
   */
  lemma DispatchIsLongest(exact: map<string, Handler>, routes: seq<Route>, path: string)
    ensures var a := Chosen(exact, TableAfter(routes), path);
            && (path in exact ==> a == Some(Answer(exact[path], None)))
            && (path !in exact ==>
                  && (a.None? <==> NoneMatches(routes, path))
                  && (a.Some? ==> a.value.captured.Some? && exists i ::
                        && IsLongest(routes, path, i)
                        && a.value.handler == routes[i].handler
                        && a.value.captured.value.0 == routes[i].param
                        && routes[i].prefix + a.value.captured.value.1 == path))
  {
    TableFindsLongest(routes, path);
    var found := FirstMatch(TableAfter(routes), path);
    if found.Some? {
      CapturedRest(found.value, path);
    }
  }

  lemma LongestAtLeast(a: seq<Route>, b: seq<Route>, path: string, j: int)
    requires (forall r :: r in b ==> r in a) && IsLongest(b, path, j)
    ensures LongestMatch(a, path).Some? && LongestMatch(a, path).value in a &&
            Matches(LongestMatch(a, path).value, path)
    ensures |LongestMatch(a, path).value.prefix| >= |b[j].prefix|
  {
    var i := LongestIndex(a, path);
    assert b[j] in a;
    var k :| 0 <= k < |a| && a[k] == b[j];
    assert Matches(a[k], path);
  }

  /** With distinct prefixes the order of registration does not matter. */
  lemma OrderIsIrrelevant(exact: map<string, Handler>, a: seq<Route>, b: seq<Route>, path: string)
    requires forall r :: r in a <==> r in b
    requires forall r, q :: r in a && q in a && r.prefix == q.prefix ==> r == q
    ensures Chosen(exact, TableAfter(a), path) == Chosen(exact, TableAfter(b), path)
  {
    TableIsSorted(a);
    TableIsSorted(b);
    SortedMatch(a, path);
    SortedMatch(b, path);
    SameLongest(a, b, path);
  }

  lemma SameLongest(a: seq<Route>, b: seq<Route>, path: string)
    requires forall r :: r in a <==> r in b
    requires forall r, q :: r in a && q in a && r.prefix == q.prefix ==> r == q
    ensures LongestMatch(a, path) == LongestMatch(b, path)
  {
    var i := LongestIndex(a, path);
    var j := LongestIndex(b, path);
    if LongestMatch(a, path).Some? {
      LongestAtLeast(b, a, path, i);
    }
    if LongestMatch(b, path).Some? {
      LongestAtLeast(a, b, path, j);
    }
  }

  /** A path made of a registered prefix and any rest is dispatched, to a prefix at least as long. */
  lemma PrefixAndRestIsDispatched(exact: map<string, Handler>, routes: seq<Route>, i: nat, rest: string)
    requires i < |routes|
    ensures var path := routes[i].prefix + rest;
            var a := Chosen(exact, TableAfter(routes), path);
            && a.Some?
            && (path !in exact ==> a.value.captured.Some? && |a.value.captured.value.1| <= |rest|)
  {
    DispatchIsLongest(exact, routes, routes[i].prefix + rest);
  }

  /** Nothing else is: a path that is no exact route and begins with no registered prefix finds no handler. */
  lemma OtherPathsAreNotDispatched(exact: map<string, Handler>, routes: seq<Route>, path: string)
    requires path !in exact
    requires forall i :: 0 <= i < |routes| && |routes[i].prefix| <= |path| ==>
      path[..|routes[i].prefix|] != routes[i].prefix
    ensures Chosen(exact, TableAfter(routes), path) == None
  {
    DispatchIsLongest(exact, routes, path);
  }

  /**
    A registered prefix with any rest goes to its own handler, with the rest as its parameter, unless a
    longer registered prefix, or an equal one registered before, begins the path too.
   */
  lemma OwnHandlerGetsRest(exact: map<string, Handler>, routes: seq<Route>, i: nat, rest: string)
    requires i < |routes| && routes[i].prefix + rest !in exact
    requires var path := routes[i].prefix + rest;
             forall j :: 0 <= j < |routes| && |routes[j].prefix| <= |path| &&
                         path[..|routes[j].prefix|] == routes[j].prefix ==>
               |routes[j].prefix| < |routes[i].prefix| || (|routes[j].prefix| == |routes[i].prefix| && i <= j)
    ensures Chosen(exact, TableAfter(routes), routes[i].prefix + rest)
            == Some(Answer(routes[i].handler, Some((routes[i].param, rest))))
  {
    var path := routes[i].prefix + rest;
    assert IsLongest(routes, path, i);
    TableFindsLongest(routes, path);
    var k :| IsLongest(routes, path, k) && routes[k] == FirstMatch(TableAfter(routes), path).value;
  }
}
