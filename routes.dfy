/** The route selector of the dashboard: its options, the index it opens at, and the filter. */
module Routes {
  import opened Text
  import opened Feed

  /** The first option of the selector, meaning "all routes". */
  const ALL_ROUTES: string := "Все"

  /** Every element is below every later one in Python's string order (sorted, no duplicates). */
  ghost predicate StrictlyAscending(s: seq<string>) {
    forall i, j :: 0 <= i < j < |s| ==> Less(s[i], s[j])
  }

  /** Some row of `data` has route id `y`. */
  ghost predicate IsRouteOf(y: string, data: seq<VehicleRecord>) {
    exists row :: row in data && row.routeId == y
  }

  lemma BelowHeadBelowAll(x: string, s: seq<string>)
    requires StrictlyAscending(s) && |s| > 0 && Less(x, s[0])
    ensures forall j :: 0 <= j < |s| ==> Less(x, s[j])
  {
    forall j | 0 < j < |s| {
      LessTransitive(x, s[0], s[j]);
    }
  }

  /** `x` added to a strictly ascending sequence, keeping it strictly ascending. */
  function InsertDistinct(x: string, s: seq<string>): (r: seq<string>)
    requires StrictlyAscending(s)
    ensures StrictlyAscending(r)
    ensures forall y :: y in r <==> y == x || y in s
  {
    if s == [] then [x]
    else if x == s[0] then s
    else if Less(x, s[0]) then
      BelowHeadBelowAll(x, s);
      [x] + s
    else
      LessTotal(x, s[0]);
      var t := InsertDistinct(x, s[1..]);
      assert forall y :: y in t ==> Less(s[0], y) by {
        forall y | y in t ensures Less(s[0], y) {
          if y != x {
            var k :| 0 <= k < |s[1..]| && s[1..][k] == y;
            assert s[k + 1] == y;
          }
        }
      }
      [s[0]] + t
  }

  /** The distinct route ids of `data`, in ascending order. */
  function DistinctRoutes(data: seq<VehicleRecord>): (r: seq<string>)
    ensures StrictlyAscending(r)
    ensures forall y :: y in r <==> IsRouteOf(y, data)
  {
    if data == [] then []
    else
      var rest := DistinctRoutes(data[1..]);
      assert forall y :: IsRouteOf(y, data) <==> y == data[0].routeId || IsRouteOf(y, data[1..]) by {
        forall y ensures IsRouteOf(y, data) <==> y == data[0].routeId || IsRouteOf(y, data[1..]) {
          if IsRouteOf(y, data) {
            var row :| row in data && row.routeId == y;
            if row != data[0] {
              assert row in data[1..];
            }
          }
          if IsRouteOf(y, data[1..]) {
            var row :| row in data[1..] && row.routeId == y;
            assert row in data;
          }
          if y == data[0].routeId {
            assert data[0] in data;
          }
        }
      }
      InsertDistinct(data[0].routeId, rest)
  }

  /** Two strictly ascending sequences with the same elements are equal. */
  lemma {:induction false} AscendingUnique(a: seq<string>, b: seq<string>)
    requires StrictlyAscending(a) && StrictlyAscending(b)
    requires forall y :: y in a <==> y in b
    ensures a == b
  {
    if |a| > 0 {
      assert a[0] in b;
    }
    if |b| > 0 {
      assert b[0] in a;
    }
    if a != [] {
      if a[0] != b[0] {
        assert a[0] in b;
        assert b[0] in a;
        var i :| 0 <= i < |a| && a[i] == b[0];
        var j :| 0 <= j < |b| && b[j] == a[0];
        assert Less(a[0], b[0]) by {
          assert i > 0;
        }
        assert Less(b[0], a[0]) by {
          assert j > 0;
        }
        LessAsymmetric(a[0], b[0]);
        assert false;
      }
      forall y ensures y in a[1..] <==> y in b[1..] {
        if y in a[1..] {
          var k :| 0 <= k < |a[1..]| && a[1..][k] == y;
          assert Less(a[0], a[k + 1]);
          LessIrreflexive(y);
          assert y in b;
          assert y != b[0];
        }
        if y in b[1..] {
          var k :| 0 <= k < |b[1..]| && b[1..][k] == y;
          assert Less(b[0], b[k + 1]);
          LessIrreflexive(y);
          assert y in a;
          assert y != a[0];
        }
      }
      AscendingUnique(a[1..], b[1..]);
      assert a == [a[0]] + a[1..];
      assert b == [b[0]] + b[1..];
    }
  }

  /** `["Все"] + sorted(data['route_id'].dropna().unique())`. */
  function RouteOptions(data: seq<VehicleRecord>): (opts: seq<string>)
    ensures |opts| > 0 && opts[0] == ALL_ROUTES
    ensures StrictlyAscending(opts[1..])
    ensures forall y :: y in opts[1..] <==> IsRouteOf(y, data)
  {
    var routes := DistinctRoutes(data);
    assert ([ALL_ROUTES] + routes)[1..] == routes;
    [ALL_ROUTES] + routes
  }

  /** Whatever sorts the distinct route ids, the options are the sentinel followed by them. */
  lemma RouteOptionsUnique(data: seq<VehicleRecord>, sorted: seq<string>)
    requires StrictlyAscending(sorted)
    requires forall y :: y in sorted <==> IsRouteOf(y, data)
    ensures RouteOptions(data) == [ALL_ROUTES] + sorted
  {
    var opts := RouteOptions(data);
    AscendingUnique(opts[1..], sorted);
    assert opts == [opts[0]] + opts[1..];
  }

  /** `s.index(x)`: the first position of `x` in `s`. */
  function IndexOf(s: seq<string>, x: string): (i: nat)
    requires x in s
    ensures i < |s| && s[i] == x
    ensures forall j :: 0 <= j < i ==> s[j] != x
  {
    if s[0] == x then 0 else 1 + IndexOf(s[1..], x)
  }

  /** The index the selector opens at: the remembered selection's position, or 0. */
  function SelectionIndex(options: seq<string>, selected: string): (i: nat)
    ensures |options| > 0 ==> i < |options|
    ensures selected in options ==> options[i] == selected
    ensures selected in options ==> forall j :: 0 <= j < i ==> options[j] != selected
    ensures selected !in options ==> i == 0
  {
    if selected in options then IndexOf(options, selected) else 0
  }

  /** The rows of `data` whose route id is `route`, in order. */
  function KeepRoute(data: seq<VehicleRecord>, route: string): seq<VehicleRecord> {
    if data == [] then []
    else (if data[0].routeId == route then [data[0]] else []) + KeepRoute(data[1..], route)
  }

  /** `a` is `b` with some elements left out. */
  ghost predicate IsSubsequence(a: seq<VehicleRecord>, b: seq<VehicleRecord>)
    decreases |b|
  {
    if a == [] then true
    else if b == [] then false
    else if a[0] == b[0] then IsSubsequence(a[1..], b[1..])
    else IsSubsequence(a, b[1..])
  }

  /** The kept rows are rows of `data` in their order, each with the route, and each row with
      the route is kept as often as it occurs. */
  lemma {:induction false} KeepRouteExact(data: seq<VehicleRecord>, route: string)
    ensures IsSubsequence(KeepRoute(data, route), data)
    ensures forall r :: r in KeepRoute(data, route) ==> r.routeId == route
    ensures forall r: VehicleRecord ::
      multiset(KeepRoute(data, route))[r] == if r.routeId == route then multiset(data)[r] else 0
  {
    if data != [] {
      KeepRouteExact(data[1..], route);
      var rest := KeepRoute(data[1..], route);
      assert data == [data[0]] + data[1..];
      assert multiset(data) == multiset{data[0]} + multiset(data[1..]);
      if data[0].routeId == route {
        assert ([data[0]] + rest)[1..] == rest;
      } else {
        assert KeepRoute(data, route) == rest;
        assert IsSubsequence(rest, data) by {
          if rest != [] {
            assert rest[0] in rest;
          }
        }
      }
    }
  }

  /** Filtering is row by row: filtering a concatenation concatenates the filtered parts. */
  lemma {:induction false} KeepRouteAppend(a: seq<VehicleRecord>, b: seq<VehicleRecord>, route: string)
    ensures KeepRoute(a + b, route) == KeepRoute(a, route) + KeepRoute(b, route)
  {
    if a == [] {
      assert a + b == b;
    } else {
      var head := if a[0].routeId == route then [a[0]] else [];
      assert (a + b)[0] == a[0] && (a + b)[1..] == a[1..] + b;
      assert KeepRoute(a + b, route) == head + KeepRoute(a[1..] + b, route);
      assert KeepRoute(a, route) == head + KeepRoute(a[1..], route);
      KeepRouteAppend(a[1..], b, route);
    }
  }

  /** The view the dashboard shows for a selection: everything for the sentinel, otherwise the
      rows of that route. */
  function FilterRoute(data: seq<VehicleRecord>, selected: string): seq<VehicleRecord> {
    if selected == ALL_ROUTES then data else KeepRoute(data, selected)
  }

  /**
   * The sentinel shows the data unchanged; any other selection shows the rows of that route in
   * their original order, each as often as it occurs, and nothing when no row has that route.
   */
  lemma FilterRouteExact(data: seq<VehicleRecord>, selected: string)
    ensures selected == ALL_ROUTES ==> FilterRoute(data, selected) == data
    ensures selected != ALL_ROUTES ==> IsSubsequence(FilterRoute(data, selected), data)
    ensures selected != ALL_ROUTES ==> forall r :: r in FilterRoute(data, selected) ==> r.routeId == selected
    ensures selected != ALL_ROUTES ==> forall r: VehicleRecord ::
      r.routeId == selected ==> multiset(FilterRoute(data, selected))[r] == multiset(data)[r]
    ensures selected != ALL_ROUTES && !IsRouteOf(selected, data) ==> FilterRoute(data, selected) == []
  {
    if selected != ALL_ROUTES {
      KeepRouteExact(data, selected);
      var view := KeepRoute(data, selected);
      if view != [] {
        assert view[0] in view;
        assert multiset(view)[view[0]] > 0;
        assert view[0] in data;
      }
    }
  }
}
