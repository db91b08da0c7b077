/** Route lookup as the documentation describes it: over the plain list of registered routes. */
module Routes {
  import opened Types
  import opened Paths
  import opened Messages

  /** Identity of a boxed handler. */
  type Handler = nat

  datatype MethodHandlers = MethodHandlers(get: Option<Handler>, post: Option<Handler>, put: Option<Handler>,
      delete: Option<Handler>)

  const NO_HANDLERS := MethodHandlers(None, None, None, None)

  function Or<T>(a: Option<T>, b: Option<T>): Option<T> { if a.Some? then a else b }

  /** Handlers of `later` win, method by method. */
  function Merge(earlier: MethodHandlers, later: MethodHandlers): MethodHandlers {
    MethodHandlers(Or(later.get, earlier.get), Or(later.post, earlier.post), Or(later.put, earlier.put),
        Or(later.delete, earlier.delete))
  }

  predicate HasAny(h: MethodHandlers) { h.get.Some? || h.post.Some? || h.put.Some? || h.delete.Some? }

  function RetrieveHandler(h: MethodHandlers, m: RequestType): Option<Handler> {
    match m
    case Get => h.get
    case Post => h.post
    case Put => h.put
    case Delete => h.delete
    case OtherMethod(_) => None
  }

  // ---- Patterns ----

  /** A pattern segment matches itself or, when it starts with a colon, anything. */
  datatype Key = Static(segment: Text) | Param

  predicate IsParam(segment: Text) { segment != [] && segment[0] == COLON }

  function KeyOf(segment: Text): Key { if IsParam(segment) then Param else Static(segment) }

  function ParamName(segment: Text): Text
    requires IsParam(segment)
  {
    segment[1..]
  }

  datatype Route = Route(segments: seq<Text>, handlers: MethodHandlers)

  /** A pattern, or a prefix of one: the keys from the root of the trie on. */
  datatype Pattern = Root | Step(parent: Pattern, key: Key)

  function Depth(p: Pattern): nat { if p.Root? then 0 else Depth(p.parent) + 1 }

  function PatternOf(segments: seq<Text>): (p: Pattern)
    ensures Depth(p) == |segments|
  {
    if segments == [] then Root
    else Step(PatternOf(segments[..|segments| - 1]), KeyOf(segments[|segments| - 1]))
  }

  /** The routes of `live` whose pattern has `key` in position i, in registration order. */
  function Offering(live: seq<Route>, i: nat, key: Key): (r: seq<Route>)
    ensures forall x :: x in r <==> x in live && i < |x.segments| && KeyOf(x.segments[i]) == key
  {
    if live == [] then []
    else
      var x := live[0];
      (if i < |x.segments| && KeyOf(x.segments[i]) == key then [x] else []) + Offering(live[1..], i, key)
  }

  /** Merged handlers of the routes of `live` that end after n segments; the last registered wins. */
  function HandlersOf(live: seq<Route>, n: nat): MethodHandlers {
    if live == [] then NO_HANDLERS
    else
      var x := live[|live| - 1];
      var earlier := HandlersOf(live[..|live| - 1], n);
      if |x.segments| == n then Merge(earlier, x.handlers) else earlier
  }

  type Params = map<Text, Text>

  datatype Match = Match(handlers: MethodHandlers, params: Params)

  /** Narrow the routes segment by segment: to those with this very segment if there are any, else to those
      with a parameter there, which the first of them names. Never go back. */
  function Resolve(live: seq<Route>, i: nat, segments: seq<Text>, params: Params): Option<Match>
    requires i <= |segments|
    decreases |segments| - i
  {
    if i == |segments| then
      var h := HandlersOf(live, i);
      if HasAny(h) then Some(Match(h, params)) else None
    else
      var exact := Offering(live, i, Static(segments[i]));
      var open_ := Offering(live, i, Param);
      if exact != [] then Resolve(exact, i + 1, segments, params)
      else if open_ != [] then
        Resolve(open_, i + 1, segments, params[ParamName(open_[0].segments[i]) := segments[i]])
      else None
  }

  datatype Reply = Status(status: ResponseType) | Invoke(handler: Handler, params: Params)

  /** What the server does with a request. */
  function Dispatch(routes: seq<Route>, path: Text, m: RequestType): Reply {
    match Resolve(routes, 0, Segments(path), map[])
    case None => Status(NotFound)
    case Some(found) =>
      match RetrieveHandler(found.handlers, m)
      case None => Status(MethodNotAllowed)
      case Some(h) => Invoke(h, found.params)
  }

  // ---- The same lookup along one pattern ----

  /** The route's pattern starts with p. */
  predicate Covers(r: Route, p: Pattern) {
    match p
    case Root => true
    case Step(q, key) => Covers(r, q) && Depth(q) < |r.segments| && KeyOf(r.segments[Depth(q)]) == key
  }

  lemma {:induction false} CoversIff(r: Route, p: Pattern)
    ensures Covers(r, p) <==> Depth(p) <= |r.segments| && p == PatternOf(r.segments[..Depth(p)])
    decreases p
  {
    if p.Step? {
      CoversIff(r, p.parent);
      var n := Depth(p.parent);
      if n < |r.segments| {
        assert r.segments[..n + 1][..n] == r.segments[..n];
      }
    }
  }

  /** The routes whose pattern starts with p, in registration order. */
  function Under(routes: seq<Route>, p: Pattern): (r: seq<Route>)
    ensures forall x :: x in r <==> x in routes && Covers(x, p)
  {
    if routes == [] then []
    else (if Covers(routes[0], p) then [routes[0]] else []) + Under(routes[1..], p)
  }

  lemma {:induction false} UnderNext(routes: seq<Route>, p: Pattern, key: Key)
    ensures Offering(Under(routes, p), Depth(p), key) == Under(routes, Step(p, key))
    decreases |routes|
  {
    if routes != [] {
      UnderNext(routes[1..], p, key);
      OfferingAppend(if Covers(routes[0], p) then [routes[0]] else [], Under(routes[1..], p), Depth(p), key);
    }
  }

  lemma {:induction false} OfferingAppend(a: seq<Route>, b: seq<Route>, i: nat, key: Key)
    ensures Offering(a + b, i, key) == Offering(a, i, key) + Offering(b, i, key)
    decreases |a|
  {
    if a == [] {
      assert a + b == b;
    } else {
      assert (a + b)[1..] == a[1..] + b;
      OfferingAppend(a[1..], b, i, key);
    }
  }

  lemma {:induction false} UnderRoot(routes: seq<Route>)
    ensures Under(routes, Root) == routes
    decreases |routes|
  {
    if routes != [] { UnderRoot(routes[1..]); }
  }

  /** One more registration is under p, last, when its pattern starts with p. */
  lemma {:induction false} UnderAfter(routes: seq<Route>, r: Route, p: Pattern)
    ensures Under(routes + [r], p) == Under(routes, p) + if Covers(r, p) then [r] else []
    decreases |routes|
  {
    if routes == [] {
      assert [] + [r] == [r] && [r][1..] == [];
    } else {
      assert (routes + [r])[1..] == routes[1..] + [r];
      UnderAfter(routes[1..], r, p);
    }
  }

  /** Merged handlers of the routes whose whole pattern is p. */
  function HandlersAt(routes: seq<Route>, p: Pattern): MethodHandlers { HandlersOf(Under(routes, p), Depth(p)) }

  /** The parameter name after p: the one the first route to need it was registered with. */
  function NameAt(routes: seq<Route>, p: Pattern): Option<Text> {
    var named := Under(routes, Step(p, Param));
    if named == [] then None
    else
      assert Covers(named[0], Step(p, Param));
      Some(ParamName(named[0].segments[Depth(p)]))
  }

  /** Registering one more route adds its handlers where its pattern ends and nowhere else. */
  lemma HandlersAfter(routes: seq<Route>, r: Route, p: Pattern)
    ensures HandlersAt(routes + [r], p) ==
            if PatternOf(r.segments) == p then Merge(HandlersAt(routes, p), r.handlers) else HandlersAt(routes, p)
  {
    UnderAfter(routes, r, p);
    CoversIff(r, p);
    assert r.segments[..|r.segments|] == r.segments;
    var u := Under(routes, p);
    assert (u + [r])[..|u|] == u && u + [] == u;
  }

  /** A parameter keeps the name it was first given. */
  lemma NameAfter(routes: seq<Route>, r: Route, p: Pattern)
    ensures NameAt(routes + [r], p) ==
            if NameAt(routes, p).Some? then NameAt(routes, p)
            else if Covers(r, Step(p, Param)) then Some(ParamName(r.segments[Depth(p)]))
            else None
  {
    UnderAfter(routes, r, Step(p, Param));
  }

  // ---- Properties of the lookup ----

  /** Whatever else is registered, and in whatever order, a request for a registered all-static path
      gets that path's merged handlers and no parameters. */
  lemma StaticRoutesAreNeverShadowed(routes: seq<Route>, r: Route)
    requires r in routes && HasAny(r.handlers) && (forall x :: x in r.segments ==> !IsParam(x))
    ensures Resolve(routes, 0, r.segments, map[]) == Some(Match(HandlersAt(routes, PatternOf(r.segments)), map[]))
  {
    UnderRoot(routes);
    assert r.segments[..0] == [];
    StaticFrom(routes, r, 0);
  }

  lemma {:induction false} StaticFrom(routes: seq<Route>, r: Route, i: nat)
    requires r in routes && HasAny(r.handlers) && (forall x :: x in r.segments ==> !IsParam(x))
    requires i <= |r.segments|
    ensures Resolve(Under(routes, PatternOf(r.segments[..i])), i, r.segments, map[])
         == Some(Match(HandlersAt(routes, PatternOf(r.segments)), map[]))
    decreases |r.segments| - i
  {
    var p := PatternOf(r.segments[..i]);
    CoversIff(r, p);
    if i == |r.segments| {
      assert r.segments[..i] == r.segments;
      HandlersInclude(Under(routes, p), r, i);
    } else {
      assert r.segments[i] in r.segments;
      assert r.segments[..i + 1][..i] == r.segments[..i];
      UnderNext(routes, p, Static(r.segments[i]));
      StaticFrom(routes, r, i + 1);
      assert r in Under(routes, PatternOf(r.segments[..i + 1])) by { CoversIff(r, PatternOf(r.segments[..i + 1])); }
    }
  }

  lemma {:induction false} HandlersInclude(live: seq<Route>, r: Route, n: nat)
    requires r in live && |r.segments| == n && HasAny(r.handlers)
    ensures HasAny(HandlersOf(live, n))
    decreases |live|
  {
    var k := |live| - 1;
    if live[k] != r {
      var j :| 0 <= j < |live| && live[j] == r;
      assert live[..k][j] == r;
      HandlersInclude(live[..k], r, n);
    }
  }

  /** The handlers a lookup finds, the parameters left aside. */
  function FoundBy(routes: seq<Route>, segments: seq<Text>): Option<MethodHandlers> {
    var m := Resolve(routes, 0, segments, map[]);
    if m.Some? then Some(m.value.handlers) else None
  }

  /** The lists agree on whether a pattern p exists and on its handlers. */
  ghost predicate AgreeAt(a: seq<Route>, b: seq<Route>, p: Pattern) {
    (Under(a, p) == [] <==> Under(b, p) == []) && HandlersAt(a, p) == HandlersAt(b, p)
  }

  // ---- Where a lookup ends ----

  /** The pattern the narrowing follows, from prefix p on; None when it gets stuck. */
  function EndOf(routes: seq<Route>, p: Pattern, segments: seq<Text>): (r: Option<Pattern>)
    requires Depth(p) <= |segments|
    ensures r.Some? ==> Depth(r.value) == |segments|
    decreases |segments| - Depth(p)
  {
    if Depth(p) == |segments| then Some(p)
    else if Under(routes, Step(p, Static(segments[Depth(p)]))) != [] then
      EndOf(routes, Step(p, Static(segments[Depth(p)])), segments)
    else if Under(routes, Step(p, Param)) != [] then EndOf(routes, Step(p, Param), segments)
    else None
  }

  /** The segments in the places of the parameters of p. */
  function Values(p: Pattern, segments: seq<Text>): (r: seq<Text>)
    requires Depth(p) <= |segments|
    ensures |r| == Holes(p)
  {
    match p
    case Root => []
    case Step(q, key) => Values(q, segments) + if key.Param? then [segments[Depth(q)]] else []
  }

  function Holes(p: Pattern): nat {
    match p
    case Root => 0
    case Step(q, key) => Holes(q) + if key.Param? then 1 else 0
  }

  /** The names the registrations gave the parameters of p. */
  function Names(routes: seq<Route>, p: Pattern): (r: seq<Text>)
    ensures |r| == Holes(p)
  {
    match p
    case Root => []
    case Step(q, key) =>
      var name := if NameAt(routes, q).Some? then NameAt(routes, q).value else [];
      Names(routes, q) + if key.Param? then [name] else []
  }

  /** The parameters: each name with its value, a later one of the same name winning. */
  function Paired(names: seq<Text>, values: seq<Text>): Params
    requires |names| == |values|
  {
    if names == [] then map[]
    else
      var n := |names| - 1;
      Paired(names[..n], values[..n])[names[n] := values[n]]
  }

  /** What a lookup finds at the pattern it ends at. */
  function FoundAt(routes: seq<Route>, end: Option<Pattern>, segments: seq<Text>): Option<Match>
    requires end.Some? ==> Depth(end.value) <= |segments|
  {
    if end.None? || !HasAny(HandlersAt(routes, end.value)) then None
    else Some(Match(HandlersAt(routes, end.value), Paired(Names(routes, end.value), Values(end.value, segments))))
  }

  lemma PairedNext(names: seq<Text>, values: seq<Text>, name: Text, value: Text)
    requires |names| == |values|
    ensures Paired(names + [name], values + [value]) == Paired(names, values)[name := value]
  {
    assert (names + [name])[..|names|] == names && (values + [value])[..|values|] == values;
  }

  /** A lookup is its path through the patterns: the handlers at its end, and the names and values along it. */
  lemma {:induction false} ResolveLands(routes: seq<Route>, p: Pattern, segments: seq<Text>)
    requires Depth(p) <= |segments|
    ensures Resolve(Under(routes, p), Depth(p), segments, Paired(Names(routes, p), Values(p, segments)))
         == FoundAt(routes, EndOf(routes, p, segments), segments)
    decreases |segments| - Depth(p)
  {
    hide Under, Offering, HandlersOf, Covers, Paired, HasAny;
    if Depth(p) < |segments| {
      var x := segments[Depth(p)];
      var s, d := Step(p, Static(x)), Step(p, Param);
      UnderNext(routes, p, Static(x));
      UnderNext(routes, p, Param);
      if Under(routes, s) != [] {
        assert Names(routes, s) == Names(routes, p) && Values(s, segments) == Values(p, segments);
        ResolveLands(routes, s, segments);
      } else if Under(routes, d) != [] {
        PairedNext(Names(routes, p), Values(p, segments), NameAt(routes, p).value, x);
        assert Names(routes, d) == Names(routes, p) + [NameAt(routes, p).value];
        assert Values(d, segments) == Values(p, segments) + [x];
        ResolveLands(routes, d, segments);
      }
    }
  }

  /** Two route lists that agree on which patterns exist lead every lookup to the same end. */
  lemma {:induction false} SamePatternsSameEnd(a: seq<Route>, b: seq<Route>, p: Pattern, segments: seq<Text>)
    requires forall q :: AgreeAt(a, b, q)
    requires Depth(p) <= |segments|
    ensures EndOf(a, p, segments) == EndOf(b, p, segments)
    decreases |segments| - Depth(p)
  {
    hide Under, HandlersAt;
    if Depth(p) < |segments| {
      var s, d := Step(p, Static(segments[Depth(p)])), Step(p, Param);
      assert AgreeAt(a, b, s) && AgreeAt(a, b, d);
      hide AgreeAt;
      SamePatternsSameEnd(a, b, s, segments);
      SamePatternsSameEnd(a, b, d, segments);
    }
  }

  /** Lists that agree on which patterns exist and on their handlers find the same handlers, and the same values in
      the same places; only the parameter names may differ. */
  lemma SamePatternsSameHandlers(a: seq<Route>, b: seq<Route>, segments: seq<Text>)
    requires forall q :: AgreeAt(a, b, q)
    ensures FoundBy(a, segments) == FoundBy(b, segments)
    ensures var end := EndOf(a, Root, segments);
      && EndOf(b, Root, segments) == end
      && Resolve(a, 0, segments, map[]) == FoundAt(a, end, segments)
      && Resolve(b, 0, segments, map[]) == FoundAt(b, end, segments)
  {
    SamePatternsSameEnd(a, b, Root, segments);
    ResolveLands(a, Root, segments);
    ResolveLands(b, Root, segments);
    UnderRoot(a);
    UnderRoot(b);
    hide Under, Resolve, HandlersAt, Names, HasAny;
    var end := EndOf(a, Root, segments);
    if end.Some? { assert AgreeAt(a, b, end.value); }
  }

  /** Two neighbouring registrations with different patterns may be swapped: every request finds the same handlers,
      with the same values in the same places, up to the names of the parameters. */
  lemma RegistrationsCommute(a: seq<Route>, r: Route, r': Route, b: seq<Route>, segments: seq<Text>)
    requires PatternOf(r.segments) != PatternOf(r'.segments)
    ensures var x, y := a + [r, r'] + b, a + [r', r] + b;
      var end := EndOf(x, Root, segments);
      && FoundBy(x, segments) == FoundBy(y, segments)
      && EndOf(y, Root, segments) == end
      && Resolve(x, 0, segments, map[]) == FoundAt(x, end, segments)
      && Resolve(y, 0, segments, map[]) == FoundAt(y, end, segments)
  {
    var x, y := a + [r, r'] + b, a + [r', r] + b;
    assert forall z :: z in x <==> z in y;
    forall q
      ensures AgreeAt(x, y, q)
    {
      SameElementsSameExistence(x, y, q);
      HandlersAtSwap(a, r, r', b, q);
    }
    hide Under, AgreeAt, Offering, HandlersOf, FoundAt, Resolve, EndOf;
    SamePatternsSameHandlers(x, y, segments);
  }

  lemma SameElementsSameExistence(x: seq<Route>, y: seq<Route>, q: Pattern)
    requires forall z :: z in x <==> z in y
    ensures Under(x, q) == [] <==> Under(y, q) == []
  {
    assert Under(x, q) != [] ==> Under(x, q)[0] in Under(y, q);
    assert Under(y, q) != [] ==> Under(y, q)[0] in Under(x, q);
  }

  lemma {:induction false} HandlersAtSwap(a: seq<Route>, r: Route, r': Route, b: seq<Route>, q: Pattern)
    requires PatternOf(r.segments) != PatternOf(r'.segments)
    ensures HandlersAt(a + [r, r'] + b, q) == HandlersAt(a + [r', r] + b, q)
    decreases |b|
  {
    if b == [] {
      assert a + [r, r'] + b == a + [r] + [r'] && a + [r', r] + b == a + [r'] + [r];
      HandlersAfter(a + [r], r', q);
      HandlersAfter(a, r, q);
      HandlersAfter(a + [r'], r, q);
      HandlersAfter(a, r', q);
    } else {
      var k := |b| - 1;
      assert a + [r, r'] + b == a + [r, r'] + b[..k] + [b[k]] && a + [r', r] + b == a + [r', r] + b[..k] + [b[k]];
      HandlersAtSwap(a, r, r', b[..k], q);
      HandlersAfter(a + [r, r'] + b[..k], b[k], q);
      HandlersAfter(a + [r', r] + b[..k], b[k], q);
    }
  }

  // ---- When a matching route is found ----

  /** The route matches the segments one by one. */
  predicate Fits(r: Route, segments: seq<Text>) {
    && |r.segments| == |segments|
    && forall i :: 0 <= i < |segments| ==> IsParam(r.segments[i]) || r.segments[i] == segments[i]
  }

  /** Where the route has a parameter after its first i segments, no route that agrees with it so far offers the
      segment literally. */
  predicate OpenAt(routes: seq<Route>, r: Route, segments: seq<Text>, i: nat)
    requires i < |r.segments| == |segments|
  {
    IsParam(r.segments[i]) ==> Under(routes, Step(PatternOf(r.segments[..i]), Static(segments[i]))) == []
  }

  function Ancestor(p: Pattern, n: nat): Pattern { if Depth(p) <= n then p else Ancestor(p.parent, n) }

  lemma {:induction false} EndGoesOn(routes: seq<Route>, p: Pattern, segments: seq<Text>)
    requires Depth(p) <= |segments| && EndOf(routes, p, segments).Some?
    ensures Ancestor(EndOf(routes, p, segments).value, Depth(p)) == p
    decreases |segments| - Depth(p)
  {
    hide Under;
    if Depth(p) < |segments| {
      var s, d := Step(p, Static(segments[Depth(p)])), Step(p, Param);
      if Under(routes, s) != [] {
        EndGoesOn(routes, s, segments);
        AncestorOfAncestor(EndOf(routes, s, segments).value, Depth(p));
      } else {
        EndGoesOn(routes, d, segments);
        AncestorOfAncestor(EndOf(routes, d, segments).value, Depth(p));
      }
    }
  }

  lemma {:induction false} AncestorOfAncestor(p: Pattern, n: nat)
    requires n < Depth(p)
    ensures Ancestor(p, n + 1).Step? && Ancestor(p, n) == Ancestor(p, n + 1).parent
    ensures Depth(Ancestor(p, n + 1)) == n + 1
    decreases p
  {
    if Depth(p) > n + 1 { AncestorOfAncestor(p.parent, n); }
  }

  lemma {:induction false} AncestorOfPattern(segments: seq<Text>, n: nat)
    requires n <= |segments|
    ensures Ancestor(PatternOf(segments), n) == PatternOf(segments[..n])
    decreases |segments|
  {
    if n == |segments| {
      assert segments[..n] == segments;
    } else {
      AncestorOfPattern(segments[..|segments| - 1], n);
      assert segments[..|segments| - 1][..n] == segments[..n];
    }
  }

  ghost predicate OpenFrom(routes: seq<Route>, r: Route, segments: seq<Text>, i: nat)
    requires |r.segments| == |segments|
  {
    forall k :: i <= k < |segments| ==> OpenAt(routes, r, segments, k)
  }

  lemma OpenFromHere(routes: seq<Route>, r: Route, segments: seq<Text>, i: nat)
    requires i < |r.segments| == |segments|
    ensures OpenFrom(routes, r, segments, i) <==> OpenAt(routes, r, segments, i) && OpenFrom(routes, r, segments, i + 1)
  {
    hide OpenAt;
  }

  /** The pattern of a route over its first segments is offered by the route itself. */
  lemma NextOfRoute(routes: seq<Route>, r: Route, segments: seq<Text>, i: nat)
    requires r in routes && Fits(r, segments) && i < |segments|
    ensures var p := PatternOf(r.segments[..i]);
      var next := PatternOf(r.segments[..i + 1]);
      && next == Step(p, if IsParam(r.segments[i]) then Param else Static(segments[i]))
      && Under(routes, next) != []
  {
    assert r.segments[..i + 1][..i] == r.segments[..i];
    CoversIff(r, PatternOf(r.segments[..i + 1]));
    assert r in Under(routes, PatternOf(r.segments[..i + 1]));
  }

  lemma {:induction false} FoundFromIff(routes: seq<Route>, r: Route, segments: seq<Text>, i: nat)
    requires r in routes && Fits(r, segments) && i <= |segments|
    ensures EndOf(routes, PatternOf(r.segments[..i]), segments) == Some(PatternOf(r.segments)) <==>
            OpenFrom(routes, r, segments, i)
    decreases |segments| - i
  {
    if i == |segments| {
      assert r.segments[..i] == r.segments;
    } else {
      NextOfRoute(routes, r, segments, i);
      OpenFromHere(routes, r, segments, i);
      FoundFromIff(routes, r, segments, i + 1);
      hide Under, Fits, OpenFrom;
      var p := PatternOf(r.segments[..i]);
      if !OpenAt(routes, r, segments, i) {
        Strays(routes, r, segments, i, Step(p, Static(segments[i])));
      }
    }
  }

  /** Once the lookup has entered another pattern than the route's it does not come back. */
  lemma Strays(routes: seq<Route>, r: Route, segments: seq<Text>, i: nat, s: Pattern)
    requires i < |r.segments| == |segments| && Depth(s) == i + 1 && s != PatternOf(r.segments[..i + 1])
    ensures EndOf(routes, s, segments) != Some(PatternOf(r.segments))
  {
    hide Under;
    if EndOf(routes, s, segments).Some? { EndGoesOn(routes, s, segments); }
    AncestorOfPattern(r.segments, i + 1);
  }

  /** A request that fits a route ends there if and only if no earlier segment in the place of one of the route's
      parameters is offered literally; it then gets the handlers of the route's pattern. */
  lemma FoundIff(routes: seq<Route>, r: Route, segments: seq<Text>)
    requires r in routes && Fits(r, segments)
    ensures EndOf(routes, Root, segments) == Some(PatternOf(r.segments)) <==>
            OpenFrom(routes, r, segments, 0)
    ensures Resolve(routes, 0, segments, map[]) == FoundAt(routes, EndOf(routes, Root, segments), segments)
  {
    assert r.segments[..0] == [];
    FoundFromIff(routes, r, segments, 0);
    ResolveLands(routes, Root, segments);
    UnderRoot(routes);
  }

  /** Lookup never goes back: a route that matches segment by segment is missed when another
      offers an earlier segment literally. */
  lemma LookupDoesNotBacktrack(a: Text, b: Text, c: Text, y: Text, h: MethodHandlers)
    requires !IsParam(a) && !IsParam(b) && !IsParam(c) && b != c && HasAny(h)
    ensures var open_ := Route([[COLON] + y, b], h);
      && Resolve([open_], 0, [a, b], map[]) == Some(Match(h, map[y := a]))
      && Resolve([Route([a, c], h), open_], 0, [a, b], map[]) == None
  {
    var r, s := Route([[COLON] + y, b], h), Route([a, c], h);
    assert Offering([r], 0, Static(a)) == [] && Offering([r], 0, Param) == [r];
    assert Offering([r], 1, Static(b)) == [r];
    assert [r][..0] == [] && HandlersOf([r], 2) == h;
    assert [s, r][1..] == [r];
    assert Offering([s, r], 0, Static(a)) == [s];
    assert Offering([s], 1, Static(b)) == [] && Offering([s], 1, Param) == [];
    assert Resolve([r], 2, [a, b], map[y := a]) == Some(Match(h, map[y := a]));
  }

  /** A request is routed as its sender meant it: the packet keeps the segments the router looks at. */
  lemma RoutedAsSent(routes: seq<Route>, r: CoapRequest, token: Token, mid: Mid, known: set<nat>)
    requires WellFormed(r)
    ensures var received := RequestFromPacket(RequestPacket(r, token, mid), known);
      && received.Ok?
      && Dispatch(routes, received.value.path, received.value.requestType) == Dispatch(routes, r.path, r.requestType)
  {
    RequestRoundTrip(r, token, mid, known);
  }
}
