/** Which registration answers a request, in terms of the registrations themselves. */
module Dispatching {
  import opened Types
  import opened Paths
  import opened Routes

  // ---- The handlers of a pattern ----

  /** For one method: the pattern of every registration, in order, and the handler it gave for the method. */
  type Offers = seq<(Pattern, Option<Handler>)>

  function Gets(routes: seq<Route>): (r: Offers)
    ensures |r| == |routes|
    ensures forall i :: 0 <= i < |r| ==> r[i] == (PatternOf(routes[i].segments), routes[i].handlers.get)
  {
    seq(|routes|, i requires 0 <= i < |routes| => (PatternOf(routes[i].segments), routes[i].handlers.get))
  }

  function Posts(routes: seq<Route>): (r: Offers)
    ensures |r| == |routes|
    ensures forall i :: 0 <= i < |r| ==> r[i] == (PatternOf(routes[i].segments), routes[i].handlers.post)
  {
    seq(|routes|, i requires 0 <= i < |routes| => (PatternOf(routes[i].segments), routes[i].handlers.post))
  }

  function Puts(routes: seq<Route>): (r: Offers)
    ensures |r| == |routes|
    ensures forall i :: 0 <= i < |r| ==> r[i] == (PatternOf(routes[i].segments), routes[i].handlers.put)
  {
    seq(|routes|, i requires 0 <= i < |routes| => (PatternOf(routes[i].segments), routes[i].handlers.put))
  }

  function Deletes(routes: seq<Route>): (r: Offers)
    ensures |r| == |routes|
    ensures forall i :: 0 <= i < |r| ==> r[i] == (PatternOf(routes[i].segments), routes[i].handlers.delete)
  {
    seq(|routes|, i requires 0 <= i < |routes| => (PatternOf(routes[i].segments), routes[i].handlers.delete))
  }

  /** Registration i gave handler h for pattern p, and no later one gave any. */
  ghost predicate IsLastOffer(offers: Offers, p: Pattern, h: Handler, i: nat) {
    && i < |offers| && offers[i] == (p, Some(h))
    && forall j :: i < j < |offers| && offers[j].0 == p ==> offers[j].1.None?
  }

  ghost predicate LastOffer(offers: Offers, p: Pattern, h: Handler) { exists i: nat :: IsLastOffer(offers, p, h, i) }

  lemma OneMoreOffer(offers: Offers, q: Pattern, o: Option<Handler>, p: Pattern, h: Handler)
    ensures LastOffer(offers + [(q, o)], p, h) <==>
            if q == p && o.Some? then o.value == h else LastOffer(offers, p, h)
  {
    var all, n := offers + [(q, o)], |offers|;
    assert forall j :: 0 <= j < n ==> all[j] == offers[j];
    if q == p && o.Some? {
      assert all[n] == (p, o);
      if o.value == h { assert IsLastOffer(all, p, h, n); }
    } else {
      if i: nat :| IsLastOffer(offers, p, h, i) { assert IsLastOffer(all, p, h, i); }
      if i: nat :| IsLastOffer(all, p, h, i) { assert IsLastOffer(offers, p, h, i); }
    }
  }

  /** For each method, the handler of a pattern is that of the last registration of the pattern that gave one. */
  lemma {:induction false} LastRegistrationWins(routes: seq<Route>, p: Pattern, h: Handler)
    ensures HandlersAt(routes, p).get == Some(h) <==> LastOffer(Gets(routes), p, h)
    ensures HandlersAt(routes, p).post == Some(h) <==> LastOffer(Posts(routes), p, h)
    ensures HandlersAt(routes, p).put == Some(h) <==> LastOffer(Puts(routes), p, h)
    ensures HandlersAt(routes, p).delete == Some(h) <==> LastOffer(Deletes(routes), p, h)
    decreases |routes|
  {
    hide PatternOf, HandlersAt, LastOffer;
    if routes == [] {
      NoRegistrations(p, h);
    } else {
      var n := |routes| - 1;
      var before, r := routes[..n], routes[n];
      LastRegistrationWins(before, p, h);
      assert routes == before + [r];
      HandlersAfter(before, r, p);
      var q := PatternOf(r.segments);
      OneMoreOffer(Gets(before), q, r.handlers.get, p, h);
      OneMoreOffer(Posts(before), q, r.handlers.post, p, h);
      OneMoreOffer(Puts(before), q, r.handlers.put, p, h);
      OneMoreOffer(Deletes(before), q, r.handlers.delete, p, h);
      assert Gets(routes) == Gets(before) + [(q, r.handlers.get)];
      assert Posts(routes) == Posts(before) + [(q, r.handlers.post)];
      assert Puts(routes) == Puts(before) + [(q, r.handlers.put)];
      assert Deletes(routes) == Deletes(before) + [(q, r.handlers.delete)];
    }
  }

  lemma NoRegistrations(p: Pattern, h: Handler)
    ensures HandlersAt([], p) == MethodHandlers(None, None, None, None)
    ensures !LastOffer(Gets([]), p, h) && !LastOffer(Posts([]), p, h)
    ensures !LastOffer(Puts([]), p, h) && !LastOffer(Deletes([]), p, h)
  {
  }

  // ---- The reply ----

  /** The pattern a request path leads to. */
  function EndOfPath(routes: seq<Route>, path: Text): (end: Option<Pattern>)
    ensures end.Some? ==> Depth(end.value) == |Segments(path)|
  {
    EndOf(routes, Root, Segments(path))
  }

  /** The parameters along a pattern: the names given by the registrations, the values in the request path. */
  function ParamsAt(routes: seq<Route>, p: Pattern, path: Text): Params
    requires Depth(p) <= |Segments(path)|
  {
    Paired(Names(routes, p), Values(p, Segments(path)))
  }

  /** What the reply is when the lookup ends at a pattern with these handlers. */
  lemma ReplyAt(routes: seq<Route>, path: Text, m: RequestType)
    ensures var end := EndOfPath(routes, path);
      var none := MethodHandlers(None, None, None, None);
      var reply := Dispatch(routes, path, m);
      if end.None? || HandlersAt(routes, end.value) == none then reply == Status(NotFound)
      else
        var hs, params := HandlersAt(routes, end.value), ParamsAt(routes, end.value, path);
        && (m.Get? ==>
              reply == if hs.get.Some? then Invoke(hs.get.value, params) else Status(MethodNotAllowed))
        && (m.Post? ==>
              reply == if hs.post.Some? then Invoke(hs.post.value, params) else Status(MethodNotAllowed))
        && (m.Put? ==>
              reply == if hs.put.Some? then Invoke(hs.put.value, params) else Status(MethodNotAllowed))
        && (m.Delete? ==>
              reply == if hs.delete.Some? then Invoke(hs.delete.value, params) else Status(MethodNotAllowed))
        && (m.OtherMethod? ==> reply == Status(MethodNotAllowed))
  {
    ResolveLands(routes, Root, Segments(path));
    UnderRoot(routes);
    hide Resolve, HandlersAt, Under, EndOf, Names, Values, Segments;
    assert Paired(Names(routes, Root), Values(Root, Segments(path))) == map[];
  }

  /** The registrations for one method have a handler for p. */
  ghost predicate Offered(offers: Offers, p: Pattern) { exists h: Handler :: LastOffer(offers, p, h) }

  /** The registrations have a handler for p, for whatever method. */
  ghost predicate OfferedAny(routes: seq<Route>, p: Pattern) {
    || Offered(Gets(routes), p) || Offered(Posts(routes), p)
    || Offered(Puts(routes), p) || Offered(Deletes(routes), p)
  }

  lemma SlotsAreOffers(routes: seq<Route>, p: Pattern)
    ensures var hs := HandlersAt(routes, p);
      && (hs.get.Some? <==> Offered(Gets(routes), p)) && (hs.post.Some? <==> Offered(Posts(routes), p))
      && (hs.put.Some? <==> Offered(Puts(routes), p)) && (hs.delete.Some? <==> Offered(Deletes(routes), p))
      && (hs == MethodHandlers(None, None, None, None) <==> !OfferedAny(routes, p))
  {
    hide HandlersAt, LastOffer, Gets, Posts, Puts, Deletes;
    var hs := HandlersAt(routes, p);
    forall h: Handler
      ensures hs.get == Some(h) <==> LastOffer(Gets(routes), p, h)
      ensures hs.post == Some(h) <==> LastOffer(Posts(routes), p, h)
      ensures hs.put == Some(h) <==> LastOffer(Puts(routes), p, h)
      ensures hs.delete == Some(h) <==> LastOffer(Deletes(routes), p, h)
    {
      LastRegistrationWins(routes, p, h);
    }
    assert hs.get.Some? ==> LastOffer(Gets(routes), p, hs.get.value);
    assert hs.post.Some? ==> LastOffer(Posts(routes), p, hs.post.value);
    assert hs.put.Some? ==> LastOffer(Puts(routes), p, hs.put.value);
    assert hs.delete.Some? ==> LastOffer(Deletes(routes), p, hs.delete.value);
  }

  /** The offers that count for a request's method. */
  ghost predicate Answers(routes: seq<Route>, m: RequestType, p: Pattern, h: Handler) {
    || (m == Get && LastOffer(Gets(routes), p, h))
    || (m == Post && LastOffer(Posts(routes), p, h))
    || (m == Put && LastOffer(Puts(routes), p, h))
    || (m == Delete && LastOffer(Deletes(routes), p, h))
  }

  /** A handler is invoked exactly if the last registration for its method, of the pattern the path leads to, gave it,
      and it gets the parameters along that pattern. The reply is NotFound exactly if no registration of that pattern
      gave any handler, or there is no such pattern; MethodNotAllowed exactly if one did and none for the method. */
  lemma RegistrationAnswers(routes: seq<Route>, path: Text, m: RequestType, h: Handler, params: Params)
    ensures var reply, end := Dispatch(routes, path, m), EndOfPath(routes, path);
      && (reply == Invoke(h, params) <==>
            end.Some? && Answers(routes, m, end.value, h) && params == ParamsAt(routes, end.value, path))
      && (reply == Status(NotFound) <==> end.None? || !OfferedAny(routes, end.value))
      && (reply == Status(MethodNotAllowed) <==>
            end.Some? && OfferedAny(routes, end.value) && forall g: Handler :: !Answers(routes, m, end.value, g))
  {
    ReplyAt(routes, path, m);
    var end := EndOfPath(routes, path);
    if end.Some? {
      SlotsAreOffers(routes, end.value);
      hide HandlersAt, LastOffer, Gets, Posts, Puts, Deletes, Dispatch, EndOfPath, ParamsAt, OfferedAny;
      var hs := HandlersAt(routes, end.value);
      forall g: Handler
        ensures hs.get == Some(g) <==> LastOffer(Gets(routes), end.value, g)
        ensures hs.post == Some(g) <==> LastOffer(Posts(routes), end.value, g)
        ensures hs.put == Some(g) <==> LastOffer(Puts(routes), end.value, g)
        ensures hs.delete == Some(g) <==> LastOffer(Deletes(routes), end.value, g)
      {
        LastRegistrationWins(routes, end.value, g);
      }
      assert m.Get? && hs.get.Some? ==> Answers(routes, m, end.value, hs.get.value);
      assert m.Post? && hs.post.Some? ==> Answers(routes, m, end.value, hs.post.value);
      assert m.Put? && hs.put.Some? ==> Answers(routes, m, end.value, hs.put.value);
      assert m.Delete? && hs.delete.Some? ==> Answers(routes, m, end.value, hs.delete.value);
    }
  }

  // ---- The parameters ----

  /** The first d keys of a pattern. */
  function Up(p: Pattern, d: nat): Pattern
    requires d <= Depth(p)
  {
    if d == Depth(p) then p else Up(p.parent, d)
  }

  /** Key d of the pattern is a parameter, and the registrations named it x. */
  ghost predicate Binds(routes: seq<Route>, p: Pattern, x: Text, d: nat)
    requires d < Depth(p)
  {
    Up(p, d + 1) == Step(Up(p, d), Param) && NameAt(routes, Up(p, d)) == Some(x)
  }

  /** The last parameter named x is key d, and the segment in its place is v. */
  ghost predicate BindsLast(routes: seq<Route>, p: Pattern, segments: seq<Text>, x: Text, v: Text, d: nat)
    requires Depth(p) <= |segments|
  {
    d < Depth(p) && Binds(routes, p, x, d) && segments[d] == v && forall e :: d < e < Depth(p) ==> !Binds(routes, p, x, e)
  }

  /** Parameters bind a name to a value exactly if that is the segment in the place of the last one so named. */
  lemma {:induction false} ParameterIs(routes: seq<Route>, p: Pattern, segments: seq<Text>, x: Text, v: Text)
    requires Depth(p) <= |segments| && (p.Root? || Under(routes, p) != [])
    ensures var params := Paired(Names(routes, p), Values(p, segments));
      x in params && params[x] == v <==> exists d: nat :: BindsLast(routes, p, segments, x, v, d)
    decreases p
  {
    if p.Step? {
      UnderParent(routes, p);
      ParameterIs(routes, p.parent, segments, x, v);
      ParamsNext(routes, p, segments);
      BindsLastNext(routes, p, segments, x, v);
      hide Paired, NameAt, Under, Names, Values, BindsLast;
    }
  }

  /** One more key, if a parameter, binds its name to the segment in its place. */
  lemma ParamsNext(routes: seq<Route>, p: Pattern, segments: seq<Text>)
    requires p.Step? && Depth(p) <= |segments| && (p.key.Param? ==> NameAt(routes, p.parent).Some?)
    ensures var before := Paired(Names(routes, p.parent), Values(p.parent, segments));
      Paired(Names(routes, p), Values(p, segments)) ==
      if p.key.Param? then before[NameAt(routes, p.parent).value := segments[Depth(p.parent)]] else before
  {
    hide Paired, NameAt, Under;
    var q := p.parent;
    if p.key.Param? {
      PairedNext(Names(routes, q), Values(q, segments), NameAt(routes, q).value, segments[Depth(q)]);
    } else {
      assert Names(routes, p) == Names(routes, q) && Values(p, segments) == Values(q, segments);
    }
  }

  lemma BindsLastNext(routes: seq<Route>, p: Pattern, segments: seq<Text>, x: Text, v: Text)
    requires p.Step? && Depth(p) <= |segments|
    ensures (exists d: nat :: BindsLast(routes, p, segments, x, v, d)) <==>
            if p.key.Param? && NameAt(routes, p.parent) == Some(x) then segments[Depth(p.parent)] == v
            else exists d: nat :: BindsLast(routes, p.parent, segments, x, v, d)
  {
    var q, n := p.parent, Depth(p.parent);
    BindsNext(routes, p, x);
    hide NameAt, Binds;
    if Binds(routes, p, x, n) {
      if segments[n] == v { assert BindsLast(routes, p, segments, x, v, n); }
    } else {
      if d: nat :| BindsLast(routes, q, segments, x, v, d) { assert BindsLast(routes, p, segments, x, v, d); }
      if d: nat :| BindsLast(routes, p, segments, x, v, d) { assert BindsLast(routes, q, segments, x, v, d); }
    }
  }

  lemma UnderParent(routes: seq<Route>, p: Pattern)
    requires p.Step? && Under(routes, p) != []
    ensures Under(routes, p.parent) != [] && (p.key.Param? ==> NameAt(routes, p.parent).Some?)
  {
    var r := Under(routes, p)[0];
    assert r in Under(routes, p);
    assert r in Under(routes, p.parent);
  }

  lemma BindsNext(routes: seq<Route>, p: Pattern, x: Text)
    requires p.Step?
    ensures Binds(routes, p, x, Depth(p.parent)) <==> p.key.Param? && NameAt(routes, p.parent) == Some(x)
    ensures forall d :: 0 <= d < Depth(p.parent) ==> (Binds(routes, p, x, d) <==> Binds(routes, p.parent, x, d))
  {
    hide NameAt;
    var n := Depth(p.parent);
    assert Up(p, n + 1) == p && Up(p, n) == p.parent;
  }

  lemma {:induction false} EndIsRegistered(routes: seq<Route>, p: Pattern, segments: seq<Text>)
    requires Depth(p) <= |segments| && (p.Root? || Under(routes, p) != [])
    ensures var end := EndOf(routes, p, segments);
      end.Some? ==> end.value.Root? || Under(routes, end.value) != []
    decreases |segments| - Depth(p)
  {
    hide Under;
    if Depth(p) < |segments| {
      var s, d := Step(p, Static(segments[Depth(p)])), Step(p, Param);
      if Under(routes, s) != [] { EndIsRegistered(routes, s, segments); }
      else if Under(routes, d) != [] { EndIsRegistered(routes, d, segments); }
    }
  }

  /** What a handler is told: each parameter name of the pattern the path ends at, with the segment in the place of the
      last parameter so named, and no other name. */
  lemma ParameterIsTold(routes: seq<Route>, path: Text, x: Text, v: Text)
    requires EndOfPath(routes, path).Some?
    ensures var p := EndOfPath(routes, path).value;
      var params := ParamsAt(routes, p, path);
      x in params && params[x] == v <==> exists d: nat :: BindsLast(routes, p, Segments(path), x, v, d)
  {
    EndIsRegistered(routes, Root, Segments(path));
    ParameterIs(routes, EndOfPath(routes, path).value, Segments(path), x, v);
  }

  // ---- Slashes ----

  /** A leading slash, byte 47, makes no difference, to a registration or to a request. */
  lemma LeadingSlashIsIgnored(routes: seq<Route>, path: Text, handlers: MethodHandlers, m: RequestType)
    ensures Dispatch(routes, [47] + path, m) == Dispatch(routes, path, m)
    ensures Route(Segments([47] + path), handlers) == Route(Segments(path), handlers)
  {
    LeadingSlash(path);
    hide Segments, Resolve;
  }

  /** A colon, byte 58, is what makes a parameter, and the rest of the segment names it. */
  lemma ParameterIff(segment: Text)
    ensures IsParam(segment) <==> exists name :: segment == [58] + name
    ensures IsParam(segment) ==> segment == [58] + ParamName(segment)
  {
    if IsParam(segment) { assert segment == [58] + segment[1..]; }
  }

  /** `a/:y` registered without the leading slash answers GET `/a/v`, with y bound to v. */
  lemma ParameterIsBound(a: Text, y: Text, v: Text, h: Handler)
    requires SlashFree(a) && a != [] && !IsParam(a) && SlashFree(y) && SlashFree(v) && v != []
    ensures var route := Route(Segments(a + [SLASH] + ([COLON] + y)), MethodHandlers(Some(h), None, None, None));
      && Dispatch([route], [SLASH] + (a + [SLASH] + v), Get) == Invoke(h, map[y := v])
      && Dispatch([route], [SLASH] + (a + [SLASH] + v), Post) == Status(MethodNotAllowed)
      && Dispatch([route], [SLASH] + a, Get) == Status(NotFound)
  {
    var key := [COLON] + y;
    assert SlashFree(key);
    SegmentsAtSlash(a, key);
    SegmentsSlashFree(key);
    SegmentsAtSlash(a, v);
    SegmentsSlashFree(v);
    SegmentsSlashFree(a);
    LeadingSlash(a + [SLASH] + v);
    LeadingSlash(a);
    assert [a] + [key] == [a, key] && [a] + [v] == [a, v];
    OneRoute(a, y, v, h);
    hide Segments, SlashFree, Resolve;
  }

  lemma OneRoute(a: Text, y: Text, v: Text, h: Handler)
    requires !IsParam(a)
    ensures var r := Route([a, [COLON] + y], MethodHandlers(Some(h), None, None, None));
      && Resolve([r], 0, [a, v], map[]) == Some(Match(r.handlers, map[y := v]))
      && Resolve([r], 0, [a], map[]) == None
  {
    var r := Route([a, [COLON] + y], MethodHandlers(Some(h), None, None, None));
    assert [r][..0] == [] && [r][1..] == [];
    assert Offering([r], 0, Static(a)) == [r];
    assert Offering([r], 1, Static(v)) == [] && Offering([r], 1, Param) == [r];
    assert HandlersOf([r], 2) == r.handlers && HandlersOf([r], 1) == NO_HANDLERS;
    assert Resolve([r], 2, [a, v], map[y := v]) == Some(Match(r.handlers, map[y := v]));
  }
}
