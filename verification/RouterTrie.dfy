/** The router's trie, grown in place through a cursor, proved to look up what the plain route list says. */
module RouterTrie {
  import opened Types
  import opened Paths
  import opened Messages
  import opened Routes

  /** A node of the trie: static children, at most one parameter child with its name, handlers. */
  class Node {
    var children: map<Text, Node>
    var paramName: Text
    var paramChild: Node?
    var handlers: MethodHandlers

    constructor ()
      ensures children == map[] && paramChild == null && handlers == NO_HANDLERS
    {
      children := map[];
      paramName := [];
      paramChild := null;
      handlers := NO_HANDLERS;
    }

    ghost function Child(k: Key): Node?
      reads this
    {
      match k
      case Static(s) => if s in children then children[s] else null
      case Param => paramChild
    }
  }

  /** A trie as a value: for every pattern prefix with a node, the node's parameter name and handlers. */
  datatype NodeView = NodeView(name: Option<Text>, handlers: MethodHandlers)

  type TrieView = map<Pattern, NodeView>

  const BARE_NODE := NodeView(None, NO_HANDLERS)

  class Router {
    var root: Node
    /** Which node each pattern prefix leads to. */
    ghost var index: map<Pattern, Node>
    /** The registrations so far. */
    ghost var routes: seq<Route>

    /** The pointers between nodes are exactly the steps between indexed prefixes, and no node is shared. */
    ghost predicate Linked()
      reads `root, `index, index.Values
    {
      && Root in index && index[Root] == root
      && (forall p, q :: p in index && q in index && index[p] == index[q] ==> p == q)
      && (forall q, k :: Step(q, k) in index ==> q in index)
      && (forall p, k {:trigger index[p].Child(k)} :: p in index ==>
            index[p].Child(k) == if Step(p, k) in index then index[Step(p, k)] else null)
    }

    ghost function View(): TrieView
      reads `index, index.Values
    {
      map p | p in index ::
        NodeView(if index[p].paramChild != null then Some(index[p].paramName) else None, index[p].handlers)
    }

    ghost predicate Valid()
      reads this, index.Values
    {
      Linked() && Shows(View(), routes)
    }

    constructor ()
      ensures Valid() && routes == []
      ensures fresh(index.Values)
    {
      root := new Node();
      new;
      index := map[Root := root];
      routes := [];
    }

    /** One registration: grow the trie along the path and merge at its end. */
    method AddRoute(path: Text, handlers: MethodHandlers)
      requires Valid()
      modifies this, index.Values
      ensures Valid()
      ensures routes == old(routes) + [Route(Segments(path), handlers)]
      ensures fresh(index.Values - old(index.Values))
    {
      hide Linked, Shows, Grown, Merge;
      var segments := Segments(path);
      EmptyRouteAddsNothing(View(), routes);
      var node := WalkOrCreate(segments);
      MergedAtEnd(View(), routes, segments, handlers);
      MergeHandlers(PatternOf(segments), node, handlers);
      routes := routes + [Route(segments, handlers)];
    }

    /** `merge` on the node at p touches nothing else. */
    method MergeHandlers(ghost p: Pattern, node: Node, handlers: MethodHandlers)
      requires Linked() && p in index && node == index[p]
      modifies node`handlers
      ensures Linked()
          && View() == old(View())[p := old(View())[p].(handlers := Merge(old(View())[p].handlers, handlers))]
    {
      hide Merge;
      node.handlers := Merge(node.handlers, handlers);
      assert forall q, k :: q in index ==> index[q].Child(k) == old(index[q].Child(k));
      assert forall q :: q in index && q != p ==> index[q] != node;
    }

    /** Follow the segments from the root, creating what is missing. */
    method WalkOrCreate(segments: seq<Text>) returns (node: Node)
      requires Linked() && Shows(View(), routes + [Route([], NO_HANDLERS)])
      modifies this`index, index.Values
      ensures Linked() && Shows(View(), routes + [Route(segments, NO_HANDLERS)])
      ensures PatternOf(segments) in index && node == index[PatternOf(segments)]
      ensures fresh(index.Values - old(index.Values))
    {
      hide Linked, Shows, Grown;
      node := root;
      assert root == index[Root] by { LinkedRoot(); }
      assert segments[..0] == [];
      for i := 0 to |segments|
        invariant Linked() && Shows(View(), routes + [Route(segments[..i], NO_HANDLERS)])
        invariant PatternOf(segments[..i]) in index && node == index[PatternOf(segments[..i])]
        invariant fresh(index.Values - old(index.Values))
      {
        GrownShows(View(), routes, segments[..i], segments[i]);
        assert segments[..i] + [segments[i]] == segments[..i + 1];
        node := Descend(PatternOf(segments[..i]), segments[i], node);
      }
      assert segments[..|segments|] == segments;
    }

    lemma LinkedRoot()
      requires Linked()
      ensures Root in index && index[Root] == root
    {
    }

    /** One step of the walk: enter the child for `segment`, creating it if it is not there. */
    method Descend(ghost p: Pattern, segment: Text, node: Node) returns (child: Node)
      requires Linked() && p in index && node == index[p]
      modifies this`index, node
      ensures Linked() && View() == Grown(old(View()), p, segment)
      ensures Step(p, KeyOf(segment)) in index && child == index[Step(p, KeyOf(segment))]
      ensures fresh(index.Values - old(index.Values)) && old(index.Values) <= index.Values
    {
      if IsParam(segment) {
        child := EnterParam(p, ParamName(segment), node);
      } else {
        child := EnterStatic(p, segment, node);
      }
    }

    static lemma Extends(a: map<Pattern, Node>, b: map<Pattern, Node>)
      requires forall q :: q in a ==> q in b && b[q] == a[q]
      ensures a.Values <= b.Values
    {
    }

    method EnterParam(ghost p: Pattern, name: Text, node: Node) returns (child: Node)
      requires Linked() && p in index && node == index[p]
      modifies this`index, node
      ensures Linked() && View() == Named(Reached(old(View()), Step(p, Param)), p, name)
      ensures Step(p, Param) in index && child == index[Step(p, Param)]
      ensures fresh(index.Values - old(index.Values)) && old(index.Values) <= index.Values
    {
      assert node.Child(Param) == node.paramChild;
      if node.paramChild == null {
        child := NewParam(p, name, node);
        Extends(old(index), index);
        assert forall q :: q in old(index) && q != p ==> index[q] != node;
        hide Linked;
      } else {
        child := node.paramChild;
      }
    }

    method NewParam(ghost p: Pattern, name: Text, node: Node) returns (child: Node)
      requires Linked() && p in index && node == index[p] && node.paramChild == null
      modifies this`index, node
      ensures Linked() && Step(p, Param) !in old(index) && index == old(index)[Step(p, Param) := child]
      ensures fresh(child) && child.paramChild == null && child.handlers == NO_HANDLERS
      ensures node.paramName == name && node.paramChild == child && node.handlers == old(node.handlers)
    {
      assert node.Child(Param) == null;
      child := new Node();
      node.paramName := name;
      node.paramChild := child;
      index := index[Step(p, Param) := child];
      forall q, k | q in index
        ensures index[q].Child(k) == if Step(q, k) in index then index[Step(q, k)] else null
      {
        if q != Step(p, Param) {
          assert old(index[q].Child(k)) == if Step(q, k) in old(index) then old(index)[Step(q, k)] else null;
          assert q != p ==> index[q] != node;
        }
      }
    }

    method EnterStatic(ghost p: Pattern, segment: Text, node: Node) returns (child: Node)
      requires Linked() && p in index && node == index[p]
      modifies this`index, node
      ensures Linked() && View() == Reached(old(View()), Step(p, Static(segment)))
      ensures Step(p, Static(segment)) in index && child == index[Step(p, Static(segment))]
      ensures fresh(index.Values - old(index.Values)) && old(index.Values) <= index.Values
    {
      assert node.Child(Static(segment)) == if segment in node.children then node.children[segment] else null;
      if segment !in node.children {
        child := NewStatic(p, segment, node);
        Extends(old(index), index);
        assert forall q :: q in old(index) && q != p ==> index[q] != node;
        hide Linked;
        assert View().Keys == old(View()).Keys + {Step(p, Static(segment))};
      } else {
        child := node.children[segment];
      }
    }

    method NewStatic(ghost p: Pattern, segment: Text, node: Node) returns (child: Node)
      requires Linked() && p in index && node == index[p] && segment !in node.children
      modifies this`index, node
      ensures Linked() && Step(p, Static(segment)) !in old(index)
          && index == old(index)[Step(p, Static(segment)) := child]
      ensures fresh(child) && child.paramChild == null && child.handlers == NO_HANDLERS
      ensures node.children == old(node.children)[segment := child]
      ensures node.paramName == old(node.paramName) && node.paramChild == old(node.paramChild)
          && node.handlers == old(node.handlers)
    {
      assert node.Child(Static(segment)) == null;
      child := new Node();
      node.children := node.children[segment := child];
      index := index[Step(p, Static(segment)) := child];
      forall q, k | q in index
        ensures index[q].Child(k) == if Step(q, k) in index then index[Step(q, k)] else null
      {
        if q != Step(p, Static(segment)) {
          assert old(index[q].Child(k)) == if Step(q, k) in old(index) then old(index)[Step(q, k)] else null;
          assert q != p ==> index[q] != node;
        }
      }
    }

    /** Match a path against the trie: static children first, then the parameter, never back. */
    method Lookup(segments: seq<Text>) returns (found: Option<Match>)
      requires Valid()
      ensures found == Resolve(routes, 0, segments, map[])
    {
      hide Shows, Resolve;
      var current := root;
      var params: Params := map[];
      ghost var p := Root;
      WalkResolves(View(), routes, Root, segments, map[]);
      UnderRoot(routes);
      for i := 0 to |segments|
        invariant Depth(p) == i && p in index && current == index[p]
        invariant Walk(View(), Root, segments, map[]) == Walk(View(), p, segments, params)
      {
        assert current.Child(Static(segments[i])) == if segments[i] in current.children
            then current.children[segments[i]] else null;
        assert current.Child(Param) == current.paramChild;
        if segments[i] in current.children {
          current := current.children[segments[i]];
          p := Step(p, Static(segments[i]));
        } else if current.paramChild != null {
          params := params[current.paramName := segments[i]];
          current := current.paramChild;
          p := Step(p, Param);
        } else {
          return None;
        }
      }
      if HasAny(current.handlers) {
        return Some(Match(current.handlers, params));
      } else {
        return None;
      }
    }

    /** Answer a request: look its path up, then pick the handler for its method. */
    method Handle(request: CoapRequest) returns (reply: Reply)
      requires Valid()
      ensures reply == Dispatch(routes, request.path, request.requestType)
    {
      var found := Lookup(Segments(request.path));
      if found.None? {
        return Status(NotFound);
      }
      var handler := RetrieveHandler(found.value.handlers, request.requestType);
      if handler.None? {
        return Status(MethodNotAllowed);
      }
      return Invoke(handler.value, found.value.params);
    }
  }

  // ---- Tries as values ----

  /** At pattern p the trie holds what the registrations put there. */
  ghost predicate ShowsAt(v: TrieView, rs: seq<Route>, p: Pattern) {
    && (p in v <==> p == Root || Under(rs, p) != [])
    && (p in v ==> v[p] == NodeView(NameAt(rs, p), HandlersAt(rs, p)))
  }

  ghost predicate Shows(v: TrieView, rs: seq<Route>) {
    forall p :: ShowsAt(v, rs, p)
  }

  function Reached(v: TrieView, q: Pattern): TrieView { if q in v then v else v[q := BARE_NODE] }

  function Named(v: TrieView, p: Pattern, name: Text): TrieView
    requires p in v
  {
    if v[p].name.None? then v[p := v[p].(name := Some(name))] else v
  }

  /** The trie after walking from p over one segment. */
  function Grown(v: TrieView, p: Pattern, segment: Text): TrieView
    requires p in v
  {
    if IsParam(segment) then Named(Reached(v, Step(p, Param)), p, ParamName(segment))
    else Reached(v, Step(p, Static(segment)))
  }

  /** Lookup over a trie view, from prefix p on. */
  function Walk(v: TrieView, p: Pattern, segments: seq<Text>, params: Params): Option<Match>
    requires p in v && Depth(p) <= |segments|
    decreases |segments| - Depth(p)
  {
    if Depth(p) == |segments| then
      if HasAny(v[p].handlers) then Some(Match(v[p].handlers, params)) else None
    else
      var s := segments[Depth(p)];
      if Step(p, Static(s)) in v then Walk(v, Step(p, Static(s)), segments, params)
      else if Step(p, Param) in v && v[p].name.Some?
          then Walk(v, Step(p, Param), segments, params[v[p].name.value := s])
      else None
  }

  /** Walking the trie is narrowing the route list. */
  lemma {:induction false} WalkResolves(v: TrieView, rs: seq<Route>, p: Pattern, segments: seq<Text>, params: Params)
    requires Shows(v, rs) && p in v && Depth(p) <= |segments|
    ensures Walk(v, p, segments, params) == Resolve(Under(rs, p), Depth(p), segments, params)
    decreases |segments| - Depth(p)
  {
    hide Under, Offering, HandlersOf, Covers;
    assert ShowsAt(v, rs, p);
    if Depth(p) < |segments| {
      var s, d := Step(p, Static(segments[Depth(p)])), Step(p, Param);
      UnderNext(rs, p, Static(segments[Depth(p)]));
      UnderNext(rs, p, Param);
      assert ShowsAt(v, rs, s) && ShowsAt(v, rs, d);
      if s in v {
        WalkResolves(v, rs, s, segments, params);
      } else if d in v {
        WalkResolves(v, rs, d, segments, params[v[p].name.value := segments[Depth(p)]]);
      }
    }
  }

  /** Growing the trie by a segment is lengthening the bare last registration by it. */
  lemma GrownShows(v: TrieView, rs: seq<Route>, done: seq<Text>, segment: Text)
    requires Shows(v, rs + [Route(done, NO_HANDLERS)]) && PatternOf(done) in v
    ensures Shows(Grown(v, PatternOf(done), segment), rs + [Route(done + [segment], NO_HANDLERS)])
  {
    hide Under, NameAt, HandlersAt, Covers;
    var a, b := rs + [Route(done, NO_HANDLERS)], rs + [Route(done + [segment], NO_HANDLERS)];
    forall q
      ensures ShowsAt(Grown(v, PatternOf(done), segment), b, q)
    {
      StepRoute(rs, done, segment, q);
      assert ShowsAt(v, a, q) && ShowsAt(v, a, PatternOf(done));
    }
  }

  // ---- A registration seen one segment at a time ----

  /** The empty pattern adds no node, no name and no handlers. */
  lemma EmptyRouteAddsNothing(v: TrieView, rs: seq<Route>)
    requires Shows(v, rs)
    ensures Shows(v, rs + [Route([], NO_HANDLERS)])
  {
    hide Under, NameAt, HandlersAt;
    var r := Route([], NO_HANDLERS);
    forall p
      ensures ShowsAt(v, rs + [r], p)
    {
      assert ShowsAt(v, rs, p);
      UnderAfter(rs, r, p);
      HandlersAfter(rs, r, p);
      NameAfter(rs, r, p);
      assert !Covers(r, Step(p, Param))
          && (Covers(r, p) ==> p == Root) by { CoversIff(r, p); CoversIff(r, Step(p, Param)); }
    }
  }

  lemma StepCovers(done: seq<Text>, segment: Text, q: Pattern)
    ensures Covers(Route(done + [segment], NO_HANDLERS), q) <==>
            Covers(Route(done, NO_HANDLERS), q) || q == Step(PatternOf(done), KeyOf(segment))
    ensures PatternOf(done + [segment]) == Step(PatternOf(done), KeyOf(segment))
  {
    var all := done + [segment];
    CoversIff(Route(all, NO_HANDLERS), q);
    CoversIff(Route(done, NO_HANDLERS), q);
    assert all[..|done|] == done && all[..|all|] == all;
    if Depth(q) <= |done| { assert all[..Depth(q)] == done[..Depth(q)]; }
  }

  /** Walking one segment further makes one more prefix exist, and names its parent's parameter if it has none. */
  lemma StepRoute(rs: seq<Route>, done: seq<Text>, segment: Text, q: Pattern)
    ensures var a, b := rs + [Route(done, NO_HANDLERS)], rs + [Route(done + [segment], NO_HANDLERS)];
      var p := PatternOf(done);
      var next := Step(p, KeyOf(segment));
      && (Under(b, q) != [] <==> Under(a, q) != [] || q == next)
      && HandlersAt(b, q) == HandlersAt(a, q)
      && NameAt(b, q) == (if q == p && IsParam(segment) && NameAt(a, q).None? then Some(ParamName(segment))
          else NameAt(a, q))
      && (Under(a, q) == [] ==> HandlersAt(a, q) == NO_HANDLERS && NameAt(a, q) == None)
  {
    var r, r' := Route(done, NO_HANDLERS), Route(done + [segment], NO_HANDLERS);
    var a := rs + [r];
    StepCovers(done, segment, q);
    StepCovers(done, segment, Step(q, Param));
    UnderAfter(rs, r, q);
    UnderAfter(rs, r', q);
    HandlersAfter(rs, r, q);
    HandlersAfter(rs, r', q);
    NameAfter(rs, r, q);
    NameAfter(rs, r', q);
    if Under(a, q) == [] { UnderNext(a, q, Param); }
  }

  /** Merging at the end of the walk turns the bare pattern into the registration. */
  lemma MergedAtEnd(v: TrieView, rs: seq<Route>, segments: seq<Text>, h: MethodHandlers)
    requires Shows(v, rs + [Route(segments, NO_HANDLERS)]) && PatternOf(segments) in v
    ensures var k := PatternOf(segments);
      Shows(v[k := v[k].(handlers := Merge(v[k].handlers, h))], rs + [Route(segments, h)])
  {
    hide Under, NameAt, HandlersAt, Merge;
    var r, r' := Route(segments, NO_HANDLERS), Route(segments, h);
    var k := PatternOf(segments);
    var merged := v[k := v[k].(handlers := Merge(v[k].handlers, h))];
    forall p
      ensures ShowsAt(merged, rs + [r'], p)
    {
      assert ShowsAt(v, rs + [r], p) && ShowsAt(v, rs + [r], PatternOf(segments));
      UnderAfter(rs, r, p);
      UnderAfter(rs, r', p);
      HandlersAfter(rs, r, p);
      HandlersAfter(rs, r', p);
      NameAfter(rs, r, p);
      NameAfter(rs, r', p);
      SameCovers(segments, h, p);
      SameCovers(segments, h, Step(p, Param));
      MergeNothing(HandlersAt(rs, p));
    }
  }

  lemma SameCovers(segments: seq<Text>, h: MethodHandlers, p: Pattern)
    ensures Covers(Route(segments, h), p) <==> Covers(Route(segments, NO_HANDLERS), p)
  {
    CoversIff(Route(segments, h), p);
    CoversIff(Route(segments, NO_HANDLERS), p);
  }

  lemma MergeNothing(h: MethodHandlers)
    ensures Merge(h, NO_HANDLERS) == h
  {
  }
}
