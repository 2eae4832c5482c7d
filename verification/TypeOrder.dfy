/**
 The order in which generated type definitions are written: a depth-first search that puts what a
 definition refers to before it, as far as definitions do not refer to each other in circles.
 */
module TypeOrder {
  import opened Wrappers

  type Name = string

  datatype Type =
    | Primitive
    | Generic
    | Wrapped(inner: Type)  // array, fixed array, hash set and option
    | Defined(name: Name)
    | Enum(variants: seq<Type>)
    | Struct(fields: seq<Type>)
    | Tuple(items: seq<Type>)
    | HashMap(key: Type, value: Type)

  datatype TypeDef = TypeDef(name: Name, body: Type)

  /** The definitions a type refers to, in the order of their mention. */
  function References(t: Type): seq<Name> {
    match t
    case Primitive | Generic => []
    case Wrapped(inner) => References(inner)
    case Defined(name) => [name]
    case Enum(variants) => AllReferences(variants)
    case Struct(fields) => AllReferences(fields)
    case Tuple(items) => AllReferences(items)
    case HashMap(key, value) => References(key) + References(value)
  }

  function AllReferences(types: seq<Type>): seq<Name> {
    if types == [] then [] else References(types[0]) + AllReferences(types[1..])
  }

  /** `part` is the type, or occurs anywhere in it. */
  ghost predicate Occurs(part: Type, t: Type) {
    part == t ||
    match t
    case Primitive | Generic => false
    case Wrapped(inner) => Occurs(part, inner)
    case Defined(_) => false
    case Enum(variants) => exists v <- variants :: Occurs(part, v)
    case Struct(fields) => exists f <- fields :: Occurs(part, f)
    case Tuple(items) => exists item <- items :: Occurs(part, item)
    case HashMap(key, value) => Occurs(part, key) || Occurs(part, value)
  }

  /** The references of a type are the definitions that occur in it. */
  lemma {:induction false} ReferencesOccur(t: Type, name: Name)
    ensures name in References(t) <==> Occurs(Defined(name), t)
    decreases t
  {
    match t
    case Primitive | Generic =>
    case Defined(_) =>
    case Wrapped(inner) => ReferencesOccur(inner, name);
    case Enum(variants) => AllReferencesOccur(variants, name);
    case Struct(fields) => AllReferencesOccur(fields, name);
    case Tuple(items) => AllReferencesOccur(items, name);
    case HashMap(key, value) =>
      ReferencesOccur(key, name);
      ReferencesOccur(value, name);
  }

  lemma {:induction false} AllReferencesOccur(types: seq<Type>, name: Name)
    ensures name in AllReferences(types) <==> exists t <- types :: Occurs(Defined(name), t)
    decreases types
  {
    if types != [] {
      ReferencesOccur(types[0], name);
      AllReferencesOccur(types[1..], name);
      assert types == [types[0]] + types[1..];
    }
  }

  type Nodes = map<Name, TypeDef>

  function Edges(nodes: Nodes, name: Name): seq<Name>
    requires name in nodes
  {
    References(nodes[name].body)
  }

  ghost predicate Edge(nodes: Nodes, a: Name, b: Name) {
    a in nodes && b in Edges(nodes, a)
  }

  ghost predicate IsPath(nodes: Nodes, path: seq<Name>) {
    path != [] && forall i :: 0 <= i < |path| - 1 ==> Edge(nodes, path[i], path[i + 1])
  }

  ghost predicate Joins(nodes: Nodes, a: Name, b: Name, path: seq<Name>) {
    IsPath(nodes, path) && path[0] == a && path[|path| - 1] == b
  }

  /** `a` is `b`, or refers to it over any number of steps. */
  ghost predicate Reaches(nodes: Nodes, a: Name, b: Name) {
    exists path :: Joins(nodes, a, b, path)
  }

  datatype State = Unvisited | Visiting | Visited

  /** What `name` refers to comes before it, or leads back to it. */
  ghost predicate InPlace(nodes: Nodes, res: seq<Name>, i: nat)
    requires i < |res|
  {
    && res[i] in nodes
    && forall ref <- Edges(nodes, res[i]) :: ref in res[..i] || (ref in nodes && Reaches(nodes, ref, res[i]))
  }

  ghost predicate Distinct(s: seq<Name>) {
    forall i, j :: 0 <= i < j < |s| ==> s[i] != s[j]
  }

  ghost predicate Closed(nodes: Nodes) {
    forall name, ref :: Edge(nodes, name, ref) ==> ref in nodes
  }

  /** The nodes being visited form a path, and everything finished is in place. */
  ghost predicate IsSearch(nodes: Nodes, state: map<Name, State>, res: seq<Name>, stack: seq<Name>) {
    && state.Keys == nodes.Keys
    && (forall name <- nodes :: state[name] == Visiting <==> name in stack)
    && (forall name <- nodes :: state[name] == Visited <==> name in res)
    && (forall name <- stack :: name in nodes) && (stack != [] ==> IsPath(nodes, stack))
    && Distinct(res) && forall i :: 0 <= i < |res| ==> InPlace(nodes, res, i)
  }

  ghost function Open(state: map<Name, State>): set<Name> {
    set name | name in state && state[name] == Unvisited
  }

  /** What has been visited, or is being visited, stays so. */
  ghost predicate Later(before: map<Name, State>, after: map<Name, State>) {
    && before.Keys == after.Keys
    && forall name <- before :: before[name] != Unvisited ==> after[name] == before[name]
  }

  lemma LaterStays(a: map<Name, State>, b: map<Name, State>, c: map<Name, State>)
    requires Later(a, b) && Later(b, c)
    ensures Later(a, c) && Open(c) <= Open(a)
  {
  }

  lemma Enters(nodes: Nodes, state: map<Name, State>, res: seq<Name>, stack: seq<Name>, name: Name)
    requires IsSearch(nodes, state, res, stack) && name in nodes && state[name] == Unvisited
    requires stack != [] ==> Edge(nodes, stack[|stack| - 1], name)
    ensures IsSearch(nodes, state[name := Visiting], res, stack + [name])
    ensures Later(state, state[name := Visiting]) && Open(state[name := Visiting]) < Open(state)
  {
    hide InPlace, Edges;
    assert name in Open(state) && name !in Open(state[name := Visiting]);
  }

  lemma OnPathReaches(nodes: Nodes, path: seq<Name>, ref: Name)
    requires IsPath(nodes, path) && ref in path
    ensures Reaches(nodes, ref, path[|path| - 1])
  {
    var j :| 0 <= j < |path| && path[j] == ref;
    var tail := path[j..];
    forall i | 0 <= i < |tail| - 1 ensures Edge(nodes, tail[i], tail[i + 1]) {
      assert Edge(nodes, path[j + i], path[j + i + 1]);
    }
    assert Joins(nodes, ref, path[|path| - 1], tail);
  }

  lemma ShorterPath(nodes: Nodes, stack: seq<Name>, name: Name)
    requires IsPath(nodes, stack + [name]) && stack != []
    ensures IsPath(nodes, stack)
  {
    var path := stack + [name];
    forall i | 0 <= i < |stack| - 1 ensures Edge(nodes, stack[i], stack[i + 1]) {
      assert Edge(nodes, path[i], path[i + 1]);
    }
  }

  /** All that `name` refers to has been visited, or is on the path to it. */
  lemma FinishedInPlace(nodes: Nodes, state: map<Name, State>, res: seq<Name>, stack: seq<Name>, name: Name)
    requires IsSearch(nodes, state, res, stack + [name])
    requires forall ref <- Edges(nodes, name) :: ref in nodes && state[ref] != Unvisited
    ensures InPlace(nodes, res + [name], |res|)
  {
    var path := stack + [name];
    assert name in path;
    assert (res + [name])[..|res|] == res;
    forall ref <- Edges(nodes, name) ensures ref in res || Reaches(nodes, ref, name) {
      if state[ref] == Visiting { OnPathReaches(nodes, path, ref); }
    }
  }

  lemma StaysInPlace(nodes: Nodes, res: seq<Name>, name: Name, i: nat)
    requires i < |res| && InPlace(nodes, res, i)
    ensures InPlace(nodes, res + [name], i)
  {
    assert (res + [name])[..i] == res[..i];
  }

  lemma Finishes(nodes: Nodes, state: map<Name, State>, res: seq<Name>, stack: seq<Name>, name: Name)
    requires IsSearch(nodes, state, res, stack + [name]) && name !in stack && name in nodes
    requires forall ref <- Edges(nodes, name) :: ref in nodes && state[ref] != Unvisited
    ensures IsSearch(nodes, state[name := Visited], res + [name], stack)
  {
    hide InPlace, Edges, IsPath;
    FinishedInPlace(nodes, state, res, stack, name);
    forall i | 0 <= i < |res| ensures InPlace(nodes, res + [name], i) {
      StaysInPlace(nodes, res, name, i);
    }
    if stack != [] { ShorterPath(nodes, stack, name); }
    assert name in stack + [name];
  }

  lemma SearchFacts(nodes: Nodes, state: map<Name, State>, res: seq<Name>, stack: seq<Name>)
    requires IsSearch(nodes, state, res, stack)
    ensures state.Keys == nodes.Keys
    ensures forall name <- nodes :: state[name] == Visiting <==> name in stack
  {
  }

  lemma NotClosed(nodes: Nodes, name: Name, ref: Name)
    requires name in nodes && ref in Edges(nodes, name) && ref !in nodes
    ensures !Closed(nodes)
  {
    assert Edge(nodes, name, ref);
  }

  class Search {
    const nodes: Nodes
    var state: map<Name, State>
    var res: seq<Name>

    constructor (nodes: Nodes)
      ensures this.nodes == nodes && res == [] && state == map name | name in nodes :: Unvisited
    {
      this.nodes, res, state := nodes, [], map name | name in nodes :: Unvisited;
    }

    method Visit(name: Name, ghost stack: seq<Name>) returns (ok: bool)
      requires IsSearch(nodes, state, res, stack) && name in nodes && name in state
      requires stack != [] ==> Edge(nodes, stack[|stack| - 1], name)
      modifies this
      ensures ok ==> IsSearch(nodes, state, res, stack) && name in state && state[name] != Unvisited
      ensures ok ==> Later(old(state), state)
      ensures !ok ==> !Closed(nodes)
      decreases Open(state)
    {
      hide IsSearch, Open, Edge, Closed;
      SearchFacts(nodes, state, res, stack);
      if state[name] != Unvisited { return true; }
      Enters(nodes, state, res, stack, name);
      state := state[name := Visiting];
      ghost var path := stack + [name];
      var edges := Edges(nodes, name);
      for i := 0 to |edges|
        invariant IsSearch(nodes, state, res, path) && Later(old(state)[name := Visiting], state)
        invariant Open(state) < Open(old(state))
        invariant forall j :: 0 <= j < i ==> edges[j] in nodes && edges[j] in state && state[edges[j]] != Unvisited
      {
        SearchFacts(nodes, state, res, path);
        if edges[i] !in nodes {
          NotClosed(nodes, name, edges[i]);
          return false;
        }
        IsEdge(nodes, name, edges[i]);
        ghost var before := state;
        ok := Visit(edges[i], path);
        if !ok { return; }
        LaterStays(old(state)[name := Visiting], before, state);
        StillOpen(before, state);
      }
      SearchFacts(nodes, state, res, path);
      Finishes(nodes, state, res, stack, name);
      state := state[name := Visited];
      res := res + [name];
      return true;
    }
  }

  lemma IsEdge(nodes: Nodes, a: Name, b: Name)
    requires a in nodes && b in Edges(nodes, a)
    ensures Edge(nodes, a, b)
  {
  }

  lemma StillOpen(before: map<Name, State>, after: map<Name, State>)
    requires Later(before, after)
    ensures Open(after) <= Open(before)
  {
  }

  /** The definitions by name; the last one of a name counts. */
  function NodesOf(types: seq<TypeDef>): (nodes: Nodes)
    ensures forall name <- nodes :: nodes[name].name == name && nodes[name] in types
    ensures forall t <- types :: t.name in nodes
  {
    if types == [] then map[]
    else
      var n := |types| - 1;
      NodesOf(types[..n])[types[n].name := types[n]]
  }

  /** Keys of a map come in the order in which they were first set. */
  method NamesOf(types: seq<TypeDef>) returns (nodes: Nodes, names: seq<Name>)
    ensures nodes == NodesOf(types)
    ensures forall name :: name in nodes <==> name in names
  {
    nodes, names := map[], [];
    for n := 0 to |types|
      invariant nodes == NodesOf(types[..n])
      invariant forall name :: name in nodes <==> name in names
    {
      assert types[..n + 1][..n] == types[..n];
      if types[n].name !in nodes {
        names := names + [types[n].name];
      }
      nodes := nodes[types[n].name := types[n]];
    }
    assert types[..|types|] == types;
  }

  /** The definitions named in `res`, each at its place. */
  ghost predicate IsOrder(nodes: Nodes, res: seq<TypeDef>) {
    && (forall i, j :: 0 <= i < j < |res| ==> res[i].name != res[j].name)
    && (forall def <- res :: def.name in nodes && nodes[def.name] == def)
    && (forall name <- nodes :: nodes[name] in res)
    && forall i :: 0 <= i < |res| ==> ReferencesFirst(nodes, res, i)
  }

  /** What a definition refers to comes before it, or leads back to it. */
  ghost predicate ReferencesFirst(nodes: Nodes, res: seq<TypeDef>, i: nat)
    requires i < |res|
  {
    forall ref <- References(res[i].body) ::
      ref in nodes && (nodes[ref] in res[..i] || Reaches(nodes, ref, res[i].name))
  }

  /** Every definition once, after those it refers to except in a circle; fails if some reference has no definition. */
  method OrderTypes(types: seq<TypeDef>) returns (r: Option<seq<TypeDef>>)
    ensures r.Some? <==> Closed(NodesOf(types))
    ensures r.Some? ==> IsOrder(NodesOf(types), r.value)
  {
    hide IsSearch, Closed, Open, IsOrder, NodesOf, InPlace, Edges, Distinct, DefsOf;
    var nodes, names := NamesOf(types);
    var search := new Search(nodes);
    NothingVisited(nodes, search.state);
    for n := 0 to |names|
      invariant IsSearch(nodes, search.state, search.res, [])
      invariant forall m :: 0 <= m < n ==> names[m] in search.state && search.state[names[m]] != Unvisited
    {
      SearchFacts(nodes, search.state, search.res, []);
      var ok := search.Visit(names[n], []);
      if !ok { return None; }
    }
    SearchFacts(nodes, search.state, search.res, []);
    AllVisited(nodes, search.state, search.res);
    NamedByKey(types);
    InOrder(nodes, search.res);
    r := Some(DefsOf(nodes, search.res));
  }

  lemma NamedByKey(types: seq<TypeDef>)
    ensures forall name <- NodesOf(types) :: NodesOf(types)[name].name == name
  {
  }

  function DefsOf(nodes: Nodes, res: seq<Name>): (defs: seq<TypeDef>)
    requires forall i :: 0 <= i < |res| ==> res[i] in nodes
    ensures |defs| == |res|
  {
    seq(|res|, i requires 0 <= i < |res| => nodes[res[i]])
  }

  lemma NothingVisited(nodes: Nodes, state: map<Name, State>)
    requires state == map name | name in nodes :: Unvisited
    ensures IsSearch(nodes, state, [], [])
  {
  }

  /** With everything visited all references have definitions. */
  lemma AllVisited(nodes: Nodes, state: map<Name, State>, res: seq<Name>)
    requires IsSearch(nodes, state, res, []) && forall name <- nodes :: state[name] != Unvisited
    ensures Closed(nodes) && Distinct(res) && (forall name :: name in res <==> name in nodes)
    ensures forall i :: 0 <= i < |res| ==> res[i] in nodes && InPlace(nodes, res, i)
  {
    forall name <- res ensures name in nodes {
      var i :| 0 <= i < |res| && res[i] == name;
      assert InPlace(nodes, res, i);
    }
    forall name, ref | Edge(nodes, name, ref) ensures ref in nodes {
      var i :| 0 <= i < |res| && res[i] == name;
      assert InPlace(nodes, res, i);
    }
  }

  lemma InOrder(nodes: Nodes, res: seq<Name>)
    requires Distinct(res) && (forall name :: name in res <==> name in nodes) && (forall name <- nodes :: nodes[name].name == name)
    requires forall i :: 0 <= i < |res| ==> res[i] in nodes && InPlace(nodes, res, i)
    ensures IsOrder(nodes, DefsOf(nodes, res))
  {
    hide InPlace, ReferencesFirst;
    var defs := DefsOf(nodes, res);
    forall name <- nodes ensures nodes[name] in defs {
      var i :| 0 <= i < |res| && res[i] == name;
      assert defs[i] == nodes[name];
    }
    forall i | 0 <= i < |defs| ensures ReferencesFirst(nodes, defs, i) {
      InPlaceIsFirst(nodes, res, i);
    }
  }

  lemma InPlaceIsFirst(nodes: Nodes, res: seq<Name>, i: nat)
    requires (forall name <- res :: name in nodes && nodes[name].name == name) && i < |res| && InPlace(nodes, res, i)
    ensures ReferencesFirst(nodes, DefsOf(nodes, res), i)
  {
    hide Reaches, References;
    var defs := DefsOf(nodes, res);
    forall ref <- References(defs[i].body)
      ensures ref in nodes && (nodes[ref] in defs[..i] || Reaches(nodes, ref, defs[i].name))
    {
      if ref in res[..i] {
        var j :| 0 <= j < i && res[j] == ref;
        assert defs[..i][j] == nodes[ref];
      }
    }
  }
}
