/** `compile_contract`: the location walk, the resolution of references and the depth-first search
    that rejects non-progressing recursion. */
module SchemaCompile {
  import opened Wrappers
  import opened SchemaContract

  datatype Outcome = Accepted | TooManyLocations | UnresolvedReference | NonProgressing

  // ---------- What each outcome means for the schema alone ----------

  ghost predicate Exceeds(root: Schema, limit: nat) {
    exists some: set<Path> :: |some| > limit && forall p :: p in some ==> At(root, p).Some?
  }

  ghost predicate Dangles(root: Schema, p: Path) {
    && At(root, p).Some? && At(root, p).value.ObjSchema?
    && At(root, p).value.ref.Some? && At(root, At(root, p).value.ref.value).None?
  }

  ghost predicate Dangling(root: Schema) {
    exists p :: Dangles(root, p)
  }

  /** The subschema at `p` looks at its instance again through `q`: its reference, or a subschema of one of the
      eight keywords that pass the instance itself on. */
  ghost predicate LooksAgain(root: Schema, p: Path, q: Path) {
    && At(root, p).Some? && At(root, p).value.ObjSchema?
    && (At(root, p).value.ref == Some(q) || exists t :: t in At(root, p).value.children && q == p + [t] && PassesOn(t))
  }

  predicate PassesOn(t: Token) {
    match t.keyword
    case AllOf => true
    case AnyOf => true
    case OneOf => true
    case Not => true
    case If => true
    case Then => true
    case Else => true
    case DependentSchemas => true
    case _ => false
  }

  ghost predicate Circle(root: Schema, walk: seq<Path>) {
    && |walk| > 0
    && (forall i :: 0 <= i < |walk| ==> At(root, walk[i]).Some?)
    && (forall i :: 0 < i < |walk| ==> LooksAgain(root, walk[i - 1], walk[i]))
    && LooksAgain(root, walk[|walk| - 1], walk[0])
  }

  ghost predicate Cyclic(root: Schema) {
    exists walk :: Circle(root, walk)
  }

  lemma EdgeLooksAgain(root: Schema, locations: map<Path, Schema>, p: Path, q: Path)
    requires Locates(root, locations) && p in locations
    ensures q in EdgesFrom(p, locations[p]) <==> LooksAgain(root, p, q)
  {
    hide At;
    assert At(root, p) == Some(locations[p]);
    if locations[p].ObjSchema? {
      forall t | t in locations[p].children
        ensures SameInstance(t.keyword) <==> PassesOn(t)
      {
      }
    }
  }

  /** A closed walk along the edges of the table goes in a circle in the schema. */
  lemma CycleIsCircle(root: Schema, locations: map<Path, Schema>, walk: seq<Path>)
    requires Locates(root, locations)
    ensures IsCycle(locations, walk) <==> Circle(root, walk)
  {
    hide EdgesFrom, LooksAgain, At;
    forall p, q | p in locations
      ensures q in EdgesFrom(p, locations[p]) <==> LooksAgain(root, p, q)
    {
      EdgeLooksAgain(root, locations, p, q);
    }
  }

  ghost function Verdict(root: Schema, limit: nat): Outcome {
    if Exceeds(root, limit) then TooManyLocations
    else if Dangling(root) then UnresolvedReference
    else if Cyclic(root) then NonProgressing
    else Accepted
  }

  lemma SubsetSize<T>(a: set<T>, b: set<T>)
    requires a <= b
    ensures |a| <= |b|
  {
    if a != {} {
      var x :| x in a;
      SubsetSize(a - {x}, b - {x});
    }
  }

  lemma WithinLimit(root: Schema, locations: map<Path, Schema>, limit: nat)
    requires Locates(root, locations) && |locations| <= limit
    ensures !Exceeds(root, limit)
  {
    forall some: set<Path> | forall p :: p in some ==> At(root, p).Some? ensures |some| <= limit {
      assert some <= locations.Keys;
      SubsetSize(some, locations.Keys);
    }
  }

  lemma RankedIsAcyclic(root: Schema, locations: map<Path, Schema>, rank: map<Path, nat>)
    requires Locates(root, locations) && IsRank(locations, rank)
    ensures !Cyclic(root)
  {
    forall walk ensures !Circle(root, walk) {
      RankExcludesCycle(locations, rank, walk);
      CycleIsCircle(root, locations, walk);
    }
  }

  lemma TooMany(root: Schema, limit: nat, locations: map<Path, Schema>, edges: Edges)
    requires |locations| >= limit && Faithful(root, locations, edges)
    requires exists p :: p !in locations && At(root, p).Some?
    ensures Exceeds(root, limit)
  {
    hide At;
    var p :| p !in locations && At(root, p).Some?;
    var some := locations.Keys + {p};
    assert |some| == |locations.Keys| + 1;
  }

  lemma NotDangling(root: Schema, locations: map<Path, Schema>)
    requires Locates(root, locations) && Resolved(locations)
    ensures !Dangling(root)
  {
    forall p ensures !Dangles(root, p) {
      if p in locations {}
    }
  }

  /** The edges at the locations, those of references only outside `rest`. */
  ghost predicate HasEdges(locations: map<Path, Schema>, edges: Edges, rest: set<Path>) {
    && edges.Keys == locations.Keys
    && forall p :: p in locations ==>
         edges[p] == if p in rest then ChildEdges(p, locations[p]) else EdgesFrom(p, locations[p])
  }

  /** References outside `rest` have their targets. */
  ghost predicate ResolvedBut(locations: map<Path, Schema>, rest: set<Path>) {
    forall p :: p in locations && p !in rest && locations[p].ObjSchema? && locations[p].ref.Some? ==>
      locations[p].ref.value in locations
  }

  /** Adds the edge of the reference at `p`, if there is one. */
  lemma AddsReference(locations: map<Path, Schema>, edges: Edges, more: Edges, rest: set<Path>, p: Path)
    requires HasEdges(locations, edges, rest) && ResolvedBut(locations, rest) && p in rest && p in locations
    requires if locations[p].ObjSchema? && locations[p].ref.Some?
             then locations[p].ref.value in locations && more == edges[p := edges[p] + {locations[p].ref.value}]
             else more == edges
    ensures HasEdges(locations, more, rest - {p}) && ResolvedBut(locations, rest - {p})
  {
  }

  lemma EdgesAt(locations: map<Path, Schema>, edges: Edges, rest: set<Path>)
    requires HasEdges(locations, edges, rest)
    ensures edges.Keys == locations.Keys
  {
  }

  lemma AllReferences(locations: map<Path, Schema>)
    requires ResolvedBut(locations, {})
    ensures Resolved(locations)
  {
  }

  lemma NoReferences(locations: map<Path, Schema>)
    ensures ResolvedBut(locations, locations.Keys)
  {
  }

  lemma DanglesHere(root: Schema, locations: map<Path, Schema>, p: Path)
    requires Locates(root, locations) && p in locations && locations[p].ObjSchema?
    requires locations[p].ref.Some? && locations[p].ref.value !in locations
    ensures Dangling(root)
  {
    assert Dangles(root, p);
  }

  lemma StartsSearching(locations: map<Path, Schema>, edges: Edges)
    requires Closed(locations) && Resolved(locations) && HasEdges(locations, edges, {})
    ensures Searching(edges, {}, {}, map[], [])
  {
  }

  lemma NothingRecorded(root: Schema)
    ensures Faithful(root, map[], map[]) && Unvisited(map[], []) && At(root, []) == Some(root)
  {
  }

  lemma RecordsRoot(root: Schema, locations: map<Path, Schema>, edges: Edges)
    requires Recorded(root, map[], map[], locations, edges, [])
    ensures Locates(root, locations) && HasEdges(locations, edges, locations.Keys)
  {
  }

  lemma WalkIsCycle(root: Schema, locations: map<Path, Schema>, edges: Edges)
    requires Locates(root, locations) && HasEdges(locations, edges, {})
    requires exists walk :: ClosedWalk(edges, walk)
    ensures Cyclic(root)
  {
    var walk :| ClosedWalk(edges, walk);
    assert IsCycle(locations, walk);
    CycleIsCircle(root, locations, walk);
  }

  lemma SearchRanks(locations: map<Path, Schema>, edges: Edges, active: set<Path>, visited: set<Path>,
                    rank: map<Path, nat>)
    requires Searching(edges, active, visited, rank, []) && visited == edges.Keys && HasEdges(locations, edges, {})
    ensures IsRank(locations, rank)
  {
  }

  ghost predicate Split<T>(done: set<T>, rest: set<T>, all: set<T>) {
    done !! rest && done + rest == all
  }

  lemma SplitStarts<T>(all: set<T>)
    ensures Split({}, all, all)
  {
  }

  lemma SplitMoves<T>(done: set<T>, rest: set<T>, all: set<T>, t: T)
    requires Split(done, rest, all) && t in rest
    ensures t in all && t !in done && Split(done + {t}, rest - {t}, all) && rest - {t} < rest
  {
  }

  lemma SplitEnds<T>(done: set<T>, all: set<T>)
    requires Split(done, {}, all)
    ensures done == all
  {
  }

  // ---------- The compiler's state ----------

  class Compiler {
    const root: Schema
    const limit: nat
    var locations: map<Path, Schema>
    var edges: map<Path, set<Path>>
    var active: set<Path>
    var visited: set<Path>
    var rank: map<Path, nat>  // the order in which locations were left

    constructor (root: Schema, limit: nat)
      ensures this.root == root && this.limit == limit
      ensures locations == map[] && edges == map[] && active == {} && visited == {} && rank == map[]
    {
      this.root, this.limit := root, limit;
      locations, edges, active, visited, rank := map[], map[], {}, {}, map[];
    }

    /** Records the subtree at `path`, or stops when the budget is spent. */
    method Visit(path: Path, node: Schema) returns (ok: bool)
      requires At(root, path) == Some(node) && Faithful(root, locations, edges) && Unvisited(locations, path)
      modifies this`locations, this`edges
      ensures Faithful(root, locations, edges)
      ensures ok ==> Recorded(root, old(locations), old(edges), locations, edges, path) && |locations| <= limit
      ensures !ok ==> |locations| >= limit && exists p :: p !in locations && At(root, p).Some?
      decreases node
    {
      hide Recorded, PartlyRecorded, Faithful, Unvisited, EdgesTo, At, SameInstance, Split;
      if |locations| >= limit {
        NotYetRecorded(root, locations, path);
        return false;
      }
      RecordsSelf(root, locations, edges, path, node);
      ghost var before, edgesBefore := locations, edges;
      locations := locations[path := node];
      edges := edges[path := {}];
      if node.BoolSchema? {
        return true;
      }
      var rest := node.children.Keys;
      ghost var kids: set<Token> := {};
      SplitStarts(rest);
      while rest != {}
        invariant Split(kids, rest, node.children.Keys) && |locations| <= limit
        invariant PartlyRecorded(root, before, edgesBefore, locations, edges, path, node, kids)
      {
        var t :| t in rest;
        SplitMoves(kids, rest, node.children.Keys, t);
        ghost var halfway, edgesHalfway := locations, edges;
        ChildUnvisited(root, before, edgesBefore, locations, edges, path, node, kids, t);
        ok := Visit(path + [t], node.children[t]);
        if !ok {
          return;
        }
        RecordsChild(root, before, edgesBefore, halfway, edgesHalfway, locations, edges, path, node, kids, t);
        if SameInstance(t.keyword) {
          edges := edges[path := edges[path] + {path + [t]}];
        }
        rest := rest - {t};
        kids := kids + {t};
      }
      SplitEnds(kids, node.children.Keys);
      RecordsAll(root, before, edgesBefore, locations, edges, path, node, kids);
      ok := true;
    }

    method ResolveReferences() returns (ok: bool)
      requires Locates(root, locations) && HasEdges(locations, edges, locations.Keys)
      modifies this`edges
      ensures ok ==> Resolved(locations) && HasEdges(locations, edges, {})
      ensures !ok ==> Dangling(root)
    {
      hide Locates, HasEdges, Resolved, ResolvedBut, Dangling;
      var rest := locations.Keys;
      NoReferences(locations);
      while rest != {}
        invariant rest <= locations.Keys && HasEdges(locations, edges, rest) && ResolvedBut(locations, rest)
      {
        var p :| p in rest;
        var node := locations[p];
        ghost var before := edges;
        if node.ObjSchema? && node.ref.Some? {
          if node.ref.value !in locations {
            DanglesHere(root, locations, p);
            return false;
          }
          EdgesAt(locations, edges, rest);
          edges := edges[p := edges[p] + {node.ref.value}];
        }
        AddsReference(locations, before, edges, rest, p);
        rest := rest - {p};
      }
      AllReferences(locations);
      ok := true;
    }

    /** The recursion over `edges`; `stack` is the chain of open calls. */
    method Acyclic(path: Path, ghost stack: seq<Path>) returns (ok: bool, ghost walk: seq<Path>)
      requires Searching(edges, active, visited, rank, stack) && path in edges
      requires |stack| > 0 ==> stack[|stack| - 1] in edges && path in edges[stack[|stack| - 1]]
      modifies this`active, this`visited, this`rank
      ensures ok ==> Searching(edges, active, visited, rank, stack)
      ensures ok ==> path in visited && old(visited) <= visited && active == old(active)
      ensures !ok ==> ClosedWalk(edges, walk)
      decreases edges.Keys - active
    {
      hide Searching;
      walk := [];
      if path in active {
        walk := ChainCloses(edges, active, visited, rank, stack, path);
        return false, walk;
      }
      if path in visited {
        return true, walk;
      }
      Opens(edges, active, visited, rank, stack, path);
      active := active + {path};
      ghost var deeper := stack + [path];
      var rest := edges[path];
      while rest != {}
        invariant Searching(edges, active, visited, rank, deeper) && rest <= edges[path]
        invariant active == old(active) + {path} && old(visited) <= visited
        invariant edges[path] - rest <= visited
      {
        var target :| target in rest;
        ok, walk := Acyclic(target, deeper);
        if !ok {
          return;
        }
        rest := rest - {target};
      }
      Leaves(edges, active, visited, rank, stack, path);
      active := active - {path};
      rank := rank[path := |visited|];
      visited := visited + {path};
      return true, walk;
    }

    method SearchAll() returns (ok: bool)
      requires Searching(edges, active, visited, rank, []) && active == {} && visited == {}
      modifies this`active, this`visited, this`rank
      ensures ok ==> Searching(edges, active, visited, rank, []) && visited == edges.Keys
      ensures !ok ==> exists walk :: ClosedWalk(edges, walk)
    {
      var rest := edges.Keys;
      while rest != {}
        invariant rest <= edges.Keys && edges.Keys - rest <= visited
        invariant Searching(edges, active, visited, rank, [])
      {
        var p :| p in rest;
        ghost var walk;
        ok, walk := Acyclic(p, []);
        if !ok {
          return;
        }
        rest := rest - {p};
      }
      ok := true;
    }
  }

  // ---------- The depth-first search on a table of edges ----------

  type Edges = map<Path, set<Path>>

  ghost predicate ClosedWalk(edges: Edges, walk: seq<Path>) {
    && |walk| > 0
    && (forall i :: 0 <= i < |walk| ==> walk[i] in edges)
    && (forall i :: 0 < i < |walk| ==> walk[i] in edges[walk[i - 1]])
    && walk[0] in edges[walk[|walk| - 1]]
  }

  /** The open locations form a chain of edges. */
  ghost predicate Chain(edges: Edges, active: set<Path>, stack: seq<Path>) {
    && (forall p :: p in active <==> p in stack)
    && (forall i :: 0 <= i < |stack| ==> stack[i] in edges)
    && (forall i, j :: 0 <= i < j < |stack| ==> stack[i] != stack[j])
    && (forall i :: 0 < i < |stack| ==> stack[i] in edges[stack[i - 1]])
  }

  /** Every location left so far points only to locations left before it. */
  ghost predicate Ranked(edges: Edges, visited: set<Path>, rank: map<Path, nat>) {
    && visited <= edges.Keys && rank.Keys == visited
    && (forall p :: p in visited ==> rank[p] < |visited|)
    && (forall p, q :: p in visited && q in edges[p] ==> q in visited && rank[q] < rank[p])
  }

  ghost predicate Searching(edges: Edges, active: set<Path>, visited: set<Path>, rank: map<Path, nat>,
                            stack: seq<Path>) {
    && (forall p :: p in edges ==> edges[p] <= edges.Keys)
    && active !! visited && Chain(edges, active, stack) && Ranked(edges, visited, rank)
  }

  lemma ChainCloses(edges: Edges, active: set<Path>, visited: set<Path>, rank: map<Path, nat>, stack: seq<Path>,
                    p: Path)
      returns (walk: seq<Path>)
    requires Searching(edges, active, visited, rank, stack) && p in active
    requires |stack| > 0 ==> stack[|stack| - 1] in edges && p in edges[stack[|stack| - 1]]
    ensures ClosedWalk(edges, walk)
  {
    var i :| 0 <= i < |stack| && stack[i] == p;
    walk := stack[i..];
  }

  lemma Opens(edges: Edges, active: set<Path>, visited: set<Path>, rank: map<Path, nat>, stack: seq<Path>, p: Path)
    requires Searching(edges, active, visited, rank, stack) && p in edges && p !in active && p !in visited
    requires |stack| > 0 ==> p in edges[stack[|stack| - 1]]
    ensures Searching(edges, active + {p}, visited, rank, stack + [p])
  {
  }

  lemma Leaves(edges: Edges, active: set<Path>, visited: set<Path>, rank: map<Path, nat>, stack: seq<Path>, p: Path)
    requires p in edges && edges[p] <= visited
    requires Searching(edges, active, visited, rank, stack + [p])
    ensures Searching(edges, active - {p}, visited + {p}, rank[p := |visited|], stack)
  {
    assert (stack + [p])[|stack|] == p;
    assert p in stack + [p];
    forall i | 0 <= i < |stack| ensures (stack + [p])[i] == stack[i] && stack[i] != p {
    }
    forall q ensures q in active - {p} <==> q in stack {
      if q in stack { assert q in stack + [p]; }
    }
    assert |visited + {p}| == |visited| + 1;
  }

  // ---------- The location walk on tables ----------

  ghost predicate Faithful(root: Schema, l: map<Path, Schema>, e: Edges) {
    e.Keys == l.Keys && forall p :: p in l ==> At(root, p) == Some(l[p])
  }

  ghost predicate Unvisited(l: map<Path, Schema>, path: Path) {
    forall p :: p in l ==> !(path <= p)
  }

  /** From `l0` to `l` exactly the locations at and below `path` were added, with their child edges. */
  ghost predicate Recorded(root: Schema, l0: map<Path, Schema>, e0: Edges, l: map<Path, Schema>, e: Edges, path: Path) {
    && Faithful(root, l, e) && e0.Keys == l0.Keys
    && (forall p :: p in l <==> p in l0 || (path <= p && At(root, p).Some?))
    && (forall p :: p in l ==> e[p] == if p in l0 then e0[p] else ChildEdges(p, l[p]))
  }

  /** The same with only the subtrees of `kids` added, and the edges of `path` still growing. */
  ghost predicate PartlyRecorded(root: Schema, l0: map<Path, Schema>, e0: Edges, l: map<Path, Schema>, e: Edges,
                                 path: Path, node: Schema, kids: set<Token>) {
    && Faithful(root, l, e) && e0.Keys == l0.Keys && At(root, path) == Some(node) && Unvisited(l0, path)
    && path in l && e[path] == EdgesTo(path, kids)
    && (forall p :: p in l <==> p in l0 || p == path || (path < p && p[|path|] in kids && At(root, p).Some?))
    && (forall p :: p in l && p != path ==> e[p] == if p in l0 then e0[p] else ChildEdges(p, l[p]))
  }

  lemma NotYetRecorded(root: Schema, l: map<Path, Schema>, path: Path)
    requires Unvisited(l, path) && At(root, path).Some?
    ensures exists p :: p !in l && At(root, p).Some?
  {
    assert path <= path;
  }

  lemma RecordsSelf(root: Schema, l: map<Path, Schema>, e: Edges, path: Path, node: Schema)
    requires At(root, path) == Some(node) && Faithful(root, l, e) && Unvisited(l, path)
    ensures node.BoolSchema? ==> Faithful(root, l[path := node], e[path := {}])
    ensures node.BoolSchema? ==> Recorded(root, l, e, l[path := node], e[path := {}], path)
    ensures node.ObjSchema? ==> PartlyRecorded(root, l, e, l[path := node], e[path := {}], path, node, {})
  {
    assert path <= path;
    if node.BoolSchema? {
      forall p | path <= p && At(root, p).Some? ensures p == path {
        if |path| < |p| { StepBelow(root, path, p); }
      }
    } else {
      assert EdgesTo(path, {}) == {};
    }
  }

  lemma ChildUnvisited(root: Schema, l0: map<Path, Schema>, e0: Edges, l: map<Path, Schema>, e: Edges,
                       path: Path, node: Schema, kids: set<Token>, t: Token)
    requires PartlyRecorded(root, l0, e0, l, e, path, node, kids) && node.ObjSchema? && t in node.children && t !in kids
    ensures Faithful(root, l, e) && Unvisited(l, path + [t]) && At(root, path + [t]) == Some(node.children[t])
  {
    AtChild(root, path, t);
    BelowChild(path, t);
    forall p | p in l ensures !(path + [t] <= p) {
      if p in l0 { assert !(path <= p); }
    }
  }

  lemma RecordsChild(root: Schema, l0: map<Path, Schema>, e0: Edges, l1: map<Path, Schema>, e1: Edges,
                     l: map<Path, Schema>, e: Edges, path: Path, node: Schema, kids: set<Token>, t: Token)
    requires PartlyRecorded(root, l0, e0, l1, e1, path, node, kids) && node.ObjSchema? && t in node.children
    requires t !in kids
    requires Recorded(root, l1, e1, l, e, path + [t])
    ensures path in e
    ensures SameInstance(t.keyword) ==>
            PartlyRecorded(root, l0, e0, l, e[path := e[path] + {path + [t]}], path, node, kids + {t})
    ensures !SameInstance(t.keyword) ==> PartlyRecorded(root, l0, e0, l, e, path, node, kids + {t})
  {
    hide PartlyRecorded, Recorded, EdgesTo;
    KeepsEdges(root, l0, e0, l1, e1, l, e, path, node, kids, t);
    EdgesToMore(path, kids, t);
    RecordsChildWith(root, l0, e0, l1, e1, l, e,
                     if SameInstance(t.keyword) then e[path := e[path] + {path + [t]}] else e, path, node, kids, t);
  }

  /** The walk below a child leaves the edges of its parent alone. */
  lemma KeepsEdges(root: Schema, l0: map<Path, Schema>, e0: Edges, l1: map<Path, Schema>, e1: Edges,
                   l: map<Path, Schema>, e: Edges, path: Path, node: Schema, kids: set<Token>, t: Token)
    requires PartlyRecorded(root, l0, e0, l1, e1, path, node, kids) && Recorded(root, l1, e1, l, e, path + [t])
    ensures path in e && path in l && e.Keys == l.Keys && e[path] == EdgesTo(path, kids)
  {
    hide EdgesTo, ChildEdges, At;
    assert !(path + [t] <= path);
  }

  lemma RecordsChildWith(root: Schema, l0: map<Path, Schema>, e0: Edges, l1: map<Path, Schema>, e1: Edges,
                         l: map<Path, Schema>, e: Edges, more: Edges, path: Path, node: Schema, kids: set<Token>,
                         t: Token)
    requires PartlyRecorded(root, l0, e0, l1, e1, path, node, kids) && node.ObjSchema? && t in node.children
    requires t !in kids
    requires Recorded(root, l1, e1, l, e, path + [t]) && path in l && more.Keys == l.Keys
    requires more[path] == EdgesTo(path, kids + {t}) && forall p :: p in l && p != path ==> more[p] == e[p]
    ensures PartlyRecorded(root, l0, e0, l, more, path, node, kids + {t})
  {
    RecordsChildLocations(root, l0, e0, l1, e1, l, e, path, node, kids, t);
    hide EdgesTo, ChildEdges, At;
  }

  lemma EdgesToMore(path: Path, kids: set<Token>, t: Token)
    ensures EdgesTo(path, kids + {t}) == EdgesTo(path, kids) + (if SameInstance(t.keyword) then {path + [t]} else {})
  {
  }

  lemma RecordsChildLocations(root: Schema, l0: map<Path, Schema>, e0: Edges, l1: map<Path, Schema>, e1: Edges,
                              l: map<Path, Schema>, e: Edges, path: Path, node: Schema, kids: set<Token>, t: Token)
    requires PartlyRecorded(root, l0, e0, l1, e1, path, node, kids) && node.ObjSchema? && t in node.children
    requires t !in kids
    requires Recorded(root, l1, e1, l, e, path + [t])
    ensures forall p :: p in l <==> p in l0 || p == path || (path < p && p[|path|] in kids + {t} && At(root, p).Some?)
    ensures forall p :: p in l && p != path ==> e[p] == if p in l0 then e0[p] else ChildEdges(p, l[p])
  {
    hide EdgesTo, ChildEdges, At;
    BelowChild(path, t);
    forall p ensures p in l <==> p in l0 || p == path || (path < p && p[|path|] in kids + {t} && At(root, p).Some?) {
      assert p in l <==> p in l1 || (path + [t] <= p && At(root, p).Some?);
    }
    forall p | p in l && p != path ensures e[p] == if p in l0 then e0[p] else ChildEdges(p, l[p]) {
      if p in l1 {
        assert l1[p] == l[p] by { assert At(root, p) == Some(l[p]); }
      }
    }
  }

  lemma RecordsAll(root: Schema, l0: map<Path, Schema>, e0: Edges, l: map<Path, Schema>, e: Edges,
                   path: Path, node: Schema, kids: set<Token>)
    requires PartlyRecorded(root, l0, e0, l, e, path, node, kids) && node.ObjSchema? && kids == node.children.Keys
    ensures Recorded(root, l0, e0, l, e, path)
  {
    assert path <= path;
    forall p | path <= p && At(root, p).Some? ensures p == path || (path < p && p[|path|] in kids) {
      if |path| < |p| { StepBelow(root, path, p); }
    }
  }

  lemma BelowChild(path: Path, t: Token)
    ensures forall p :: path + [t] <= p <==> path < p && p[|path|] == t
  {
    forall p | path < p && p[|path|] == t ensures path + [t] <= p {
      assert p[..|path| + 1] == path + [t];
    }
  }

  lemma StepBelow(root: Schema, path: Path, p: Path)
    requires path < p && At(root, p).Some?
    ensures At(root, path).Some? && At(root, path).value.ObjSchema? && p[|path|] in At(root, path).value.children
  {
    assert p == (path + [p[|path|]]) + p[|path| + 1..];
    AtPrefix(root, path + [p[|path|]], p[|path| + 1..]);
    AtPrefix(root, path, [p[|path|]]);
    AtChild(root, path, p[|path|]);
  }

  /** The outcome is decided by the schema alone, and an accepted schema is ready for evaluation. */
  method Compile(root: Schema, limit: nat, local: (Path, Json) -> bool, search: (string, string) -> bool)
      returns (outcome: Outcome, c: Contract)
    ensures outcome == Verdict(root, limit)
    ensures outcome.Accepted? ==> Locates(root, c.locations) && c.local == local && c.search == search
  {
    hide Locates, Closed, Resolved, HasEdges, IsRank, Exceeds, Dangling, Cyclic, ClosedWalk, Recorded, Faithful;
    hide Searching;
    var compiler := new Compiler(root, limit);
    c := Table(map[], map[], local, search);
    NothingRecorded(root);
    var ok := compiler.Visit([], root);
    if !ok {
      TooMany(root, limit, compiler.locations, compiler.edges);
      return TooManyLocations, c;
    }
    RecordsRoot(root, compiler.locations, compiler.edges);
    WithinLimit(root, compiler.locations, limit);
    LocatesCloses(root, compiler.locations);
    ok := compiler.ResolveReferences();
    if !ok {
      return UnresolvedReference, c;
    }
    NotDangling(root, compiler.locations);
    StartsSearching(compiler.locations, compiler.edges);
    ok := compiler.SearchAll();
    if !ok {
      WalkIsCycle(root, compiler.locations, compiler.edges);
      return NonProgressing, c;
    }
    SearchRanks(compiler.locations, compiler.edges, compiler.active, compiler.visited, compiler.rank);
    RankedIsAcyclic(root, compiler.locations, compiler.rank);
    var table := Table(compiler.locations, compiler.rank, local, search);
    RankedIsWellFormed(table);
    return Accepted, table;
  }
}
