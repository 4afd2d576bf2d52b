/**
 The static check for circular dependencies between workflow steps
 (`circular_dependency_checker`, `get_dependency_tree`, `processDFS`, `get_step_id`).
 */
module CycleCheck {
  import opened InputAssembly
  import opened Strings

  // ---------------------------------------------------------------- step ids

  /** The text between the first '#' and the next one, or the end. */
  function Fragment(id: string): string
    requires '#' in id
  {
    var rest := id[IndexOf(id, '#') + 1..];
    if '#' in rest then rest[..IndexOf(rest, '#')] else rest
  }

  /** The id of the step that a field belongs to; a field outside any step belongs to its document. */
  function GetStepId(id: string): string
    requires '#' in id
  {
    if '/' in Fragment(id) then
      assert '/' in id[IndexOf(id, '#') + 1..];
      id[..LastIndexOf(id, '/')]
    else id[..IndexOf(id, '#')]
  }

  /** A step id has one fragment: nothing after its first '#' is a '#'. */
  ghost predicate OneFragment(step: string) {
    '#' in step && forall j :: IndexOf(step, '#') < j < |step| ==> step[j] != '#'
  }

  lemma FragmentHasSlash(step: string, name: string)
    requires OneFragment(step)
    ensures var id := step + "/" + name; '#' in id && '/' in Fragment(id)
  {
    var id, h := step + "/" + name, IndexOf(step, '#');
    assert id[h] == '#' && IndexOf(id, '#') == h;
    var rest, cut := id[h + 1..], |step| - h - 1;
    assert rest[cut] == '/' && forall j :: 0 <= j < cut ==> rest[j] == step[h + 1 + j];
    if '#' in rest {
      assert rest[..IndexOf(rest, '#')][cut] == '/';
    }
  }

  /** Every field `step/name` of a step is traced back to that step. */
  lemma FieldBelongsToStep(step: string, name: string)
    requires OneFragment(step) && '/' !in name
    ensures var id := step + "/" + name; '#' in id && GetStepId(id) == step
  {
    var id := step + "/" + name;
    FragmentHasSlash(step, name);
    assert forall j :: |step| < j < |id| ==> id[j] == name[j - |step| - 1];
    assert id[|step|] == '/' && LastIndexOf(id, '/') == |step|;
    assert id[..|step|] == step;
  }

  /** A field outside any step belongs to its document. */
  lemma FieldBelongsToDocument(doc: string, name: string)
    requires '#' !in doc && '/' !in name && '#' !in name
    ensures var id := doc + "#" + name; '#' in id && GetStepId(id) == doc
  {
    var id := doc + "#" + name;
    assert id[|doc|] == '#' && forall j :: 0 <= j < |doc| ==> id[j] == doc[j];
    assert IndexOf(id, '#') == |doc|;
    assert id[|doc| + 1..] == name && id[..|doc|] == doc;
  }

  // ---------------------------------------------------------------- the dependency graph

  /** Adjacency lists from a step to the steps that consume its outputs. */
  type Graph = map<string, seq<string>>

  ghost predicate Edge(g: Graph, u: string, v: string) {
    u in g && v in g[u]
  }

  ghost predicate Closed(g: Graph) {
    forall u, v :: Edge(g, u, v) ==> v in g
  }

  ghost predicate HasIds(p: Param) {
    '#' in p.id && (p.sources.Some? ==> forall src :: src in p.sources.value ==> '#' in src)
  }

  /** Parameter `p` makes the step of `v` depend on the step of `u`. */
  ghost predicate Links(p: Param, u: string, v: string)
    requires HasIds(p)
  {
    && p.sources.Some? && GetStepId(p.id) == v
    && exists j :: 0 <= j < |p.sources.value| && GetStepId(p.sources.value[j]) == u
  }

  function AddEdge(g: Graph, u: string, v: string): Graph {
    if u !in g then g[u := [v]]
    else if v !in g[u] then g[u := g[u] + [v]]
    else g
  }

  lemma AddEdgeAdds(g: Graph, u: string, v: string)
    ensures forall x, y :: Edge(AddEdge(g, u, v), x, y) <==> Edge(g, x, y) || (x == u && y == v)
  {}

  /** One of the first `k` sources comes from step `u`. */
  ghost predicate Consumed(srcs: seq<string>, k: nat, u: string)
    requires k <= |srcs| && forall src :: src in srcs ==> '#' in src
  {
    exists l :: 0 <= l < k && GetStepId(srcs[l]) == u
  }

  lemma ConsumedStep(srcs: seq<string>, k: nat)
    requires k < |srcs| && forall src :: src in srcs ==> '#' in src
    ensures forall u :: Consumed(srcs, k + 1, u) <==> Consumed(srcs, k, u) || GetStepId(srcs[k]) == u
  {
    forall u ensures Consumed(srcs, k + 1, u) <==> Consumed(srcs, k, u) || GetStepId(srcs[k]) == u {
      if Consumed(srcs, k + 1, u) {
        var l :| 0 <= l < k + 1 && GetStepId(srcs[l]) == u;
        assert l < k ==> Consumed(srcs, k, u);
      }
      if Consumed(srcs, k, u) {
        var l :| 0 <= l < k && GetStepId(srcs[l]) == u;
        assert l < k + 1;
      }
    }
  }

  /** The edges of one step input. */
  method AddLinks(g0: Graph, p: Param) returns (g: Graph)
    requires Closed(g0) && HasIds(p)
    ensures Closed(g) && g0.Keys <= g.Keys
    ensures forall u, v :: Edge(g, u, v) <==> Edge(g0, u, v) || Links(p, u, v)
    ensures p.sources.Some? ==> GetStepId(p.id) in g
  {
    g := g0;
    if p.sources.None? { return; }
    var srcs, out := p.sources.value, GetStepId(p.id);
    for j := 0 to |srcs|
      invariant g0.Keys <= g.Keys
      invariant forall u, v :: Edge(g, u, v) <==> Edge(g0, u, v) || (v == out && Consumed(srcs, j, u))
    {
      AddEdgeAdds(g, GetStepId(srcs[j]), out);
      ConsumedStep(srcs, j);
      g := AddEdge(g, GetStepId(srcs[j]), out);
    }
    ghost var linked := g;
    if out !in g { g := g[out := []]; }
    assert forall u, v :: Edge(g, u, v) <==> Edge(linked, u, v);
    assert forall u, v :: Links(p, u, v) <==> v == out && Consumed(srcs, |srcs|, u);
  }

  ghost predicate SomeLink(inputs: seq<Param>, k: nat, u: string, v: string)
    requires k <= |inputs| && forall i :: 0 <= i < |inputs| ==> HasIds(inputs[i])
  {
    exists i :: 0 <= i < k && Links(inputs[i], u, v)
  }

  lemma SomeLinkStep(inputs: seq<Param>, k: nat)
    requires k < |inputs| && forall i :: 0 <= i < |inputs| ==> HasIds(inputs[i])
    ensures forall u, v :: SomeLink(inputs, k + 1, u, v) <==> SomeLink(inputs, k, u, v) || Links(inputs[k], u, v)
  {}

  /** `get_dependency_tree`: exactly the links of the step inputs, on a closed set of vertices. */
  method GetDependencyTree(inputs: seq<Param>) returns (g: Graph)
    requires forall i :: 0 <= i < |inputs| ==> HasIds(inputs[i])
    ensures Closed(g)
    ensures forall u, v :: Edge(g, u, v) <==> SomeLink(inputs, |inputs|, u, v)
    ensures forall i :: 0 <= i < |inputs| && inputs[i].sources.Some? ==> GetStepId(inputs[i].id) in g
  {
    g := map[];
    for i := 0 to |inputs|
      invariant Closed(g)
      invariant forall u, v :: Edge(g, u, v) <==> SomeLink(inputs, i, u, v)
      invariant forall k :: 0 <= k < i && inputs[k].sources.Some? ==> GetStepId(inputs[k].id) in g
    {
      g := AddLinks(g, inputs[i]);
      SomeLinkStep(inputs, i);
    }
  }

  // ---------------------------------------------------------------- cycles and orders

  ghost predicate IsWalk(g: Graph, w: seq<string>) {
    forall i :: 0 <= i < |w| - 1 ==> Edge(g, w[i], w[i + 1])
  }

  ghost predicate IsCycle(g: Graph, c: seq<string>) {
    c != [] && IsWalk(g, c) && Edge(g, c[|c| - 1], c[0])
  }

  /** Every successor of a listed vertex is listed before it. */
  ghost predicate ReverseTopological(g: Graph, order: seq<string>) {
    forall i, v :: 0 <= i < |order| && Edge(g, order[i], v) ==> v in order[..i]
  }

  lemma {:induction false} DistinctFits(s: seq<string>, keys: set<string>)
    requires Distinct(s) && forall i :: 0 <= i < |s| ==> s[i] in keys
    ensures |s| <= |keys|
  {
    if s != [] {
      var last := s[|s| - 1];
      DistinctFits(s[..|s| - 1], keys - {last});
    }
  }

  lemma ListAfterSuccessors(g: Graph, order: seq<string>, tip: string)
    requires ReverseTopological(g, order)
    requires forall v :: Edge(g, tip, v) ==> v in order
    ensures ReverseTopological(g, order + [tip])
  {
    var longer := order + [tip];
    forall i, v | 0 <= i < |longer| && Edge(g, longer[i], v) ensures v in longer[..i] {
      assert i < |order| ==> longer[..i] == order[..i];
      assert longer[..|order|] == order;
    }
  }

  /** A walk of distinct, unprocessed vertices. */
  ghost predicate PathOk(g: Graph, path: seq<string>, processed: seq<string>) {
    && IsWalk(g, path) && Distinct(path)
    && forall i :: 0 <= i < |path| ==> path[i] in g && path[i] !in processed
  }

  /** The processed vertices, in reverse topological order unless a cycle was recorded; every record is a cycle. */
  ghost predicate RecordsOk(g: Graph, processed: seq<string>, cycles: seq<seq<string>>) {
    && Distinct(processed) && (forall v :: v in processed ==> v in g)
    && (forall c :: c in cycles ==> IsCycle(g, c))
    && (cycles == [] ==> ReverseTopological(g, processed))
  }

  lemma PushKeeps(g: Graph, path: seq<string>, processed: seq<string>, v: string)
    requires Closed(g) && path != [] && PathOk(g, path, processed) && Edge(g, path[|path| - 1], v)
    requires v !in path && v !in processed
    ensures PathOk(g, path + [v], processed) && |path| < |g.Keys|
  {
    DistinctFits(path + [v], g.Keys);
  }

  lemma PopKeeps(g: Graph, path: seq<string>, processed: seq<string>, cycles: seq<seq<string>>)
    requires path != [] && PathOk(g, path, processed) && RecordsOk(g, processed, cycles)
    requires cycles == [] ==> forall v :: Edge(g, path[|path| - 1], v) ==> v in processed
    ensures PathOk(g, path[..|path| - 1], processed + [path[|path| - 1]])
    ensures RecordsOk(g, processed + [path[|path| - 1]], cycles)
  {
    if cycles == [] { ListAfterSuccessors(g, processed, path[|path| - 1]); }
  }

  lemma CycleCloses(g: Graph, path: seq<string>, k: nat)
    requires k < |path| && IsWalk(g, path) && Edge(g, path[|path| - 1], path[k])
    ensures IsCycle(g, path[k..])
  {}

  /** The state that `processDFS` updates in place. */
  class CycleFinder {
    const adjacency: Graph
    var path: seq<string>
    var processed: seq<string>
    var cycles: seq<seq<string>>

    ghost predicate Valid()
      reads this
    {
      Closed(adjacency) && PathOk(adjacency, path, processed) && RecordsOk(adjacency, processed, cycles)
    }

    constructor (adjacency: Graph)
      requires Closed(adjacency)
      ensures this.adjacency == adjacency && Valid() && path == [] && processed == [] && cycles == []
    {
      this.adjacency := adjacency;
      path, processed, cycles := [], [], [];
    }

    /** Depth-first search from the tip of the path; the tip is processed and popped. */
    method ProcessDfs()
      requires Valid() && path != []
      modifies this
      ensures Valid()
      ensures path == old(path)[..|old(path)| - 1]
      ensures old(processed) <= processed && old(cycles) <= cycles
      ensures old(path)[|old(path)| - 1] in processed
      decreases |adjacency.Keys| - |path|
    {
      var tip := path[|path| - 1];
      var next := adjacency[tip];
      for i := 0 to |next|
        invariant Valid()
        invariant path == old(path)
        invariant old(processed) <= processed && old(cycles) <= cycles
        invariant cycles == [] ==> forall j :: 0 <= j < i ==> next[j] in processed
      {
        var vertex := next[i];
        assert Edge(adjacency, tip, vertex);
        if vertex in path {
          var k :| 0 <= k < |path| && path[k] == vertex;
          CycleCloses(adjacency, path, k);
          cycles := cycles + [path[k..]];
        } else if vertex !in processed {
          PushKeeps(adjacency, path, processed, vertex);
          path := path + [vertex];
          ProcessDfs();
        }
      }
      PopKeeps(adjacency, path, processed, cycles);
      processed := processed + [tip];
      path := path[..|path| - 1];
    }
  }

  ghost predicate HasCycle(g: Graph) {
    exists c :: IsCycle(g, c)
  }

  /** Position of a vertex in the order, or -1 for a vertex without connections. */
  function Rank(order: seq<string>, v: string): (r: int)
    ensures -1 <= r < |order|
    ensures v in order ==> r >= 0 && order[r] == v
    ensures v !in order ==> r == -1
  {
    if order == [] then -1
    else if order[|order| - 1] == v then |order| - 1
    else
      assert order == order[..|order| - 1] + [order[|order| - 1]];
      Rank(order[..|order| - 1], v)
  }

  /** Dependencies strictly increase the rank. */
  lemma RankIncreases(g: Graph, order: seq<string>, u: string, v: string)
    requires ReverseTopological(g, order) && Distinct(order) && u in order && Edge(g, u, v)
    ensures Rank(order, v) < Rank(order, u)
  {
    var i := Rank(order, u);
    var j :| 0 <= j < i && order[j] == v;
  }

  lemma {:induction false} WalkDescends(g: Graph, order: seq<string>, c: seq<string>, i: nat)
    requires ReverseTopological(g, order) && Distinct(order)
    requires forall v :: v in g ==> v in order
    requires IsWalk(g, c) && i < |c| && c[0] in order
    ensures c[i] in order && Rank(order, c[i]) <= Rank(order, c[0])
  {
    if i > 0 {
      WalkDescends(g, order, c, i - 1);
      assert Edge(g, c[i - 1], c[i]);
      RankIncreases(g, order, c[i - 1], c[i]);
    }
  }

  /** An order that lists successors first rules out every cycle. */
  lemma OrderedIsAcyclic(g: Graph, order: seq<string>)
    requires ReverseTopological(g, order) && Distinct(order)
    requires forall v :: v in g ==> v in order
    ensures !HasCycle(g)
  {
    forall c | IsCycle(g, c) ensures false {
      var last := |c| - 1;
      assert Edge(g, c[last], c[0]);
      assert c[last] in g;
      var k :| 0 <= k < |order| && order[k] == c[last];
      assert c[0] in order[..k];
      WalkDescends(g, order, c, last);
      RankIncreases(g, order, c[last], c[0]);
    }
  }

  /**
   `circular_dependency_checker`: accepts exactly the acyclic graphs, reports only real cycles,
   and on acceptance leaves every vertex in reverse topological order.
   */
  method CheckCircularDependencies(g: Graph)
    returns (accepted: bool, order: seq<string>, cycles: seq<seq<string>>)
    requires Closed(g)
    ensures accepted <==> !HasCycle(g)
    ensures accepted <==> cycles == []
    ensures forall c :: c in cycles ==> IsCycle(g, c)
    ensures Distinct(order) && forall v :: v in order <==> v in g
    ensures accepted ==> ReverseTopological(g, order)
  {
    var finder := new CycleFinder(g);
    var vertices := g.Keys;
    while vertices != {}
      invariant finder.Valid() && finder.path == [] && finder.adjacency == g
      invariant vertices <= g.Keys
      invariant forall v :: v in g && v !in vertices ==> v in finder.processed
      decreases vertices
    {
      var vertex :| vertex in vertices;
      vertices := vertices - {vertex};
      if vertex !in finder.processed {
        finder.path := [vertex];
        finder.ProcessDfs();
      }
    }
    accepted, order, cycles := finder.cycles == [], finder.processed, finder.cycles;
    if accepted {
      OrderedIsAcyclic(g, order);
    } else {
      assert IsCycle(g, cycles[0]);
    }
  }

  /** A ring of steps, each consuming an output of the one before it. */
  ghost predicate DependencyCycle(inputs: seq<Param>, c: seq<string>)
    requires forall i :: 0 <= i < |inputs| ==> HasIds(inputs[i])
  {
    && c != []
    && (forall i :: 0 <= i < |c| - 1 ==> SomeLink(inputs, |inputs|, c[i], c[i + 1]))
    && SomeLink(inputs, |inputs|, c[|c| - 1], c[0])
  }

  /** `order` ranks every step below the steps whose outputs it consumes. */
  ghost predicate Schedulable(inputs: seq<Param>, order: seq<string>)
    requires forall i :: 0 <= i < |inputs| ==> HasIds(inputs[i])
  {
    forall i, u, v :: 0 <= i < |inputs| && Links(inputs[i], u, v) ==> Rank(order, v) < Rank(order, u)
  }

  /** The check on the inputs of all steps: accepted exactly when no steps depend on each other in a ring. */
  method CircularDependencyChecker(inputs: seq<Param>) returns (accepted: bool, order: seq<string>)
    requires forall i :: 0 <= i < |inputs| ==> HasIds(inputs[i])
    ensures accepted <==> !exists c :: DependencyCycle(inputs, c)
    ensures accepted ==> Schedulable(inputs, order)
  {
    var g := GetDependencyTree(inputs);
    var cycles;
    accepted, order, cycles := CheckCircularDependencies(g);
    if accepted {
      forall c | DependencyCycle(inputs, c) ensures IsCycle(g, c) {
        assert forall i :: 0 <= i < |c| - 1 ==> Edge(g, c[i], c[i + 1]);
      }
      forall i, u, v | 0 <= i < |inputs| && Links(inputs[i], u, v) ensures Rank(order, v) < Rank(order, u) {
        assert SomeLink(inputs, |inputs|, u, v);
        RankIncreases(g, order, u, v);
      }
    } else {
      var c := cycles[0];
      assert IsCycle(g, c);
      assert forall i :: 0 <= i < |c| - 1 ==> Edge(g, c[i], c[i + 1]);
      assert DependencyCycle(inputs, c);
    }
  }
}
