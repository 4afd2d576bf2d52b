/**
 Nested scattering as it runs: a tree of collectors, one per scattered element above the last
 key, each reporting to its parent when it fires. Jobs report in any order. The theorem is
 that the root gathers the nested result, and that flattening it gives what the flat scatter
 gathers from the same jobs.
 */
module ScatterTree {
  import opened Values
  import opened Scatter
  import opened Strings
  import opened CrossProduct

  datatype ItemReport = ItemReport(jobout: Object, status: Status)

  /** The scattered step: `eval` is the post-scatter evaluation, which may skip a job. */
  datatype Tool = Tool(outputs: set<string>, eval: Object -> Option<Object>, run: Object -> ItemReport)

  ghost predicate ValidTool(tool: Tool) {
    forall job :: tool.run(job).jobout.Keys <= tool.outputs
  }

  function ReportOf(tool: Tool, job: Object): ItemReport {
    match tool.eval(job)
    case None => ItemReport(map[], Skipped)
    case Some(evaluated) => tool.run(evaluated)
  }

  /** A leaf is one scattered job, done once it has reported. */
  datatype Tree = Leaf(job: Object, done: bool) | Node(c: Collector, children: seq<Tree>)

  predicate Done(t: Tree) {
    match t
    case Leaf(_, done) => done
    case Node(_, children) => forall i | 0 <= i < |children| :: Done(children[i])
  }

  /** The outputs of a tree, by its shape alone. */
  function Out(tool: Tool, t: Tree): Object {
    match t
    case Leaf(job, _) => ReportOf(tool, job).jobout
    case Node(_, children) =>
      map k | k in tool.outputs ::
        Array(seq(|children|, i requires 0 <= i < |children| => Get(Out(tool, children[i]), k)))
  }

  ghost predicate AllSuccess(tool: Tool, t: Tree) {
    match t
    case Leaf(job, _) => ReportOf(tool, job).status == Success
    case Node(_, children) => forall i :: 0 <= i < |children| ==> AllSuccess(tool, children[i])
  }

  ghost predicate SomeFailure(tool: Tool, t: Tree) {
    match t
    case Leaf(job, _) => ReportOf(tool, job).status == PermanentFail
    case Node(_, children) => exists i :: 0 <= i < |children| && SomeFailure(tool, children[i])
  }

  /** A status that tells success and permanent failure of the whole tree apart. */
  ghost predicate Tells(tool: Tool, t: Tree, status: Status) {
    (status == Success <==> AllSuccess(tool, t)) && (status == PermanentFail <==> SomeFailure(tool, t))
  }

  // ---------------------------------------------------------------- one collector and its children

  ghost predicate Counted(children: seq<Tree>, k: nat, i: nat)
    requires k <= |children|
  {
    i < k && Done(children[i])
  }

  /** Every place holds what its child has reported, if it is counted. */
  ghost predicate Filled(tool: Tool, dest: Destinations, children: seq<Tree>, k: nat)
    requires k <= |children|
  {
    && dest.Keys == tool.outputs && Sized(dest, |children|)
    && forall key, i :: key in dest && 0 <= i < |children| ==>
         dest[key][i] == if Counted(children, k, i) then Get(Out(tool, children[i]), key) else Null
  }

  ghost predicate CountsDone(completed: set<nat>, children: seq<Tree>, k: nat)
    requires k <= |children|
  {
    forall i: nat :: i in completed <==> Counted(children, k, i)
  }

  ghost predicate StatusTells(tool: Tool, status: Status, children: seq<Tree>, k: nat)
    requires k <= |children|
  {
    && (status == Success <==>
        forall i :: 0 <= i < |children| && Counted(children, k, i) ==> AllSuccess(tool, children[i]))
    && (status == PermanentFail <==>
        exists i :: 0 <= i < |children| && Counted(children, k, i) && SomeFailure(tool, children[i]))
  }

  /** The collector holds what the done ones among the first `k` children have reported. */
  ghost predicate Gathered(tool: Tool, c: Collector, children: seq<Tree>, k: nat)
    requires k <= |children|
  {
    && Filled(tool, c.dest, children, k)
    && CountsDone(c.completed, children, k) && StatusTells(tool, c.status, children, k)
  }

  ghost predicate AllCounted(children: seq<Tree>) {
    forall i :: 0 <= i < |children| ==> Done(children[i])
  }

  /** A tree in which every collector agrees with its children and fires exactly when they are all done. */
  ghost predicate Valid(tool: Tool, t: Tree) {
    t.Node? ==>
      && Gathered(tool, t.c, t.children, |t.children|)
      && t.c.total == |t.children|
      && (t.c.fired != [] <==> Done(t))
      && (forall f :: f in t.c.fired ==> f == Firing(t.c.dest, t.c.status))
      && forall i :: 0 <= i < |t.children| ==> Valid(tool, t.children[i])
  }

  function AsObject(dest: Destinations): Object {
    map k | k in dest :: Array(dest[k])
  }

  /** What a finished tree tells its parent. */
  function TreeReport(tool: Tool, t: Tree, index: nat): Report {
    match t
    case Leaf(job, _) => Report(index, ReportOf(tool, job).jobout, ReportOf(tool, job).status)
    case Node(c, _) => Report(index, AsObject(c.dest), c.status)
  }

  ghost predicate Truthful(tool: Tool, t: Tree, r: Report) {
    && r.jobout.Keys <= tool.outputs && Tells(tool, t, r.status)
    && forall key :: key in tool.outputs ==> Get(r.jobout, key) == Get(Out(tool, t), key)
  }

  /** A finished tree reports its outputs and a status that tells how it went. */
  lemma ReportIsTruthful(tool: Tool, t: Tree, index: nat)
    requires ValidTool(tool) && Valid(tool, t) && Done(t)
    ensures Truthful(tool, t, TreeReport(tool, t, index))
  {
    if t.Node? {
      var n := |t.children|;
      assert forall i :: 0 <= i < n ==> Counted(t.children, n, i);
      forall key | key in tool.outputs ensures Array(t.c.dest[key]) == Out(tool, t)[key] {
        assert t.c.dest[key] == Out(tool, t)[key].elems;
      }
    }
  }

  /** The children seen as `(ch', k')` are those seen as `(ch, k)`, with child `i` newly counted. */
  ghost predicate Advances(ch: seq<Tree>, k: nat, ch': seq<Tree>, k': nat, i: nat) {
    && |ch'| == |ch| && k <= |ch| && k' <= |ch| && i < |ch|
    && !Counted(ch, k, i) && Counted(ch', k', i)
    && (forall j: nat :: j < |ch| && j != i ==> (Counted(ch, k, j) <==> Counted(ch', k', j)))
    && (forall j: nat :: j < |ch| && j != i && Counted(ch, k, j) ==> ch[j] == ch'[j])
  }

  lemma PutHolds(tool: Tool, dest: Destinations, ch: seq<Tree>, k: nat, ch': seq<Tree>, k': nat,
                 r: Report, key: string, i: nat)
    requires Advances(ch, k, ch', k', r.index) && Truthful(tool, ch'[r.index], r)
    requires i < |ch| && key in dest && key in tool.outputs && Sized(dest, |ch|)
    requires dest[key][i] == if Counted(ch, k, i) then Get(Out(tool, ch[i]), key) else Null
    ensures Put(dest, r)[key][i] == if Counted(ch', k', i) then Get(Out(tool, ch'[i]), key) else Null
  {
    if i == r.index { assert dest[key][i] == Null; }
  }

  lemma ReceiveCounts(completed: set<nat>, ch: seq<Tree>, k: nat, ch': seq<Tree>, k': nat, i: nat)
    requires Advances(ch, k, ch', k', i) && CountsDone(completed, ch, k)
    ensures CountsDone(completed + {i}, ch', k')
  {}

  lemma PutGathers(tool: Tool, dest: Destinations, ch: seq<Tree>, k: nat, ch': seq<Tree>, k': nat, r: Report)
    requires Advances(ch, k, ch', k', r.index) && Truthful(tool, ch'[r.index], r) && Filled(tool, dest, ch, k)
    ensures Filled(tool, Put(dest, r), ch', k')
  {
    var dest' := Put(dest, r);
    forall key, i | key in dest' && 0 <= i < |ch|
      ensures dest'[key][i] == if Counted(ch', k', i) then Get(Out(tool, ch'[i]), key) else Null
    {
      PutHolds(tool, dest, ch, k, ch', k', r, key, i);
    }
  }

  lemma LatchTells(tool: Tool, status: Status, ch: seq<Tree>, k: nat, ch': seq<Tree>, k': nat, r: Report)
    requires Advances(ch, k, ch', k', r.index) && StatusTells(tool, status, ch, k) && Truthful(tool, ch'[r.index], r)
    ensures StatusTells(tool, Latch(status, r.status), ch', k')
  {
    if SomeFailure(tool, ch'[r.index]) { assert Counted(ch', k', r.index); }
    if status == PermanentFail {
      var i :| 0 <= i < |ch| && Counted(ch, k, i) && SomeFailure(tool, ch[i]);
      assert Counted(ch', k', i);
    }
    if status != Success {
      var i :| 0 <= i < |ch| && Counted(ch, k, i) && !AllSuccess(tool, ch[i]);
      assert Counted(ch', k', i);
    }
  }

  lemma ReceiveParts(c: Collector, r: Report)
    requires forall k :: k in c.dest ==> r.index < |c.dest[k]|
    ensures var c' := Receive(c, r);
            && c'.dest == Put(c.dest, r)
            && c'.completed == c.completed + {r.index} && c'.status == Latch(c.status, r.status)
  {}

  lemma ReceiveGathers(tool: Tool, c: Collector, ch: seq<Tree>, k: nat, ch': seq<Tree>, k': nat, r: Report)
    requires Advances(ch, k, ch', k', r.index) && Gathered(tool, c, ch, k) && Truthful(tool, ch'[r.index], r)
    ensures Gathered(tool, Receive(c, r), ch', k')
  {
    ReceiveCounts(c.completed, ch, k, ch', k', r.index);
    PutGathers(tool, c.dest, ch, k, ch', k', r);
    LatchTells(tool, c.status, ch, k, ch', k', r);
    ReceiveParts(c, r);
  }

  /** A collector has counted all items exactly when all children are done. */
  lemma CompletedAll(tool: Tool, c: Collector, ch: seq<Tree>, k: nat)
    requires k <= |ch| && Gathered(tool, c, ch, k)
    ensures |c.completed| <= k
    ensures |c.completed| == |ch| <==> k == |ch| && AllCounted(ch)
  {
    var n := |ch|;
    CountsAll(c.completed, k);
    CountsAll(c.completed, n);
    if c.completed == Below(n) {
      forall i | 0 <= i < n ensures Done(ch[i]) { assert i in c.completed; }
    }
    if k == n && AllCounted(ch) {
      forall i: nat | i < n ensures i in c.completed { assert Counted(ch, k, i); }
      assert c.completed == Below(n);
    }
  }

  // ---------------------------------------------------------------- delivering one report

  /** `path` leads to a job that has not reported yet. */
  predicate AtLeaf(t: Tree, path: seq<nat>) {
    match t
    case Leaf(_, done) => path == [] && !done
    case Node(_, children) => path != [] && path[0] < |children| && AtLeaf(children[path[0]], path[1..])
  }

  /** The job at `path` reports; every collector that fires on the way reports to its parent. */
  function Deliver(tool: Tool, t: Tree, path: seq<nat>): Tree
    requires Valid(tool, t) && AtLeaf(t, path)
    decreases t
  {
    match t
    case Leaf(job, _) => Leaf(job, true)
    case Node(c, children) =>
      var i := path[0];
      var child := Deliver(tool, children[i], path[1..]);
      var fires := child.Leaf? || (children[i].Node? && |child.c.fired| > |children[i].c.fired|);
      Node(if fires then Receive(c, TreeReport(tool, child, i)) else c, children[i := child])
  }

  lemma {:induction false} AtLeafNotDone(t: Tree, path: seq<nat>)
    requires AtLeaf(t, path)
    ensures !Done(t)
    decreases t
  {
    if t.Node? { AtLeafNotDone(t.children[path[0]], path[1..]); }
  }

  ghost predicate FiredIfFull(c: Collector, total: nat) {
    c.total == total && c.fired == if |c.completed| == total then [Firing(c.dest, c.status)] else []
  }

  lemma FirstFiring(c: Collector, r: Report)
    requires (forall k :: k in c.dest ==> r.index < |c.dest[k]|) && r.index !in c.completed && c.fired == []
    ensures FiredIfFull(Receive(c, r), c.total)
  {}

  /** The first report of a child, to a collector that has not fired. */
  lemma FirstReport(tool: Tool, c: Collector, ch: seq<Tree>, k: nat, ch': seq<Tree>, k': nat, i: nat)
    requires ValidTool(tool) && Advances(ch, k, ch', k', i) && Gathered(tool, c, ch, k) && c.fired == []
    requires Valid(tool, ch'[i]) && Done(ch'[i])
    ensures var c' := Receive(c, TreeReport(tool, ch'[i], i));
            && Gathered(tool, c', ch', k') && FiredIfFull(c', c.total)
  {
    var r := TreeReport(tool, ch'[i], i);
    assert i !in c.completed;
    FirstFiring(c, r);
    ReportIsTruthful(tool, ch'[i], i);
    ReceiveGathers(tool, c, ch, k, ch', k', r);
  }

  /** A collector that fired when it was full makes a valid node. */
  lemma FullNode(tool: Tool, c: Collector, ch: seq<Tree>)
    requires Gathered(tool, c, ch, |ch|) && FiredIfFull(c, |ch|)
    requires forall i :: 0 <= i < |ch| ==> Valid(tool, ch[i])
    ensures Valid(tool, Node(c, ch))
  {
    CompletedAll(tool, c, ch, |ch|);
  }

  /** A child that has just finished is received; the collector fires if it was the last one. */
  lemma ReceivesChild(tool: Tool, t: Tree, i: nat, child: Tree)
    requires ValidTool(tool) && Valid(tool, t) && t.Node? && i < |t.children| && !Done(t.children[i])
    requires Valid(tool, child) && Done(child)
    ensures Valid(tool, Node(Receive(t.c, TreeReport(tool, child, i)), t.children[i := child]))
  {
    var ch', n := t.children[i := child], |t.children|;
    assert Advances(t.children, n, ch', n, i);
    FirstReport(tool, t.c, t.children, n, ch', n, i);
    FullNode(tool, Receive(t.c, TreeReport(tool, child, i)), ch');
  }

  lemma StillGathered(tool: Tool, c: Collector, ch: seq<Tree>, ch': seq<Tree>, i: nat)
    requires i < |ch| && |ch'| == |ch| && !Done(ch[i]) && !Done(ch'[i])
    requires forall j :: 0 <= j < |ch| && j != i ==> ch'[j] == ch[j]
    requires Gathered(tool, c, ch, |ch|)
    ensures Gathered(tool, c, ch', |ch|)
  {
    var n := |ch|;
    assert forall j: nat :: j < n ==> (Counted(ch', n, j) <==> Counted(ch, n, j));
    assert forall j: nat :: j < n && Counted(ch, n, j) ==> ch'[j] == ch[j];
  }

  lemma ChildPending(tool: Tool, t: Tree, i: nat, child: Tree)
    requires Valid(tool, t) && t.Node? && i < |t.children| && !Done(t.children[i])
    requires Valid(tool, child) && !Done(child)
    ensures Valid(tool, Node(t.c, t.children[i := child]))
  {
    StillGathered(tool, t.c, t.children, t.children[i := child], i);
    assert !Done(Node(t.c, t.children[i := child])) by { assert !Done(t.children[i := child][i]); }
  }

  /** A report keeps the tree valid. */
  lemma {:induction false} DeliverValid(tool: Tool, t: Tree, path: seq<nat>)
    requires ValidTool(tool) && Valid(tool, t) && AtLeaf(t, path)
    ensures Valid(tool, Deliver(tool, t, path))
    decreases t
  {
    if t.Node? {
      var i := path[0];
      AtLeafNotDone(t.children[i], path[1..]);
      DeliverValid(tool, t.children[i], path[1..]);
      var child := Deliver(tool, t.children[i], path[1..]);
      if Done(child) {
        ReceivesChild(tool, t, i, child);
      } else {
        ChildPending(tool, t, i, child);
      }
    }
  }

  // ---------------------------------------------------------------- construction

  function ReceiveTimes(c: Collector, r: Report, m: nat): (c': Collector)
    requires forall k :: k in c.dest ==> r.index < |c.dest[k]|
    ensures c'.dest.Keys == c.dest.Keys && forall k :: k in c.dest ==> |c'.dest[k]| == |c.dest[k]|
    ensures m > 0 ==> c' == Receive(c, r)
  {
    if m == 0 then c
    else if m == 1 then Receive(c, r)
    else
      RepeatedReport(c, r);
      Receive(ReceiveTimes(c, r, m - 1), r)
  }

  /** How often a freshly built child has called back: a skipped job once, a collector as often as it fired. */
  function EarlyCalls(t: Tree): nat {
    match t
    case Leaf(_, done) => if done then 1 else 0
    case Node(c, _) => |c.fired|
  }

  /** The parent's collector after its first `k` children were built. */
  function Early(tool: Tool, children: seq<Tree>, k: nat): (c: Collector)
    requires k <= |children|
    ensures c.dest.Keys == tool.outputs && Sized(c.dest, |children|)
  {
    if k == 0 then NewCollector(tool.outputs, |children|, |children|)
    else
      var child := children[k - 1];
      ReceiveTimes(Early(tool, children, k - 1), TreeReport(tool, child, k - 1), EarlyCalls(child))
  }

  /** `nested_crossproduct_scatter`: the tree as it stands when all scatter generators are built. */
  function Build(tool: Tool, job: Object, keys: seq<string>): Tree
    requires Scatterable(job, keys) && Distinct(keys)
    decreases |keys|
  {
    if keys == [] then Leaf(job, tool.eval(job).None?)
    else
      var children := seq(Len(job, keys[0]), i requires 0 <= i < Len(job, keys[0]) =>
                        ProductNarrow(job, keys, i); Build(tool, Narrow(job, keys[0], i), keys[1..]));
      Node(SetTotal(Early(tool, children, |children|), |children|), children)
  }

  /** The invariant of the construction loop. */
  ghost predicate BuiltUpTo(tool: Tool, children: seq<Tree>, k: nat, c: Collector)
    requires k <= |children|
  {
    && Gathered(tool, c, children, k) && c.total == |children|
    && |c.fired| == (if k == |children| > 0 && AllCounted(children) then 1 else 0)
    && (forall f :: f in c.fired ==> f == Firing(c.dest, c.status))
  }

  lemma OneMoreCounted(children: seq<Tree>, k: nat)
    requires k < |children| && Done(children[k])
    ensures Advances(children, k, children, k + 1, k)
  {}

  lemma FullBuild(tool: Tool, children: seq<Tree>, k: nat, c: Collector)
    requires 0 < k <= |children| && Gathered(tool, c, children, k) && FiredIfFull(c, |children|)
    ensures BuiltUpTo(tool, children, k, c)
  {
    CompletedAll(tool, c, children, k);
  }

  lemma BuildsDone(tool: Tool, children: seq<Tree>, k: nat, c: Collector)
    requires ValidTool(tool) && k < |children| && BuiltUpTo(tool, children, k, c)
    requires Valid(tool, children[k]) && Done(children[k])
    ensures BuiltUpTo(tool, children, k + 1, Receive(c, TreeReport(tool, children[k], k)))
  {
    OneMoreCounted(children, k);
    FirstReport(tool, c, children, k, children, k + 1, k);
    FullBuild(tool, children, k + 1, Receive(c, TreeReport(tool, children[k], k)));
  }

  lemma SameCountsTell(tool: Tool, status: Status, children: seq<Tree>, k: nat)
    requires k < |children| && StatusTells(tool, status, children, k) && !Done(children[k])
    ensures StatusTells(tool, status, children, k + 1)
  {
    assert forall j: nat :: Counted(children, k + 1, j) <==> Counted(children, k, j);
  }

  lemma BuildsPending(tool: Tool, children: seq<Tree>, k: nat, c: Collector)
    requires k < |children| && BuiltUpTo(tool, children, k, c) && !Done(children[k])
    ensures BuiltUpTo(tool, children, k + 1, c)
  {
    assert forall j: nat :: Counted(children, k + 1, j) <==> Counted(children, k, j);
    forall key, i | key in c.dest && 0 <= i < |children|
      ensures c.dest[key][i] == if Counted(children, k + 1, i) then Get(Out(tool, children[i]), key) else Null
    {
      assert Counted(children, k + 1, i) <==> Counted(children, k, i);
    }
    assert CountsDone(c.completed, children, k + 1);
    SameCountsTell(tool, c.status, children, k);
    assert !AllCounted(children);
  }

  lemma EarlyStep(tool: Tool, children: seq<Tree>, k: nat, c: Collector)
    requires ValidTool(tool) && k < |children| && Valid(tool, children[k]) && BuiltUpTo(tool, children, k, c)
    ensures BuiltUpTo(tool, children, k + 1, ReceiveTimes(c, TreeReport(tool, children[k], k), EarlyCalls(children[k])))
  {
    if Done(children[k]) {
      BuildsDone(tool, children, k, c);
      assert EarlyCalls(children[k]) > 0;
    } else {
      BuildsPending(tool, children, k, c);
      assert EarlyCalls(children[k]) == 0;
    }
  }

  lemma EarlyNext(tool: Tool, children: seq<Tree>, k: nat)
    requires k < |children|
    ensures Early(tool, children, k + 1) ==
            ReceiveTimes(Early(tool, children, k), TreeReport(tool, children[k], k), EarlyCalls(children[k]))
  {}

  lemma EarlyGathers(tool: Tool, children: seq<Tree>, k: nat)
    requires ValidTool(tool) && k <= |children|
    requires forall i :: 0 <= i < |children| ==> Valid(tool, children[i])
    ensures BuiltUpTo(tool, children, k, Early(tool, children, k))
  {
    var c := Early(tool, children, 0);
    for m := 0 to k
      invariant BuiltUpTo(tool, children, m, c) && c == Early(tool, children, m)
    {
      EarlyStep(tool, children, m, c);
      EarlyNext(tool, children, m);
      c := ReceiveTimes(c, TreeReport(tool, children[m], m), EarlyCalls(children[m]));
    }
  }

  lemma NodeValid(tool: Tool, children: seq<Tree>)
    requires ValidTool(tool) && forall i :: 0 <= i < |children| ==> Valid(tool, children[i])
    ensures Valid(tool, Node(SetTotal(Early(tool, children, |children|), |children|), children))
  {
    var c, n := Early(tool, children, |children|), |children|;
    EarlyGathers(tool, children, n);
    CompletedAll(tool, c, children, n);
    assert Gathered(tool, SetTotal(c, n), children, n);
  }

  /** A collector whose children were all done when it was built has fired twice, unless it has no children. */
  lemma NodeFires(tool: Tool, children: seq<Tree>)
    requires ValidTool(tool) && forall i :: 0 <= i < |children| ==> Valid(tool, children[i])
    ensures var c := SetTotal(Early(tool, children, |children|), |children|);
            |c.fired| == if !AllCounted(children) then 0 else if children != [] then 2 else 1
  {
    var c, n := Early(tool, children, |children|), |children|;
    EarlyGathers(tool, children, n);
    CompletedAll(tool, c, children, n);
  }

  /** The tree follows the scattered job order. */
  ghost predicate Shaped(t: Tree, job: Object, keys: seq<string>)
    requires Scatterable(job, keys) && Distinct(keys)
    decreases |keys|
  {
    if keys == [] then t.Leaf? && t.job == job
    else
      && t.Node? && |t.children| == Len(job, keys[0])
      && forall i :: 0 <= i < |t.children| ==>
           (ProductNarrow(job, keys, i); Shaped(t.children[i], Narrow(job, keys[0], i), keys[1..]))
  }

  lemma {:induction false} BuildValid(tool: Tool, job: Object, keys: seq<string>)
    requires ValidTool(tool) && Scatterable(job, keys) && Distinct(keys)
    ensures Valid(tool, Build(tool, job, keys)) && Shaped(Build(tool, job, keys), job, keys)
    decreases |keys|
  {
    if keys != [] {
      var t := Build(tool, job, keys);
      forall i | 0 <= i < |t.children|
        ensures Valid(tool, t.children[i])
        ensures (ProductNarrow(job, keys, i); Shaped(t.children[i], Narrow(job, keys[0], i), keys[1..]))
      {
        ProductNarrow(job, keys, i);
        BuildValid(tool, Narrow(job, keys[0], i), keys[1..]);
      }
      NodeValid(tool, t.children);
    }
  }

  lemma {:induction false} DeliverShaped(tool: Tool, t: Tree, path: seq<nat>, job: Object, keys: seq<string>)
    requires Valid(tool, t) && AtLeaf(t, path) && Scatterable(job, keys) && Distinct(keys) && Shaped(t, job, keys)
    ensures Shaped(Deliver(tool, t, path), job, keys)
    decreases |keys|
  {
    if keys != [] {
      var i := path[0];
      ProductNarrow(job, keys, i);
      DeliverShaped(tool, t.children[i], path[1..], Narrow(job, keys[0], i), keys[1..]);
    }
  }

  // ---------------------------------------------------------------- the gathered tree

  /** The value of output `key` for one scattered job; null if it is skipped or missing. */
  function OutputOf(tool: Tool, key: string): Object -> Value {
    (job: Object) => Get(ReportOf(tool, job).jobout, key)
  }

  lemma {:induction false} OutIsNested(tool: Tool, t: Tree, job: Object, keys: seq<string>, key: string)
    requires Scatterable(job, keys) && Distinct(keys) && Shaped(t, job, keys) && key in tool.outputs
    ensures Get(Out(tool, t), key) == NestedResult(job, keys, OutputOf(tool, key))
    decreases |keys|
  {
    if keys != [] {
      forall i | 0 <= i < |t.children|
        ensures (ProductNarrow(job, keys, i);
                 Get(Out(tool, t.children[i]), key) ==
                 NestedResult(Narrow(job, keys[0], i), keys[1..], OutputOf(tool, key)))
      {
        ProductNarrow(job, keys, i);
        OutIsNested(tool, t.children[i], Narrow(job, keys[0], i), keys[1..], key);
      }
    }
  }

  /** Jobs report one after the other, in the order of `paths`. */
  ghost predicate Arrivals(tool: Tool, t: Tree, paths: seq<seq<nat>>)
    requires ValidTool(tool) && Valid(tool, t)
    decreases |paths|
  {
    paths != [] ==>
      && AtLeaf(t, paths[0])
      && (DeliverValid(tool, t, paths[0]); Arrivals(tool, Deliver(tool, t, paths[0]), paths[1..]))
  }

  function After(tool: Tool, t: Tree, paths: seq<seq<nat>>): (t': Tree)
    requires ValidTool(tool) && Valid(tool, t) && Arrivals(tool, t, paths)
    ensures Valid(tool, t')
    decreases |paths|
  {
    if paths == [] then t
    else
      DeliverValid(tool, t, paths[0]);
      After(tool, Deliver(tool, t, paths[0]), paths[1..])
  }

  lemma {:induction false} AfterShaped(tool: Tool, t: Tree, paths: seq<seq<nat>>, job: Object, keys: seq<string>)
    requires ValidTool(tool) && Valid(tool, t) && Arrivals(tool, t, paths)
    requires Scatterable(job, keys) && Distinct(keys) && Shaped(t, job, keys)
    ensures Shaped(After(tool, t, paths), job, keys)
    decreases |paths|
  {
    if paths != [] {
      DeliverValid(tool, t, paths[0]);
      DeliverShaped(tool, t, paths[0], job, keys);
      AfterShaped(tool, Deliver(tool, t, paths[0]), paths[1..], job, keys);
    }
  }

  lemma DeliverFires(tool: Tool, t: Tree, path: seq<nat>)
    requires ValidTool(tool) && Valid(tool, t) && AtLeaf(t, path) && t.Node?
    ensures var t' := Deliver(tool, t, path); t'.Node? && |t'.c.fired| == if Done(t') then 1 else 0
  {
    AtLeafNotDone(t, path);
    DeliverValid(tool, t, path);
  }

  /** A collector that was not done when it was built fires once, with the last report. */
  lemma {:induction false} AfterFires(tool: Tool, t: Tree, paths: seq<seq<nat>>)
    requires ValidTool(tool) && Valid(tool, t) && Arrivals(tool, t, paths) && t.Node? && paths != []
    ensures var t' := After(tool, t, paths); t'.Node? && |t'.c.fired| == if Done(t') then 1 else 0
    decreases |paths|
  {
    DeliverFires(tool, t, paths[0]);
    if |paths| > 1 {
      DeliverValid(tool, t, paths[0]);
      AfterFires(tool, Deliver(tool, t, paths[0]), paths[1..]);
    }
  }

  /** As long as the tree is not done, some job can still report. */
  lemma {:induction false} SomeLeaf(t: Tree) returns (path: seq<nat>)
    requires !Done(t)
    ensures AtLeaf(t, path)
  {
    match t
    case Leaf(_, _) => path := [];
    case Node(_, children) =>
      var i :| 0 <= i < |children| && !Done(children[i]);
      var rest := SomeLeaf(children[i]);
      path := [i] + rest;
      assert path[1..] == rest;
  }

  /**
   How often the nested scatter calls back once all jobs have reported, in whatever order:
   twice if all jobs of a non-empty scatter were skipped while it was built, else once.
   */
  lemma NestedFiringCount(tool: Tool, job: Object, keys: seq<string>, paths: seq<seq<nat>>)
    requires ValidTool(tool) && keys != [] && Scatterable(job, keys) && Distinct(keys)
    requires (BuildValid(tool, job, keys); Arrivals(tool, Build(tool, job, keys), paths))
    requires (BuildValid(tool, job, keys); Done(After(tool, Build(tool, job, keys), paths)))
    ensures (BuildValid(tool, job, keys);
            var root := After(tool, Build(tool, job, keys), paths);
            root.Node? && |root.c.fired| == if Done(Build(tool, job, keys)) && Len(job, keys[0]) > 0 then 2 else 1)
  {
    BuildValid(tool, job, keys);
    var t := Build(tool, job, keys);
    if paths == [] {
      NodeFires(tool, t.children);
    } else {
      AtLeafNotDone(t, paths[0]);
      AfterFires(tool, t, paths);
    }
  }

  /**
   The nested scatter: whatever the order in which the jobs report, once all have reported the
   root has fired, every callback carried the same contents, each output holds the nested
   result, and the status tells success and permanent failure.
   */
  lemma NestedScatterGathers(tool: Tool, job: Object, keys: seq<string>, paths: seq<seq<nat>>, key: string)
    requires ValidTool(tool) && keys != [] && Scatterable(job, keys) && Distinct(keys) && key in tool.outputs
    requires (BuildValid(tool, job, keys); Arrivals(tool, Build(tool, job, keys), paths))
    requires (BuildValid(tool, job, keys); Done(After(tool, Build(tool, job, keys), paths)))
    ensures (BuildValid(tool, job, keys);
            var root := After(tool, Build(tool, job, keys), paths);
            && root.Node? && root.c.fired != []
            && (forall f :: f in root.c.fired ==> f == Firing(root.c.dest, root.c.status))
            && key in root.c.dest && Array(root.c.dest[key]) == NestedResult(job, keys, OutputOf(tool, key))
            && Tells(tool, root, root.c.status))
  {
    BuildValid(tool, job, keys);
    var t := Build(tool, job, keys);
    AfterShaped(tool, t, paths, job, keys);
    var root := After(tool, t, paths);
    ReportIsTruthful(tool, root, 0);
    OutIsNested(tool, root, job, keys, key);
  }

  // ---------------------------------------------------------------- the status, in terms of the jobs

  /** The job is run, and succeeds. */
  function Succeeds(tool: Tool): Object -> bool {
    (job: Object) => tool.eval(job).Some? && tool.run(tool.eval(job).value).status == Success
  }

  /** The job is skipped, or what it reports is no permanent failure. */
  function Spares(tool: Tool): Object -> bool {
    (job: Object) => tool.eval(job).Some? ==> tool.run(tool.eval(job).value).status != PermanentFail
  }

  /** A skipped job leaves nulls; any other job what it reports, with nulls for what it does not. */
  lemma JobOutputs(tool: Tool, job: Object, key: string)
    ensures tool.eval(job).None? ==> OutputOf(tool, key)(job) == Null
    ensures tool.eval(job).Some? ==>
              var jobout := tool.run(tool.eval(job).value).jobout;
              OutputOf(tool, key)(job) == if key in jobout then jobout[key] else Null
  {}

  /** The jobs below element `i` are the block `i` of all jobs. */
  lemma ElementJob(job: Object, keys: seq<string>, i: nat, r: nat)
    requires keys != [] && Scatterable(job, keys) && Distinct(keys) && i < Len(job, keys[0])
    requires r < Product(job, keys[1..])
    ensures var j := i * Product(job, keys[1..]) + r;
            j < Product(job, keys)
            && (ProductNarrow(job, keys, i); JobAt(job, keys, j) == JobAt(Narrow(job, keys[0], i), keys[1..], r))
  {
    var q := Product(job, keys[1..]);
    ProductNarrow(job, keys, i);
    LaterBlock(q, i, r, Len(job, keys[0]), 0);
    BlockPosition(q, i, r);
  }

  /** What holds of every job of the cross product. */
  ghost predicate AllJobs(job: Object, keys: seq<string>, p: Object -> bool)
    requires Scatterable(job, keys) && Distinct(keys)
  {
    forall j: nat :: j < Product(job, keys) ==> p(JobAt(job, keys, j))
  }

  /** What holds of every job below element `i`. */
  ghost predicate AllBelow(job: Object, keys: seq<string>, i: nat, p: Object -> bool)
    requires keys != [] && Scatterable(job, keys) && Distinct(keys) && i < Len(job, keys[0])
  {
    ProductNarrow(job, keys, i);
    AllJobs(Narrow(job, keys[0], i), keys[1..], p)
  }

  lemma AllDown(job: Object, keys: seq<string>, i: nat, p: Object -> bool)
    requires keys != [] && Scatterable(job, keys) && Distinct(keys) && i < Len(job, keys[0])
    requires AllJobs(job, keys, p)
    ensures AllBelow(job, keys, i, p)
  {
    ProductNarrow(job, keys, i);
    forall r: nat | r < Product(job, keys[1..]) ensures p(JobAt(Narrow(job, keys[0], i), keys[1..], r)) {
      ElementJob(job, keys, i, r);
    }
  }

  lemma OneUp(job: Object, keys: seq<string>, j: nat, p: Object -> bool)
    requires keys != [] && Scatterable(job, keys) && Distinct(keys) && j < Product(job, keys)
    requires forall i: nat :: i < Len(job, keys[0]) ==> AllBelow(job, keys, i, p)
    ensures p(JobAt(job, keys, j))
  {
    var q := Product(job, keys[1..]);
    PositionBound(Len(job, keys[0]), q, j);
    ProductNarrow(job, keys, j / q);
    assert AllBelow(job, keys, j / q, p);
  }

  lemma AllUp(job: Object, keys: seq<string>, p: Object -> bool)
    requires keys != [] && Scatterable(job, keys) && Distinct(keys)
    requires forall i: nat :: i < Len(job, keys[0]) ==> AllBelow(job, keys, i, p)
    ensures AllJobs(job, keys, p)
  {
    forall j: nat | j < Product(job, keys) ensures p(JobAt(job, keys, j)) { OneUp(job, keys, j, p); }
  }

  lemma {:induction false} AllSuccessIff(tool: Tool, t: Tree, job: Object, keys: seq<string>)
    requires Scatterable(job, keys) && Distinct(keys) && Shaped(t, job, keys)
    ensures AllSuccess(tool, t) <==> AllJobs(job, keys, Succeeds(tool))
    decreases |keys|
  {
    if keys == [] {
      assert JobAt(job, keys, 0) == job;
    } else {
      forall i: nat | i < |t.children|
        ensures AllSuccess(tool, t.children[i]) <==> AllBelow(job, keys, i, Succeeds(tool))
      {
        ProductNarrow(job, keys, i);
        AllSuccessIff(tool, t.children[i], Narrow(job, keys[0], i), keys[1..]);
      }
      if AllSuccess(tool, t) { AllUp(job, keys, Succeeds(tool)); }
      if AllJobs(job, keys, Succeeds(tool)) {
        forall i: nat | i < |t.children| ensures AllSuccess(tool, t.children[i]) {
          AllDown(job, keys, i, Succeeds(tool));
        }
      }
    }
  }

  lemma {:induction false} NoFailureIff(tool: Tool, t: Tree, job: Object, keys: seq<string>)
    requires Scatterable(job, keys) && Distinct(keys) && Shaped(t, job, keys)
    ensures !SomeFailure(tool, t) <==> AllJobs(job, keys, Spares(tool))
    decreases |keys|
  {
    if keys == [] {
      assert JobAt(job, keys, 0) == job;
    } else {
      forall i: nat | i < |t.children|
        ensures !SomeFailure(tool, t.children[i]) <==> AllBelow(job, keys, i, Spares(tool))
      {
        ProductNarrow(job, keys, i);
        NoFailureIff(tool, t.children[i], Narrow(job, keys[0], i), keys[1..]);
      }
      if !SomeFailure(tool, t) { AllUp(job, keys, Spares(tool)); }
      if AllJobs(job, keys, Spares(tool)) {
        forall i: nat | i < |t.children| ensures !SomeFailure(tool, t.children[i]) {
          AllDown(job, keys, i, Spares(tool));
        }
      }
    }
  }

  /**
   The status of the nested scatter, in terms of its jobs alone: success exactly when no job is
   skipped and every one succeeds, permanent failure exactly when some job fails permanently.
   */
  lemma NestedStatusExact(tool: Tool, job: Object, keys: seq<string>, paths: seq<seq<nat>>)
    requires ValidTool(tool) && keys != [] && Scatterable(job, keys) && Distinct(keys)
    requires (BuildValid(tool, job, keys); Arrivals(tool, Build(tool, job, keys), paths))
    requires (BuildValid(tool, job, keys); Done(After(tool, Build(tool, job, keys), paths)))
    ensures (BuildValid(tool, job, keys);
            var root := After(tool, Build(tool, job, keys), paths);
            && root.Node?
            && (root.c.status == Success <==> AllJobs(job, keys, Succeeds(tool)))
            && (root.c.status != PermanentFail <==> AllJobs(job, keys, Spares(tool))))
  {
    BuildValid(tool, job, keys);
    var t := Build(tool, job, keys);
    AfterShaped(tool, t, paths, job, keys);
    var root := After(tool, t, paths);
    ReportIsTruthful(tool, root, 0);
    AllSuccessIff(tool, root, job, keys);
    NoFailureIff(tool, root, job, keys);
  }

  /** The reports come from the jobs of the flat cross product, one from each. */
  ghost predicate FlatReports(tool: Tool, job: Object, keys: seq<string>, rs: seq<Report>)
    requires Scatterable(job, keys) && Distinct(keys)
  {
    var n := Product(job, keys);
    && OncePerItem(rs) && Indices(rs) == Below(n)
    && forall i :: 0 <= i < |rs| ==>
         rs[i].index < n && rs[i].jobout == ReportOf(tool, JobAt(job, keys, rs[i].index)).jobout
  }

  lemma FlatDestination(tool: Tool, job: Object, keys: seq<string>, rs: seq<Report>, dest: Destinations, key: string)
    requires Scatterable(job, keys) && Distinct(keys) && FlatReports(tool, job, keys, rs)
    requires key in dest && Sized(dest, Product(job, keys)) && Placed(dest, Product(job, keys), rs)
    ensures dest[key] == FlatValues(job, keys, OutputOf(tool, key))
  {
    forall j: nat | j < Product(job, keys) ensures dest[key][j] == OutputOf(tool, key)(JobAt(job, keys, j)) {
      assert j in Indices(rs);
      var i :| 0 <= i < |rs| && rs[i].index == j;
    }
  }

  lemma FlatIsFlattened(tool: Tool, job: Object, keys: seq<string>, rs: seq<Report>, dest: Destinations, key: string)
    requires keys != [] && Scatterable(job, keys) && Distinct(keys) && FlatReports(tool, job, keys, rs)
    requires key in dest && Sized(dest, Product(job, keys)) && Placed(dest, Product(job, keys), rs)
    ensures Array(dest[key]) == FlattenLevels(NestedResult(job, keys, OutputOf(tool, key)), |keys| - 1)
  {
    FlatDestination(tool, job, keys, rs, dest, key);
    NestedFlattensToFlat(job, keys, OutputOf(tool, key));
  }

  /**
   Cross products agree: what the flat scatter gathers from its jobs, in any order of their
   reports, is what flattening the nested scatter's result by one level less than the number of
   keys gives.
   */
  lemma CrossProductsAgree(tool: Tool, job: Object, keys: seq<string>, key: string,
                           early: seq<Report>, late: seq<Report>)
    requires ValidTool(tool) && keys != [] && Scatterable(job, keys) && Distinct(keys) && key in tool.outputs
    requires AllFitting(tool.outputs, Product(job, keys), early) && AllFitting(tool.outputs, Product(job, keys), late)
    requires FlatReports(tool, job, keys, early + late)
    ensures var flat := Life(tool.outputs, Product(job, keys), 0, early, late);
            && |flat.fired| == 1 && key in flat.dest
            && Array(flat.dest[key]) == FlattenLevels(NestedResult(job, keys, OutputOf(tool, key)), |keys| - 1)
  {
    var n := Product(job, keys);
    FiringCount(tool.outputs, n, 0, early, late);
    GatheredOutputs(tool.outputs, n, 0, early, late);
    FlatIsFlattened(tool, job, keys, early + late, Life(tool.outputs, n, 0, early, late).dest, key);
  }
}
