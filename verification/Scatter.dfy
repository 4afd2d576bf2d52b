/**
 Gathering scattered results (`ReceiveScatterOutput`): one collector receives the reports of
 the scattered items in whatever order they arrive, and fires its callback when all have reported.

 Items whose `when` is false report during construction, before `setTotal` is called.
 */
module Scatter {
  import opened Values

  type Destinations = map<string, seq<Value>>

  /** One call of the collector's callback. */
  datatype Firing = Firing(dest: Destinations, status: Status)

  datatype Collector = Collector(
    dest: Destinations,
    completed: set<nat>,
    status: Status,
    total: nat,
    fired: seq<Firing>)

  /** One item's report. */
  datatype Report = Report(index: nat, jobout: Object, status: Status)

  function NewCollector(outputs: set<string>, n: nat, total: nat): Collector {
    Collector(map k | k in outputs :: seq(n, _ => Null), {}, Success, total, [])
  }

  ghost predicate Sized(dest: Destinations, n: nat) {
    forall k :: k in dest ==> |dest[k]| == n
  }

  /** The report names only declared outputs and an existing item. */
  ghost predicate Fitting(outputs: set<string>, n: nat, r: Report) {
    r.index < n && r.jobout.Keys <= outputs
  }

  ghost predicate AllFitting(outputs: set<string>, n: nat, rs: seq<Report>) {
    forall i :: 0 <= i < |rs| ==> Fitting(outputs, n, rs[i])
  }

  function Put(dest: Destinations, r: Report): Destinations
    requires forall k :: k in dest ==> r.index < |dest[k]|
  {
    map k | k in dest :: if k in r.jobout then dest[k][r.index := r.jobout[k]] else dest[k]
  }

  function Latch(latched: Status, reported: Status): Status {
    if reported != Success && latched != PermanentFail then reported else latched
  }

  function Fire(c: Collector): Collector {
    c.(fired := c.fired + [Firing(c.dest, c.status)])
  }

  /** `receive_scatter_output`. */
  function Receive(c: Collector, r: Report): Collector
    requires forall k :: k in c.dest ==> r.index < |c.dest[k]|
  {
    var c' := c.(dest := Put(c.dest, r), status := Latch(c.status, r.status));
    if r.index in c.completed then c'
    else
      var c'' := c'.(completed := c.completed + {r.index});
      if |c''.completed| == c.total then Fire(c'') else c''
  }

  /** `setTotal`. */
  function SetTotal(c: Collector, total: nat): Collector {
    var c' := c.(total := total);
    if |c.completed| == total then Fire(c') else c'
  }

  lemma ReceiveKeeps(c: Collector, n: nat, r: Report)
    requires Sized(c.dest, n) && r.index < n
    ensures var c' := Receive(c, r); Sized(c'.dest, n) && c'.dest.Keys == c.dest.Keys && c'.total == c.total
  {}

  /** The collector after a sequence of reports. */
  function Play(c: Collector, n: nat, rs: seq<Report>): (c': Collector)
    requires Sized(c.dest, n) && AllFitting(c.dest.Keys, n, rs)
    ensures Sized(c'.dest, n) && c'.dest.Keys == c.dest.Keys && c'.total == c.total
  {
    if rs == [] then c
    else
      var before, r := Play(c, n, rs[..|rs| - 1]), rs[|rs| - 1];
      assert Fitting(c.dest.Keys, n, r);
      ReceiveKeeps(before, n, r);
      Receive(before, r)
  }

  // ---------------------------------------------------------------- the class of the code

  class ReceiveScatterOutput {
    var dest: Destinations
    var completed: set<nat>
    var processStatus: Status
    var total: nat
    var fired: seq<Firing>

    ghost function View(): Collector
      reads this
    {
      Collector(dest, completed, processStatus, total, fired)
    }

    constructor (dest: Destinations, total: nat)
      ensures View() == Collector(dest, {}, Success, total, [])
    {
      this.dest, completed, processStatus, this.total, fired := dest, {}, Success, total, [];
    }

    method ReceiveOutput(r: Report)
      requires forall k :: k in dest ==> r.index < |dest[k]|
      requires r.jobout.Keys <= dest.Keys
      modifies this
      ensures View() == Receive(old(View()), r)
    {
      var keys := r.jobout.Keys;
      while keys != {}
        invariant keys <= r.jobout.Keys <= dest.Keys && dest.Keys == old(dest).Keys
        invariant forall k :: k in dest ==>
                    dest[k] == if k in r.jobout && k !in keys then old(dest)[k][r.index := r.jobout[k]]
                               else old(dest)[k]
        invariant unchanged(`completed, `processStatus, `total, `fired)
        decreases keys
      {
        var k :| k in keys;
        dest := dest[k := dest[k][r.index := r.jobout[k]]];
        keys := keys - {k};
      }
      assert dest == Put(old(dest), r);
      if r.status != Success {
        if processStatus != PermanentFail { processStatus := r.status; }
      }
      if r.index !in completed {
        completed := completed + {r.index};
        if |completed| == total { fired := fired + [Firing(dest, processStatus)]; }
      }
    }

    method SetTotalItems(n: nat)
      modifies this
      ensures View() == SetTotal(old(View()), n)
    {
      total := n;
      if |completed| == total { fired := fired + [Firing(dest, processStatus)]; }
    }
  }

  // ---------------------------------------------------------------- counting the callbacks

  function Indices(rs: seq<Report>): set<nat> {
    set r | r in rs :: r.index
  }

  lemma IndicesStep(rs: seq<Report>)
    requires rs != []
    ensures Indices(rs) == Indices(rs[..|rs| - 1]) + {rs[|rs| - 1].index}
  {
    assert rs == rs[..|rs| - 1] + [rs[|rs| - 1]];
  }

  /**
   Over any sequence of reports, repeated ones included, the callback fires once if the number
   of distinct items reaches the expected total on the way, and not at all otherwise.
   */
  lemma {:induction false} PlayFires(c: Collector, n: nat, rs: seq<Report>)
    requires Sized(c.dest, n) && AllFitting(c.dest.Keys, n, rs)
    ensures var c' := Play(c, n, rs);
            && c'.completed == c.completed + Indices(rs)
            && |c.completed| <= |c'.completed| && c.fired <= c'.fired
            && |c'.fired| == |c.fired| + if |c.completed| < c.total <= |c'.completed| then 1 else 0
  {
    if rs == [] {
      assert Indices(rs) == {};
    } else {
      PlayFires(c, n, rs[..|rs| - 1]);
      IndicesStep(rs);
    }
  }

  /** The life of a collector for `n` items: reports during construction, `setTotal`, later reports. */
  function Life(outputs: set<string>, n: nat, total: nat, early: seq<Report>, late: seq<Report>): Collector
    requires AllFitting(outputs, n, early) && AllFitting(outputs, n, late)
  {
    Play(SetTotal(Play(NewCollector(outputs, n, total), n, early), n), n, late)
  }

  /** The item indices 0, ..., n - 1. */
  function Below(n: nat): (s: set<nat>)
    ensures forall i: nat :: i in s <==> i < n
  {
    if n == 0 then {} else Below(n - 1) + {n - 1}
  }

  lemma {:induction false} BelowCount(n: nat)
    ensures |Below(n)| == n
  {
    if n > 0 { BelowCount(n - 1); }
  }

  lemma CountsAll(s: set<nat>, n: nat)
    requires s <= Below(n)
    ensures |s| <= n && (|s| == n <==> s == Below(n))
  {
    BelowCount(n);
    var rest := Below(n) - s;
    assert Below(n) == s + rest;
    assert rest == {} <==> s == Below(n);
  }

  lemma IndicesBelow(outputs: set<string>, n: nat, rs: seq<Report>)
    requires AllFitting(outputs, n, rs)
    ensures Indices(rs) <= Below(n)
  {}

  lemma CountsBoth(early: seq<Report>, late: seq<Report>, n: nat)
    ensures Indices(early + late) == Indices(early) + Indices(late)
  {}

  /**
   How often the callback fires. The dotproduct and nested collectors start with `total == n`
   and fire a second time exactly when all of `n > 0` items reported before `setTotal`; the flat
   collector starts with `total == 0` and fires exactly once when all items have reported.
   */
  lemma FiringCount(outputs: set<string>, n: nat, total: nat, early: seq<Report>, late: seq<Report>)
    requires AllFitting(outputs, n, early) && AllFitting(outputs, n, late)
    requires total == n || total == 0
    ensures var fired := |Life(outputs, n, total, early, late).fired|;
            fired == if Indices(early + late) != Below(n) then 0
                     else if n > 0 && total == n && Indices(early) == Below(n) then 2
                     else 1
  {
    var c0 := NewCollector(outputs, n, total);
    PlayFires(c0, n, early);
    PlayFires(SetTotal(Play(c0, n, early), n), n, late);
    CountsBoth(early, late, n);
    IndicesBelow(outputs, n, early);
    IndicesBelow(outputs, n, late);
    CountsAll(Indices(early), n);
    CountsAll(Indices(early) + Indices(late), n);
  }

  /** A repeated report of the same item, as an inner collector firing twice makes, changes nothing. */
  lemma RepeatedReport(c: Collector, r: Report)
    requires forall k :: k in c.dest ==> r.index < |c.dest[k]|
    ensures Receive(Receive(c, r), r) == Receive(c, r)
  {
    var c' := Receive(c, r);
    forall k | k in c'.dest && k in r.jobout ensures c'.dest[k][r.index := r.jobout[k]] == c'.dest[k] {}
    assert Put(c'.dest, r) == c'.dest;
  }

  // ---------------------------------------------------------------- the gathered result

  ghost predicate OncePerItem(rs: seq<Report>) {
    forall i, j :: 0 <= i < j < |rs| ==> rs[i].index != rs[j].index
  }

  function Get(obj: Object, k: string): Value {
    if k in obj then obj[k] else Null
  }

  /** Each reported item stands in its own place, the others are null. */
  ghost predicate Placed(dest: Destinations, n: nat, rs: seq<Report>)
    requires Sized(dest, n)
  {
    && (forall k, i :: k in dest && 0 <= i < |rs| && rs[i].index < n ==> dest[k][rs[i].index] == Get(rs[i].jobout, k))
    && (forall k, j: nat :: k in dest && j < n && j !in Indices(rs) ==> dest[k][j] == Null)
  }

  lemma PlaceOne(dest: Destinations, n: nat, rs: seq<Report>, r: Report)
    requires Sized(dest, n) && Placed(dest, n, rs) && Fitting(dest.Keys, n, r) && OncePerItem(rs + [r])
    ensures Placed(Put(dest, r), n, rs + [r])
  {
    var rs', dest' := rs + [r], Put(dest, r);
    IndicesStep(rs');
    assert rs'[..|rs|] == rs;
    assert r.index !in Indices(rs) by {
      forall i | 0 <= i < |rs| ensures rs[i].index != r.index { assert rs'[i].index != rs'[|rs|].index; }
    }
    forall k, i | k in dest' && 0 <= i < |rs'| && rs'[i].index < n
      ensures dest'[k][rs'[i].index] == Get(rs'[i].jobout, k)
    {
      if i < |rs| { assert rs'[i] == rs[i] && rs[i].index in Indices(rs); }
    }
  }

  lemma {:induction false} PlayPlaces(c: Collector, n: nat, before: seq<Report>, rs: seq<Report>)
    requires Sized(c.dest, n) && AllFitting(c.dest.Keys, n, rs)
    requires Placed(c.dest, n, before) && OncePerItem(before + rs)
    ensures Placed(Play(c, n, rs).dest, n, before + rs)
  {
    if rs == [] {
      assert before + rs == before;
    } else {
      var init, r := rs[..|rs| - 1], rs[|rs| - 1];
      assert before + rs == (before + init) + [r];
      assert (before + rs)[..|before + init|] == before + init;
      PlayPlaces(c, n, before, init);
      PlaceOne(Play(c, n, init).dest, n, before + init, r);
    }
  }

  ghost predicate AllSucceeded(rs: seq<Report>) {
    forall i :: 0 <= i < |rs| ==> rs[i].status == Success
  }

  ghost predicate SomeFailed(rs: seq<Report>) {
    exists i :: 0 <= i < |rs| && rs[i].status == PermanentFail
  }

  /** The latched status over the reports received so far. */
  ghost predicate Latched(status: Status, rs: seq<Report>) {
    (status == Success <==> AllSucceeded(rs)) && (status == PermanentFail <==> SomeFailed(rs))
  }

  /** The last status that is not success. */
  function LastFailure(rs: seq<Report>): Status {
    if rs == [] then Success
    else if rs[|rs| - 1].status != Success then rs[|rs| - 1].status
    else LastFailure(rs[..|rs| - 1])
  }

  /** The status after the reports: a permanent failure stays, otherwise the last one counts. */
  ghost function StatusAfter(rs: seq<Report>): Status {
    if SomeFailed(rs) then PermanentFail else LastFailure(rs)
  }

  lemma {:induction false} LastFailureIs(rs: seq<Report>)
    ensures LastFailure(rs) == Success <==> AllSucceeded(rs)
    ensures LastFailure(rs) != Success ==> exists i :: 0 <= i < |rs| && rs[i].status == LastFailure(rs)
  {
    if rs != [] && rs[|rs| - 1].status == Success {
      var before := rs[..|rs| - 1];
      LastFailureIs(before);
      if LastFailure(before) != Success {
        var i :| 0 <= i < |before| && before[i].status == LastFailure(before);
        assert rs[i].status == LastFailure(rs);
      }
    }
  }

  lemma LatchOne(rs: seq<Report>, r: Report)
    ensures Latch(StatusAfter(rs), r.status) == StatusAfter(rs + [r])
  {
    var rs' := rs + [r];
    assert rs'[|rs|] == r && rs'[..|rs|] == rs;
    LastFailureIs(rs);
    if SomeFailed(rs) {
      var i :| 0 <= i < |rs| && rs[i].status == PermanentFail;
      assert rs'[i].status == PermanentFail;
    }
  }

  lemma StatusLatched(rs: seq<Report>)
    ensures Latched(StatusAfter(rs), rs)
  {
    LastFailureIs(rs);
  }

  lemma {:induction false} PlayLatches(c: Collector, n: nat, before: seq<Report>, rs: seq<Report>)
    requires Sized(c.dest, n) && AllFitting(c.dest.Keys, n, rs)
    requires c.status == StatusAfter(before)
    ensures Play(c, n, rs).status == StatusAfter(before + rs)
  {
    if rs == [] {
      assert before + rs == before;
    } else {
      var init, r := rs[..|rs| - 1], rs[|rs| - 1];
      PlayLatches(c, n, before, init);
      LatchOne(before + init, r);
      assert before + rs == (before + init) + [r];
    }
  }

  // ---------------------------------------------------------------- the status and the arrival order

  /** No two different statuses besides success. */
  ghost predicate OneFailure(rs: seq<Report>) {
    forall i, j :: 0 <= i < |rs| && 0 <= j < |rs| && rs[i].status != Success && rs[j].status != Success
                   ==> rs[i].status == rs[j].status
  }

  ghost predicate Rearranged(rs: seq<Report>, rs': seq<Report>) {
    multiset(rs') == multiset(rs)
  }

  lemma SameReports(rs: seq<Report>, rs': seq<Report>)
    requires Rearranged(rs, rs')
    ensures forall r :: r in rs <==> r in rs'
    ensures forall i :: 0 <= i < |rs| ==> rs[i] in rs'
    ensures forall i :: 0 <= i < |rs'| ==> rs'[i] in rs
  {
    forall r ensures r in rs <==> r in rs' {
      assert r in rs <==> r in multiset(rs);
      assert r in rs' <==> r in multiset(rs');
    }
  }

  lemma FailureStays(rs: seq<Report>, rs': seq<Report>)
    requires Rearranged(rs, rs') && SomeFailed(rs)
    ensures SomeFailed(rs')
  {
    SameReports(rs, rs');
    var i :| 0 <= i < |rs| && rs[i].status == PermanentFail;
    assert rs[i] in rs';
  }

  /** With one kind of failure the last one does not depend on the order. */
  lemma SameLast(rs: seq<Report>, rs': seq<Report>)
    requires Rearranged(rs, rs') && OneFailure(rs)
    ensures LastFailure(rs') == LastFailure(rs)
  {
    SameReports(rs, rs');
    LastFailureIs(rs);
    LastFailureIs(rs');
    if i :| 0 <= i < |rs| && rs[i].status != Success {
      assert rs[i] in rs';
      var k :| 0 <= k < |rs'| && rs'[k].status == LastFailure(rs');
      assert rs'[k] in rs;
    } else {
      forall j | 0 <= j < |rs'| ensures rs'[j].status == Success {
        assert rs'[j] in rs;
      }
    }
  }

  /** The reports with report `i` moved to the end. */
  function MovedLast(rs: seq<Report>, i: nat): seq<Report>
    requires i < |rs|
  {
    rs[..i] + rs[i + 1..] + [rs[i]]
  }

  lemma MovedLastDecides(rs: seq<Report>, i: nat)
    requires i < |rs| && rs[i].status != Success && !SomeFailed(rs)
    ensures Rearranged(rs, MovedLast(rs, i)) && StatusAfter(MovedLast(rs, i)) == rs[i].status
  {
    var rs' := MovedLast(rs, i);
    assert rs == rs[..i] + [rs[i]] + rs[i + 1..];
    assert Rearranged(rs', rs);
    if SomeFailed(rs') { FailureStays(rs', rs); }
    assert rs'[|rs'| - 1] == rs[i];
  }

  /**
   The final status is the same for every arrival order exactly if an item failed permanently or
   all items that did not succeed report the same status. With a temporary failure and a skipped
   item it is the one that reports last.
   */
  lemma StatusOrderIff(rs: seq<Report>)
    ensures (forall rs' :: Rearranged(rs, rs') ==> StatusAfter(rs') == StatusAfter(rs))
            <==> SomeFailed(rs) || OneFailure(rs)
  {
    if SomeFailed(rs) || OneFailure(rs) {
      forall rs' | Rearranged(rs, rs') ensures StatusAfter(rs') == StatusAfter(rs) {
        if SomeFailed(rs) {
          FailureStays(rs, rs');
        } else {
          SameLast(rs, rs');
          if SomeFailed(rs') { FailureStays(rs', rs); }
        }
      }
    } else {
      var i, j :| 0 <= i < |rs| && 0 <= j < |rs| && rs[i].status != Success && rs[j].status != Success
                  && rs[i].status != rs[j].status;
      MovedLastDecides(rs, i);
      MovedLastDecides(rs, j);
    }
  }

  /** A skipped item that reports last makes the status usable, whatever temporary failures came before it. */
  lemma SkipHidesFailures(rs: seq<Report>, r: Report)
    requires !SomeFailed(rs) && r.status == Skipped
    ensures StatusAfter(rs + [r]) == Skipped && Usable(StatusAfter(rs + [r]))
  {
    LatchOne(rs, r);
    LastFailureIs(rs);
  }

  /** With one report per item the expected total is reached, if at all, by the last report. */
  lemma PlayFiresLast(c: Collector, n: nat, rs: seq<Report>)
    requires Sized(c.dest, n) && AllFitting(c.dest.Keys, n, rs)
    requires c.completed <= Below(n) && c.completed !! Indices(rs) && OncePerItem(rs)
    requires c.total == n || c.total == 0
    ensures var c' := Play(c, n, rs);
            c'.fired == c.fired || c'.fired == c.fired + [Firing(c'.dest, c'.status)]
  {
    PlayFires(c, n, rs);
    if rs != [] {
      var init, r := rs[..|rs| - 1], rs[|rs| - 1];
      PlayFires(c, n, init);
      IndicesStep(rs);
      assert r.index !in Indices(init);
      CountsAll(c.completed + Indices(init), n);
      CountsAll(c.completed + Indices(rs), n);
      assert Play(c, n, init).fired == c.fired;
    }
  }

  lemma SomeIndex(rs: seq<Report>)
    ensures rs != [] ==> Indices(rs) != {}
  {
    if rs != [] { assert rs[0].index in Indices(rs); }
  }

  lemma OnceSplit(a: seq<Report>, b: seq<Report>)
    requires OncePerItem(a + b)
    ensures OncePerItem(a) && OncePerItem(b) && Indices(a) !! Indices(b)
  {
    var ab := a + b;
    forall i, j | 0 <= i < j < |a| ensures a[i].index != a[j].index { assert ab[i].index != ab[j].index; }
    forall i, j | 0 <= i < j < |b| ensures b[i].index != b[j].index {
      assert ab[|a| + i].index != ab[|a| + j].index;
    }
    forall i, j | 0 <= i < |a| && 0 <= j < |b| ensures a[i].index != b[j].index {
      assert ab[i].index != ab[|a| + j].index;
    }
  }

  /** Every call of the callback carries the final result. */
  lemma FiresFinal(outputs: set<string>, n: nat, total: nat, early: seq<Report>, late: seq<Report>)
    requires AllFitting(outputs, n, early) && AllFitting(outputs, n, late) && OncePerItem(early + late)
    requires total == n || total == 0
    ensures var c := Life(outputs, n, total, early, late);
            forall f :: f in c.fired ==> f == Firing(c.dest, c.status)
  {
    OnceSplit(early, late);
    var c0 := NewCollector(outputs, n, total);
    var c1 := Play(c0, n, early);
    PlayFires(c0, n, early);
    PlayFiresLast(c0, n, early);
    CountsAll(Indices(early), n);
    if Indices(early) == Below(n) {
      SomeIndex(late);
    } else {
      PlayFiresLast(SetTotal(c1, n), n, late);
    }
  }

  /** The result does not depend on the arrival order: every item's outputs stand at its index. */
  lemma GatheredOutputs(outputs: set<string>, n: nat, total: nat, early: seq<Report>, late: seq<Report>)
    requires AllFitting(outputs, n, early) && AllFitting(outputs, n, late) && OncePerItem(early + late)
    ensures var c := Life(outputs, n, total, early, late);
            c.dest.Keys == outputs && Placed(c.dest, n, early + late)
  {
    var c0 := NewCollector(outputs, n, total);
    OnceSplit(early, late);
    assert [] + early == early;
    PlayPlaces(c0, n, [], early);
    PlayPlaces(SetTotal(Play(c0, n, early), n), n, early, late);
  }

  /**
   The status is permanentFail exactly when one item failed permanently, success exactly when all
   succeeded, and otherwise that of the last report that was not a success.
   */
  lemma GatheredStatus(outputs: set<string>, n: nat, total: nat, early: seq<Report>, late: seq<Report>)
    requires AllFitting(outputs, n, early) && AllFitting(outputs, n, late)
    ensures Life(outputs, n, total, early, late).status == StatusAfter(early + late)
    ensures Latched(Life(outputs, n, total, early, late).status, early + late)
  {
    StatusLatched(early + late);
    var c0 := NewCollector(outputs, n, total);
    assert [] + early == early;
    PlayLatches(c0, n, [], early);
    PlayLatches(SetTotal(Play(c0, n, early), n), n, early, late);
  }
}
