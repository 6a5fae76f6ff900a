/**
  The expiry sweep (`holds:release-expired`): select the active holds past
  their expiry, then release each one in its own transaction, re-checking the
  hold under its row lock first. A failing hold is reported and skipped; the
  sweep reports how many holds it processed without an error.
 */
module ReleaseExpiredHolds {
  import opened Store
  import opened Tally
  import opened Conservation

  /** A hold the sweep selects: active and strictly past its expiry. */
  predicate IsCandidate(s: State, now: int, id: Id) {
    id in s.holds && s.holds[id].status == Active && s.holds[id].expiresAt < now
  }

  /** The candidates with ids in `[from, nextHoldId)`, in ascending id order. */
  function CandidatesFrom(s: State, now: int, from: nat): (c: seq<Id>)
    ensures forall k :: 0 <= k < |c| ==> from <= c[k] < s.nextHoldId && IsCandidate(s, now, c[k])
    ensures forall k, l :: 0 <= k < l < |c| ==> c[k] < c[l]
    ensures forall id :: from <= id < s.nextHoldId && IsCandidate(s, now, id) ==> id in c
    decreases s.nextHoldId - from
  {
    if from >= s.nextHoldId then []
    else (if IsCandidate(s, now, from) then [from] else []) + CandidatesFrom(s, now, from + 1)
  }

  /** The candidate list the sweep computes from the state it starts in. */
  function Candidates(s: State, now: int): (c: seq<Id>)
    ensures forall k :: 0 <= k < |c| ==> IsCandidate(s, now, c[k])
    ensures forall k, l :: 0 <= k < l < |c| ==> c[k] < c[l]
    ensures WellFormed(s) ==> forall id :: IsCandidate(s, now, id) ==> id in c
  {
    CandidatesFrom(s, now, 0)
  }

  datatype StepOutcome = Released | Skipped

  /**
    One per-hold transaction of the sweep, run against the current state.
    `fault` stands for an exception raised inside the transaction (a lock
    timeout, say); a hold row missing at lock time raises too. Either way the
    step rolls back. A hold no longer active, or not yet expired at `now`, is
    skipped without change. Otherwise the hold is expired and, when its
    product still exists, the product gets the hold's quantity back.
   */
  function ReleaseHold(s: State, holdId: Id, now: int, fault: bool): (r: Result<Committed<StepOutcome>>)
    ensures r.Err? <==> fault || holdId !in s.holds
    ensures r == Err(TransactionFailed) <==> fault
    ensures r == Err(HoldNotFound) <==> !fault && holdId !in s.holds
    ensures r == Ok(Committed(Skipped, s)) <==>
      !fault && holdId in s.holds && (s.holds[holdId].status != Active || s.holds[holdId].expiresAt > now)
    ensures (r.Ok? && r.value.value == Released) <==>
      !fault && holdId in s.holds && s.holds[holdId].status == Active && s.holds[holdId].expiresAt <= now
    ensures r.Ok? && r.value.value == Released ==>
      var h := s.holds[holdId];
      var s' := r.value.state;
      && s'.holds == s.holds[holdId := h.(status := Expired)]
      && (h.productId in s.products ==>
            var p := s.products[h.productId];
            s'.products == s.products[h.productId := p.(stockRemaining := p.stockRemaining + h.quantity)])
      && (h.productId !in s.products ==> s'.products == s.products)
      && s'.orders == s.orders && s'.logs == s.logs
      && s'.nextHoldId == s.nextHoldId && s'.nextOrderId == s.nextOrderId
  {
    if fault then Err(TransactionFailed)
    else if holdId !in s.holds then Err(HoldNotFound)
    else
      var h := s.holds[holdId];
      if h.status != Active || h.expiresAt > now then Ok(Committed(Skipped, s))
      else
        var holds := s.holds[holdId := h.(status := Expired)];
        var products :=
          if h.productId in s.products then
            var p := s.products[h.productId];
            s.products[h.productId := p.(stockRemaining := p.stockRemaining + h.quantity)]
          else s.products;
        Ok(Committed(Released, s.(holds := holds, products := products)))
  }

  lemma ReleaseHoldPreservesInv(s: State, holdId: Id, now: int, fault: bool)
    requires Inv(s)
    requires ReleaseHold(s, holdId, now, fault).Ok?
    ensures Inv(ReleaseHold(s, holdId, now, fault).value.state)
  {
    var c := ReleaseHold(s, holdId, now, fault).value;
    if c.value == Released {
      var s' := c.state;
      var h := s.holds[holdId];
      var h' := s'.holds[holdId];
      forall oid | oid in s.orders
        ensures s.orders[oid].holdId != holdId
      {
      }
      assert OrdersTrackHolds(s');
      forall q | q in s'.products
        ensures Balanced(s', q)
      {
        assert Balanced(s, q);
        SumBelowUpdate(s.holds, HoldWeight(q), s.nextHoldId, holdId, h');
        assert Reserved(s', q) + HoldWeight(q)(h) == Reserved(s, q);
        assert Sold(s', q) == Sold(s, q);
      }
    }
  }

  /** What a sweep reports: the holds processed without error, the holds that failed, and the final state. */
  datatype SweepReport = SweepReport(count: nat, failed: seq<Id>, state: State)

  /**
    `s'` is `s` with, at most, some active holds expired and some products'
    stock raised: what any sequence of release steps can do.
   */
  predicate ReleasesOnly(s: State, s': State) {
    && s'.holds.Keys == s.holds.Keys && s'.products.Keys == s.products.Keys
    && s'.orders == s.orders && s'.logs == s.logs
    && s'.nextHoldId == s.nextHoldId && s'.nextOrderId == s.nextOrderId
    && (forall id :: id in s.holds ==>
          || s'.holds[id] == s.holds[id]
          || (s.holds[id].status == Active && s'.holds[id] == s.holds[id].(status := Expired)))
    && (forall q :: q in s.products ==>
          && s'.products[q] == s.products[q].(stockRemaining := s'.products[q].stockRemaining)
          && s.products[q].stockRemaining <= s'.products[q].stockRemaining)
  }

  lemma ReleasesOnlyTransitive(s1: State, s2: State, s3: State)
    requires ReleasesOnly(s1, s2) && ReleasesOnly(s2, s3)
    ensures ReleasesOnly(s1, s3)
  {
  }

  /**
    Run the per-hold step for every id of `cands` in order, each against the
    state the previous steps left. A step that raises is listed in `failed`
    and leaves the state as it was; every other step, skip or release, is
    counted.
   */
  function SweepFrom(s: State, cands: seq<Id>, now: int, faults: set<Id>): (r: SweepReport)
    ensures r.count + |r.failed| == |cands|
    ensures forall id :: id in r.failed ==> id in cands
    decreases |cands|
  {
    if |cands| == 0 then SweepReport(0, [], s)
    else
      var id := cands[0];
      match ReleaseHold(s, id, now, id in faults)
      case Ok(c) =>
        var rest := SweepFrom(c.state, cands[1..], now, faults);
        SweepReport(rest.count + 1, rest.failed, rest.state)
      case Err(_) =>
        var rest := SweepFrom(s, cands[1..], now, faults);
        SweepReport(rest.count, [id] + rest.failed, rest.state)
  }

  /** The first step of a sweep followed by the sweep of the remaining ids. */
  lemma SweepFromUnfold(s: State, cands: seq<Id>, now: int, faults: set<Id>)
    requires |cands| > 0
    ensures var id := cands[0];
      var step := ReleaseHold(s, id, now, id in faults);
      var r := SweepFrom(s, cands, now, faults);
      if step.Ok? then
        var rest := SweepFrom(step.value.state, cands[1..], now, faults);
        r == SweepReport(rest.count + 1, rest.failed, rest.state)
      else
        var rest := SweepFrom(s, cands[1..], now, faults);
        r == SweepReport(rest.count, [id] + rest.failed, rest.state)
  {
  }

  /** A sweep only expires active holds and raises stock; orders, logs and counters are untouched. */
  lemma {:induction false} SweepFromReleasesOnly(s: State, cands: seq<Id>, now: int, faults: set<Id>)
    ensures ReleasesOnly(s, SweepFrom(s, cands, now, faults).state)
    decreases |cands|
  {
    if |cands| > 0 {
      var id := cands[0];
      var step := ReleaseHold(s, id, now, id in faults);
      SweepFromUnfold(s, cands, now, faults);
      if step.Ok? {
        SweepFromReleasesOnly(step.value.state, cands[1..], now, faults);
        ReleasesOnlyTransitive(s, step.value.state, SweepFrom(step.value.state, cands[1..], now, faults).state);
      } else {
        SweepFromReleasesOnly(s, cands[1..], now, faults);
      }
    }
  }

  /**
    The sweep touches only the holds it is given and the products of those
    holds: every other hold and every other product keeps its row.
   */
  lemma {:induction false} SweepFromTouchesOnlyCandidates(s: State, cands: seq<Id>, now: int, faults: set<Id>)
    ensures var r := SweepFrom(s, cands, now, faults);
      && ReleasesOnly(s, r.state)
      && (forall id :: id in s.holds && id !in cands ==> r.state.holds[id] == s.holds[id])
      && (forall q :: q in s.products && (forall id :: id in cands && id in s.holds ==> s.holds[id].productId != q) ==>
            r.state.products[q] == s.products[q])
    decreases |cands|
  {
    if |cands| > 0 {
      var id := cands[0];
      var tail := cands[1..];
      assert forall x :: x in tail ==> x in cands;
      var step := ReleaseHold(s, id, now, id in faults);
      var mid := if step.Ok? then step.value.state else s;
      SweepFromUnfold(s, cands, now, faults);
      SweepFromTouchesOnlyCandidates(mid, tail, now, faults);
      SweepFromReleasesOnly(s, cands, now, faults);
      assert mid.holds.Keys == s.holds.Keys;
      assert forall x :: x in s.holds ==> mid.holds[x].productId == s.holds[x].productId;
    }
  }

  /**
    Over any list, run from any state, an id is reported as failed exactly when
    its transaction raises: it is marked as faulting or its hold row is missing.
    Every other step, including a hold the re-check skips because it is no
    longer active or not yet expired, is counted.
   */
  lemma {:induction false} SweepFromFailedExactly(s: State, cands: seq<Id>, now: int, faults: set<Id>)
    ensures var r := SweepFrom(s, cands, now, faults);
      forall id :: id in r.failed <==> id in cands && (id in faults || id !in s.holds)
    decreases |cands|
  {
    if |cands| > 0 {
      var id := cands[0];
      var tail := cands[1..];
      assert forall x :: x in cands <==> x == id || x in tail;
      var step := ReleaseHold(s, id, now, id in faults);
      var mid := if step.Ok? then step.value.state else s;
      SweepFromUnfold(s, cands, now, faults);
      SweepFromFailedExactly(mid, tail, now, faults);
      assert mid.holds.Keys == s.holds.Keys;
    }
  }

  /** `holds:release-expired` at clock reading `now`, with `faults` the holds whose transaction raises. */
  function Sweep(s: State, now: int, faults: set<Id>): SweepReport {
    SweepFrom(s, Candidates(s, now), now, faults)
  }

  lemma {:induction false} SweepFromPreservesInv(s: State, cands: seq<Id>, now: int, faults: set<Id>)
    requires Inv(s)
    ensures Inv(SweepFrom(s, cands, now, faults).state)
    decreases |cands|
  {
    if |cands| > 0 {
      var id := cands[0];
      match ReleaseHold(s, id, now, id in faults)
      case Ok(c) =>
        ReleaseHoldPreservesInv(s, id, now, id in faults);
        SweepFromPreservesInv(c.state, cands[1..], now, faults);
      case Err(_) =>
        SweepFromPreservesInv(s, cands[1..], now, faults);
    }
  }

  /**
    Over a list of distinct candidates, exactly the faulting ones fail; every
    other candidate ends expired and every faulting one stays active.
   */
  lemma {:induction false} SweepFromCandidates(s: State, cands: seq<Id>, now: int, faults: set<Id>)
    requires forall k :: 0 <= k < |cands| ==> IsCandidate(s, now, cands[k])
    requires forall k, l :: 0 <= k < l < |cands| ==> cands[k] != cands[l]
    ensures var r := SweepFrom(s, cands, now, faults);
      && (forall id :: id in r.failed <==> id in cands && id in faults)
      && (forall k :: 0 <= k < |cands| ==>
            cands[k] in r.state.holds
            && r.state.holds[cands[k]].status == (if cands[k] in faults then Active else Expired))
    decreases |cands|
  {
    if |cands| > 0 {
      var id := cands[0];
      var tail := cands[1..];
      assert forall k :: 0 <= k < |tail| ==> tail[k] == cands[k + 1];
      assert id !in tail;
      var step := ReleaseHold(s, id, now, id in faults);
      var mid := if step.Ok? then step.value.state else s;
      assert forall k :: 0 <= k < |tail| ==> IsCandidate(mid, now, tail[k]) by {
        forall k | 0 <= k < |tail|
          ensures IsCandidate(mid, now, tail[k])
        {
          assert IsCandidate(s, now, cands[k + 1]);
        }
      }
      SweepFromUnfold(s, cands, now, faults);
      SweepFromReleasesOnly(mid, tail, now, faults);
      SweepFromCandidates(mid, tail, now, faults);
      SweepFromTouchesOnlyCandidates(mid, tail, now, faults);
      var r := SweepFrom(s, cands, now, faults);
      assert r.failed == (if id in faults then [id] else []) + SweepFrom(mid, tail, now, faults).failed;
      assert mid.holds[id].status == (if id in faults then Active else Expired);
      assert r.state.holds[id] == mid.holds[id];
    }
  }

  /**
    After a sweep the only holds still selectable at the same `now` are the
    ones whose step failed.
   */
  lemma SweepLeavesOnlyFailedCandidates(s: State, now: int, faults: set<Id>)
    requires WellFormed(s)
    ensures var r := Sweep(s, now, faults);
      forall id :: IsCandidate(r.state, now, id) <==> id in r.failed
  {
    var cands := Candidates(s, now);
    var r := Sweep(s, now, faults);
    SweepFromReleasesOnly(s, cands, now, faults);
    SweepFromCandidates(s, cands, now, faults);
    forall id
      ensures IsCandidate(r.state, now, id) <==> id in r.failed
    {
      if IsCandidate(r.state, now, id) {
        assert r.state.holds[id] == s.holds[id];
        assert id in cands;
        var k :| 0 <= k < |cands| && cands[k] == id;
      }
      if id in r.failed {
        var k :| 0 <= k < |cands| && cands[k] == id;
        assert IsCandidate(s, now, cands[k]);
      }
    }
  }

  /** With no hold selectable, the candidate list is empty. */
  lemma {:induction false} NoCandidatesMeansEmpty(s: State, now: int, from: nat)
    requires forall id :: !IsCandidate(s, now, id)
    ensures CandidatesFrom(s, now, from) == []
    decreases s.nextHoldId - from
  {
    if from < s.nextHoldId {
      NoCandidatesMeansEmpty(s, now, from + 1);
    }
  }

  /** A sweep in which nothing failed leaves nothing for a second sweep at the same `now`. */
  lemma SweepTwiceIsIdle(s: State, now: int, faults: set<Id>, faults2: set<Id>)
    requires WellFormed(s)
    requires Sweep(s, now, faults).failed == []
    ensures var r := Sweep(s, now, faults);
      Sweep(r.state, now, faults2) == SweepReport(0, [], r.state)
  {
    var r := Sweep(s, now, faults);
    SweepLeavesOnlyFailedCandidates(s, now, faults);
    NoCandidatesMeansEmpty(r.state, now, 0);
  }

  /**
    A sweep keeps the invariant, and each product's stock grows by exactly the
    reservation its released holds gave up.
   */
  lemma SweepReturnsReservedStock(s: State, now: int, faults: set<Id>)
    requires Inv(s)
    ensures var r := Sweep(s, now, faults);
      && Inv(r.state)
      && ReleasesOnly(s, r.state)
      && forall q :: q in s.products ==>
           r.state.products[q].stockRemaining == s.products[q].stockRemaining + Reserved(s, q) - Reserved(r.state, q)
  {
    var r := Sweep(s, now, faults);
    SweepFromPreservesInv(s, Candidates(s, now), now, faults);
    SweepFromReleasesOnly(s, Candidates(s, now), now, faults);
    forall q | q in s.products
      ensures r.state.products[q].stockRemaining == s.products[q].stockRemaining + Reserved(s, q) - Reserved(r.state, q)
    {
      assert Balanced(s, q) && Balanced(r.state, q);
      assert Sold(r.state, q) == Sold(s, q);
    }
  }

  lemma ConcatAssoc<T>(a: seq<T>, b: seq<T>, c: seq<T>)
    ensures a + (b + c) == (a + b) + c
  {
  }

  /** The per-hold loop over a fixed candidate list, counting the steps that did not raise. */
  method ReleaseEach(s: State, cands: seq<Id>, now: int, faults: set<Id>) returns (count: nat, failed: seq<Id>, s': State)
    ensures SweepReport(count, failed, s') == SweepFrom(s, cands, now, faults)
  {
    ghost var total := SweepFrom(s, cands, now, faults);
    count, failed, s' := 0, [], s;
    var i := 0;
    while i < |cands|
      invariant 0 <= i <= |cands|
      invariant var rest := SweepFrom(s', cands[i..], now, faults);
        && total.count == count + rest.count
        && total.failed == failed + rest.failed
        && total.state == rest.state
    {
      var id := cands[i];
      assert cands[i..][1..] == cands[i + 1..];
      SweepFromUnfold(s', cands[i..], now, faults);
      var step := ReleaseHold(s', id, now, id in faults);
      if step.Ok? {
        count := count + 1;
        s' := step.value.state;
      } else {
        ConcatAssoc(failed, [id], SweepFrom(s', cands[i + 1..], now, faults).failed);
        failed := failed + [id];
      }
      i := i + 1;
    }
    assert cands[i..] == [];
  }

  /** `holds:release-expired`: select the candidates once, then release them one by one. */
  method Handle(s: State, now: int, faults: set<Id>) returns (count: nat, failed: seq<Id>, s': State)
    ensures SweepReport(count, failed, s') == Sweep(s, now, faults)
    ensures count + |failed| == |Candidates(s, now)|
    ensures Inv(s) ==> Inv(s')
  {
    var cands := Candidates(s, now);
    count, failed, s' := ReleaseEach(s, cands, now, faults);
    if Inv(s) {
      SweepFromPreservesInv(s, cands, now, faults);
    }
  }
}
