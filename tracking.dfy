/** What a sampler call reports, and the two ways the tuning loops keep the
    best report seen so far: the smallest cardinality that is still at least k
    (`Algorithm.compute`) and the largest cardinality (`MaxIndependentSet`). */
module Tracking {
  import opened Wrappers

  /** The first (lowest-energy) sample of a sampler call: the 0/1 vector, its
      energy and `cardinality = sum(x)`. */
  datatype Response = Response(x: seq<int>, value: real, cardinality: int)

  /** The two `if`s after every sampler call of `Algorithm.compute`: a first
      record needs cardinality at least k; later ones replace it only when
      they are at least k and strictly smaller. */
  function Track(best: Option<Response>, r: Response, k: int): (b: Option<Response>)
    ensures b == (if r.cardinality >= k && (best.None? || r.cardinality < best.value.cardinality) then Some(r) else best)
  {
    var first := if best.None? && r.cardinality >= k then Some(r) else best;
    if r.cardinality >= k && r.cardinality < first.value.cardinality then Some(r) else first
  }

  /** The record after a whole sequence of reports. */
  function TrackAll(rs: seq<Response>, k: int): Option<Response>
  {
    if rs == [] then None else Track(TrackAll(rs[..|rs| - 1], k), rs[|rs| - 1], k)
  }

  /** Report i is feasible: its cardinality is at least k. */
  predicate Feasible(rs: seq<Response>, k: int, i: int)
  {
    0 <= i < |rs| && rs[i].cardinality >= k
  }

  /** The record exists exactly when some report was feasible. */
  lemma {:induction false} TrackAllExists(rs: seq<Response>, k: int)
    ensures TrackAll(rs, k).None? <==> forall i :: 0 <= i < |rs| ==> !Feasible(rs, k, i)
  {
    if rs != [] {
      var n := |rs| - 1;
      var prev := TrackAll(rs[..n], k);
      TrackAllExists(rs[..n], k);
      assert forall i :: 0 <= i < n ==> (Feasible(rs[..n], k, i) <==> Feasible(rs, k, i));
      assert prev.Some? ==> TrackAll(rs, k).Some?;
      assert Feasible(rs, k, n) ==> TrackAll(rs, k).Some?;
    }
  }

  /** The record is feasible and its cardinality is the smallest feasible one. */
  lemma {:induction false} TrackAllMinimal(rs: seq<Response>, k: int)
    ensures TrackAll(rs, k).Some? ==> TrackAll(rs, k).value.cardinality >= k
    ensures TrackAll(rs, k).Some? ==> forall i :: Feasible(rs, k, i) ==> TrackAll(rs, k).value.cardinality <= rs[i].cardinality
  {
    if rs != [] {
      var n := |rs| - 1;
      TrackAllMinimal(rs[..n], k);
      TrackAllExists(rs[..n], k);
      assert forall i :: 0 <= i < n ==> (Feasible(rs[..n], k, i) <==> Feasible(rs, k, i)) && rs[..n][i] == rs[i];
    }
  }

  /** The record is the earliest report of its cardinality among the feasible
      ones. */
  lemma {:induction false} TrackAllEarliest(rs: seq<Response>, k: int)
    ensures TrackAll(rs, k).Some? ==>
      exists j :: Feasible(rs, k, j) && TrackAll(rs, k).value == rs[j]
        && forall i :: 0 <= i < j && Feasible(rs, k, i) ==> rs[i].cardinality > rs[j].cardinality
  {
    if rs != [] {
      var n := |rs| - 1;
      var init := rs[..n];
      TrackAllEarliest(init, k);
      var prev := TrackAll(init, k);
      if TrackAll(rs, k) == prev && prev.Some? {
        var j :| Feasible(init, k, j) && prev.value == init[j]
          && forall i :: 0 <= i < j && Feasible(init, k, i) ==> init[i].cardinality > init[j].cardinality;
        assert Feasible(rs, k, j) && rs[j] == init[j];
        forall i | 0 <= i < j && Feasible(rs, k, i) ensures rs[i].cardinality > rs[j].cardinality {
          assert Feasible(init, k, i);
        }
      } else if TrackAll(rs, k).Some? {
        assert TrackAll(rs, k).value == rs[n] && Feasible(rs, k, n);
        TrackAllMinimal(init, k);
        TrackAllExists(init, k);
        forall i | 0 <= i < n && Feasible(rs, k, i) ensures rs[i].cardinality > rs[n].cardinality {
          assert Feasible(init, k, i) && init[i] == rs[i];
        }
      }
    }
  }

  /** The record only improves: once set after m reports it stays set after
      n >= m reports, stays feasible and its cardinality never grows. */
  lemma {:induction false} TrackAllImproves(rs: seq<Response>, k: int, m: nat, n: nat)
    requires m <= n <= |rs|
    ensures TrackAll(rs[..n], k).Some? ==> TrackAll(rs[..n], k).value.cardinality >= k
    ensures TrackAll(rs[..m], k).Some? ==>
      TrackAll(rs[..n], k).Some? && TrackAll(rs[..n], k).value.cardinality <= TrackAll(rs[..m], k).value.cardinality
    decreases n
  {
    if n > 0 {
      assert rs[..n][..n - 1] == rs[..n - 1];
      if m < n {
        TrackAllImproves(rs, k, m, n - 1);
      } else {
        TrackAllImproves(rs, k, n - 1, n - 1);
      }
    }
  }

  /** The `MaxIndependentSet.compute` record: replaced when there is none yet
      or the new cardinality is strictly larger. */
  function TrackMax(best: Option<Response>, r: Response): (b: Option<Response>)
    ensures b.Some?
  {
    if best.None? || best.value.cardinality < r.cardinality then Some(r) else best
  }

  function TrackMaxAll(rs: seq<Response>): Option<Response>
  {
    if rs == [] then None else TrackMax(TrackMaxAll(rs[..|rs| - 1]), rs[|rs| - 1])
  }

  /** After at least one report there is a record, and no report has a
      larger cardinality. */
  lemma {:induction false} TrackMaxAllMaximal(rs: seq<Response>)
    ensures TrackMaxAll(rs).None? <==> rs == []
    ensures TrackMaxAll(rs).Some? ==> forall i :: 0 <= i < |rs| ==> rs[i].cardinality <= TrackMaxAll(rs).value.cardinality
  {
    if rs != [] {
      var n := |rs| - 1;
      TrackMaxAllMaximal(rs[..n]);
      assert forall i :: 0 <= i < n ==> rs[..n][i] == rs[i];
    }
  }

  /** The record is the earliest report of the largest cardinality. */
  lemma {:induction false} TrackMaxAllEarliest(rs: seq<Response>)
    ensures TrackMaxAll(rs).Some? ==>
      exists j :: 0 <= j < |rs| && TrackMaxAll(rs).value == rs[j]
        && forall i :: 0 <= i < j ==> rs[i].cardinality < rs[j].cardinality
  {
    if rs != [] {
      var n := |rs| - 1;
      var init := rs[..n];
      TrackMaxAllEarliest(init);
      var prev := TrackMaxAll(init);
      if prev.Some? && TrackMaxAll(rs) == prev {
        var j :| 0 <= j < n && prev.value == init[j]
          && forall i :: 0 <= i < j ==> init[i].cardinality < init[j].cardinality;
        assert forall i :: 0 <= i <= j ==> init[i] == rs[i];
      } else {
        assert TrackMaxAll(rs).value == rs[n];
        TrackMaxAllMaximal(init);
        assert forall i :: 0 <= i < n ==> init[i] == rs[i];
      }
    }
  }
}
