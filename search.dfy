/** `findLongestBundle`: the depth-first search for the longest chain from
    one shipment. It reads the store and the `bundled` flags and changes
    neither, so it is modelled as a function; its `for` loop over the next
    day's bucket is the fold `Explore`. */
module Search {
  import opened Wrappers
  import opened Days
  import opened ShipmentStore
  import opened Chains

  /** How many weekdays are left from the shipment on: the search goes one
      day further at each level, so this bounds its depth. */
  function Rank(st: Store, s: Option<nat>): nat
    requires s.Some? ==> s.value < |st.shipments|
  {
    if s.None? then 0 else 5 - Ordinal(st.shipments[s.value].day)
  }

  /** `findLongestBundle(shipment, longestBundle, bundle)`, with the chain
      strings kept as paths of arena positions (None is an absent shipment). */
  function Longest(st: Store, bundled: seq<bool>, s: Option<nat>, best: seq<nat>, path: seq<nat>): (r: seq<nat>)
    requires Bucketed(st) && |bundled| == |st.shipments|
    requires s.Some? ==> s.value < |st.shipments|
    requires InRange(st, best) && InRange(st, path)
    ensures InRange(st, r)
    decreases Rank(st, s), 1, 0
  {
    if s.None? || bundled[s.value] then best
    else
      var cand := path + [s.value];
      var best' := if Len(st, cand) > Len(st, best) then cand else best;
      match NextDay(st.shipments[s.value].day)
      case None => best'
      case Some(nd) => Explore(st, bundled, s.value, nd, 0, best', cand)
  }

  /** The loop over `shipmentsByDay[nextDay]` from position `i` on: each
      child that is valid and not bundled is searched with the running best. */
  function Explore(st: Store, bundled: seq<bool>, p: nat, nd: Day, i: nat, best: seq<nat>, cand: seq<nat>): (r: seq<nat>)
    requires Bucketed(st) && |bundled| == |st.shipments|
    requires p < |st.shipments| && NextDay(st.shipments[p].day) == Some(nd)
    requires i <= |st.byDay[nd]|
    requires InRange(st, best) && InRange(st, cand)
    ensures InRange(st, r)
    decreases Rank(st, Some(p)), 0, |st.byDay[nd]| - i
  {
    if i == |st.byDay[nd]| then best
    else
      var c := st.byDay[nd][i];
      NextDayIsSuccessor(st.shipments[p].day);
      var best' :=
        if IsValidChild(st.shipments[p], st.shipments[c]) && !bundled[c]
        then Longest(st, bundled, Some(c), best, cand)
        else best;
      Explore(st, bundled, p, nd, i + 1, best', cand)
  }

  /** Every candidate is a path of arena positions. */
  predicate AllInRange(st: Store, cands: seq<seq<nat>>)
  {
    forall k :: 0 <= k < |cands| ==> InRange(st, cands[k])
  }

  /** Reference order of the search: every chain the DFS forms from `s`
      (prefixed by `path`), in the order it forms them. */
  function Candidates(st: Store, bundled: seq<bool>, s: nat, path: seq<nat>): (r: seq<seq<nat>>)
    requires Bucketed(st) && |bundled| == |st.shipments|
    requires s < |st.shipments| && InRange(st, path)
    ensures AllInRange(st, r)
    decreases Rank(st, Some(s)), 1, 0
  {
    if bundled[s] then []
    else
      var cand := path + [s];
      [cand] + match NextDay(st.shipments[s].day)
               case None => []
               case Some(nd) => ChildCandidates(st, bundled, s, nd, 0, cand)
  }

  /** The candidates formed below the children at positions `i..` of the bucket. */
  function ChildCandidates(st: Store, bundled: seq<bool>, p: nat, nd: Day, i: nat, cand: seq<nat>): (r: seq<seq<nat>>)
    requires Bucketed(st) && |bundled| == |st.shipments|
    requires p < |st.shipments| && NextDay(st.shipments[p].day) == Some(nd)
    requires i <= |st.byDay[nd]| && InRange(st, cand)
    ensures AllInRange(st, r)
    decreases Rank(st, Some(p)), 0, |st.byDay[nd]| - i
  {
    if i == |st.byDay[nd]| then []
    else
      var c := st.byDay[nd][i];
      NextDayIsSuccessor(st.shipments[p].day);
      (if IsValidChild(st.shipments[p], st.shipments[c]) && !bundled[c]
       then Candidates(st, bundled, c, cand) else [])
      + ChildCandidates(st, bundled, p, nd, i + 1, cand)
  }

  /** The running best over a list of candidates: a candidate replaces it
      only when strictly longer. */
  function FirstLongest(st: Store, best: seq<nat>, cands: seq<seq<nat>>): (r: seq<nat>)
    requires InRange(st, best) && AllInRange(st, cands)
    ensures InRange(st, r)
    decreases |cands|
  {
    if cands == [] then best
    else FirstLongest(st, if Len(st, cands[0]) > Len(st, best) then cands[0] else best, cands[1..])
  }

  /** The running best over two lists is the running best over the second,
      started from that over the first. */
  lemma {:induction false} FirstLongestAppend(st: Store, best: seq<nat>, a: seq<seq<nat>>, b: seq<seq<nat>>)
    requires InRange(st, best) && AllInRange(st, a) && AllInRange(st, b)
    ensures AllInRange(st, a + b)
    ensures FirstLongest(st, best, a + b) == FirstLongest(st, FirstLongest(st, best, a), b)
    decreases |a|
  {
    assert AllInRange(st, a + b) by {
      forall k | 0 <= k < |a + b| ensures InRange(st, (a + b)[k]) {
        if k < |a| { assert (a + b)[k] == a[k]; } else { assert (a + b)[k] == b[k - |a|]; }
      }
    }
    if a == [] {
      assert a + b == b;
    } else {
      var best' := if Len(st, a[0]) > Len(st, best) then a[0] else best;
      assert (a + b)[1..] == a[1..] + b;
      FirstLongestAppend(st, best', a[1..], b);
    }
  }

  /** The running best is at least as long as the start and every candidate. */
  lemma {:induction false} FirstLongestIsMaximum(st: Store, best: seq<nat>, cands: seq<seq<nat>>)
    requires InRange(st, best) && AllInRange(st, cands)
    ensures var r := FirstLongest(st, best, cands);
      && InRange(st, r)
      && Len(st, r) >= Len(st, best)
      && (forall k :: 0 <= k < |cands| ==> Len(st, cands[k]) <= Len(st, r))
    decreases |cands|
  {
    if cands != [] {
      var best' := if Len(st, cands[0]) > Len(st, best) then cands[0] else best;
      var rest := cands[1..];
      FirstLongestIsMaximum(st, best', rest);
      var r := FirstLongest(st, best, cands);
      assert r == FirstLongest(st, best', rest);
      forall k | 0 <= k < |cands| ensures Len(st, cands[k]) <= Len(st, r) {
        if k > 0 { assert cands[k] == rest[k - 1]; }
      }
    }
  }

  /** What the running best is: at least as long as the start and every
      candidate; either the start itself, beaten by no candidate, or the
      FIRST candidate of the greatest length, strictly longer than the start. */
  lemma {:induction false} FirstLongestIsFirstMaximum(st: Store, best: seq<nat>, cands: seq<seq<nat>>)
    requires InRange(st, best) && AllInRange(st, cands)
    ensures var r := FirstLongest(st, best, cands);
      && InRange(st, r)
      && Len(st, r) >= Len(st, best)
      && (forall k :: 0 <= k < |cands| ==> Len(st, cands[k]) <= Len(st, r))
      && ((r == best && forall k :: 0 <= k < |cands| ==> Len(st, cands[k]) <= Len(st, best))
          || exists k :: 0 <= k < |cands| && r == cands[k] && Len(st, best) < Len(st, r) &&
               forall j :: 0 <= j < k ==> Len(st, cands[j]) < Len(st, r))
    decreases |cands|
  {
    FirstLongestIsMaximum(st, best, cands);
    if cands != [] {
      var best' := if Len(st, cands[0]) > Len(st, best) then cands[0] else best;
      var rest := cands[1..];
      FirstLongestIsFirstMaximum(st, best', rest);
      var r := FirstLongest(st, best, cands);
      assert r == FirstLongest(st, best', rest);
      if r == best' && forall k :: 0 <= k < |rest| ==> Len(st, rest[k]) <= Len(st, best') {
        if best' != best {
          assert r == cands[0];
        }
      } else {
        var k' :| 0 <= k' < |rest| && r == rest[k'] && Len(st, best') < Len(st, r) &&
               forall j :: 0 <= j < k' ==> Len(st, rest[j]) < Len(st, r);
        FirstShift(st, cands, r, k');
      }
    }
  }

  /** A first maximum of the tail, longer than the head, is a first maximum
      of the whole list one position further on. */
  lemma FirstShift(st: Store, cands: seq<seq<nat>>, r: seq<nat>, k': nat)
    requires AllInRange(st, cands) && InRange(st, r) && k' + 1 < |cands| && r == cands[k' + 1]
    requires Len(st, cands[0]) < Len(st, r)
    requires forall j :: 0 <= j < k' ==> Len(st, cands[1..][j]) < Len(st, r)
    ensures forall j :: 0 <= j < k' + 1 ==> Len(st, cands[j]) < Len(st, r)
  {
    forall j | 0 <= j < k' + 1 ensures Len(st, cands[j]) < Len(st, r) {
      if j > 0 { assert cands[j] == cands[1..][j - 1]; }
    }
  }

  /** The search computes the running best over its candidates in DFS order. */
  lemma {:induction false} LongestIsFirstLongest(st: Store, bundled: seq<bool>, s: nat, best: seq<nat>, path: seq<nat>)
    requires Bucketed(st) && |bundled| == |st.shipments|
    requires s < |st.shipments| && InRange(st, best) && InRange(st, path)
    ensures Longest(st, bundled, Some(s), best, path) == FirstLongest(st, best, Candidates(st, bundled, s, path))
    decreases Rank(st, Some(s)), 1, 0
  {
    if !bundled[s] {
      var cand := path + [s];
      var best' := if Len(st, cand) > Len(st, best) then cand else best;
      var cs := Candidates(st, bundled, s, path);
      assert cs[0] == cand;
      match NextDay(st.shipments[s].day)
      case None =>
        assert cs == [cand];
      case Some(nd) =>
        assert cs[1..] == ChildCandidates(st, bundled, s, nd, 0, cand);
        ExploreIsFirstLongest(st, bundled, s, nd, 0, best', cand);
    }
  }

  /** The loop over the bucket computes the running best over the children's candidates. */
  lemma {:induction false} ExploreIsFirstLongest(st: Store, bundled: seq<bool>, p: nat, nd: Day, i: nat, best: seq<nat>, cand: seq<nat>)
    requires Bucketed(st) && |bundled| == |st.shipments|
    requires p < |st.shipments| && NextDay(st.shipments[p].day) == Some(nd)
    requires i <= |st.byDay[nd]|
    requires InRange(st, best) && InRange(st, cand)
    ensures Explore(st, bundled, p, nd, i, best, cand) == FirstLongest(st, best, ChildCandidates(st, bundled, p, nd, i, cand))
    decreases Rank(st, Some(p)), 0, |st.byDay[nd]| - i
  {
    if i < |st.byDay[nd]| {
      var c := st.byDay[nd][i];
      NextDayIsSuccessor(st.shipments[p].day);
      var valid := IsValidChild(st.shipments[p], st.shipments[c]) && !bundled[c];
      var y := if valid then Candidates(st, bundled, c, cand) else [];
      var z := ChildCandidates(st, bundled, p, nd, i + 1, cand);
      assert ChildCandidates(st, bundled, p, nd, i, cand) == y + z;
      FirstLongestAppend(st, best, y, z);
      var best' := if valid then Longest(st, bundled, Some(c), best, cand) else best;
      assert Explore(st, bundled, p, nd, i, best, cand) == Explore(st, bundled, p, nd, i + 1, best', cand);
      if valid {
        LongestIsFirstLongest(st, bundled, c, best, cand);
      }
      assert FirstLongest(st, best, y) == best';
      ExploreIsFirstLongest(st, bundled, p, nd, i + 1, best', cand);
    }
  }

  /** Every candidate is the path followed by a valid, unbundled chain from `s`. */
  lemma {:induction false} CandidatesSound(st: Store, bundled: seq<bool>, s: nat, path: seq<nat>, k: nat)
    requires Bucketed(st) && |bundled| == |st.shipments|
    requires s < |st.shipments| && InRange(st, path)
    requires k < |Candidates(st, bundled, s, path)|
    ensures Extends(st, bundled, s, path, Candidates(st, bundled, s, path)[k])
    decreases Rank(st, Some(s)), 1, 0
  {
    var cs := Candidates(st, bundled, s, path);
    var cand := path + [s];
    if k == 0 {
      assert cs[0] == cand;
      assert cand[..|path|] == path && cand[|path|..] == [s];
    } else {
      match NextDay(st.shipments[s].day)
      case None =>
        assert false;
      case Some(nd) =>
        var rest := ChildCandidates(st, bundled, s, nd, 0, cand);
        assert cs == [cand] + rest;
        assert cs[k] == rest[k - 1];
        ChildCandidatesSound(st, bundled, s, nd, 0, cand, k - 1);
        ExtendsCons(st, bundled, s, path, cs[k]);
    }
  }

  /** Every candidate below the bucket is `cand` followed by a chain from a
      valid child of `p`. */
  lemma {:induction false} ChildCandidatesSound(st: Store, bundled: seq<bool>, p: nat, nd: Day, i: nat, cand: seq<nat>, k: nat)
    requires Bucketed(st) && |bundled| == |st.shipments|
    requires p < |st.shipments| && NextDay(st.shipments[p].day) == Some(nd)
    requires i <= |st.byDay[nd]| && InRange(st, cand)
    requires k < |ChildCandidates(st, bundled, p, nd, i, cand)|
    ensures var e := ChildCandidates(st, bundled, p, nd, i, cand)[k];
      |e| > |cand| && Extends(st, bundled, e[|cand|], cand, e) &&
      IsValidChild(st.shipments[p], st.shipments[e[|cand|]])
    decreases Rank(st, Some(p)), 0, |st.byDay[nd]| - i
  {
    var c := st.byDay[nd][i];
    NextDayIsSuccessor(st.shipments[p].day);
    var valid := IsValidChild(st.shipments[p], st.shipments[c]) && !bundled[c];
    var y := if valid then Candidates(st, bundled, c, cand) else [];
    var z := ChildCandidates(st, bundled, p, nd, i + 1, cand);
    var cs := ChildCandidates(st, bundled, p, nd, i, cand);
    assert cs == y + z;
    if k < |y| {
      assert cs[k] == y[k];
      CandidatesSound(st, bundled, c, cand, k);
      assert cs[k][|cand|..][0] == cs[k][|cand|];
    } else {
      assert cs[k] == z[k - |y|];
      ChildCandidatesSound(st, bundled, p, nd, i + 1, cand, k - |y|);
    }
  }

  /** Every valid, unbundled chain from `s` is among the candidates: the
      search misses none. */
  lemma {:induction false} CandidatesComplete(st: Store, bundled: seq<bool>, s: nat, path: seq<nat>, c: seq<nat>)
    requires Bucketed(st) && |bundled| == |st.shipments|
    requires Listed(st) && s < |st.shipments| && InRange(st, path)
    requires ChainFrom(st, bundled, s, c)
    ensures path + c in Candidates(st, bundled, s, path)
    decreases Rank(st, Some(s)), 1, 0
  {
    var cand := path + [s];
    var cs := Candidates(st, bundled, s, path);
    assert cs[0] == cand;
    if |c| == 1 {
      assert path + c == cand;
    } else {
      var tail := c[1..];
      ChainTail(st, bundled, s, c);
      var ch := c[1];
      var nd := st.shipments[ch].day;
      assert NextDay(st.shipments[s].day) == Some(nd);
      var k := BucketPosition(st, ch);
      ChildCandidatesComplete(st, bundled, s, nd, 0, cand, tail, k);
      ConsAssoc(path, c);
      var below := ChildCandidates(st, bundled, s, nd, 0, cand);
      assert cs == [cand] + below;
      assert cand + tail in below;
    }
  }

  /** A chain from the child at bucket position `k >= i` is among the
      candidates formed from position `i` on. */
  lemma {:induction false} ChildCandidatesComplete(st: Store, bundled: seq<bool>, p: nat, nd: Day, i: nat, cand: seq<nat>, tail: seq<nat>, k: nat)
    requires Bucketed(st) && |bundled| == |st.shipments|
    requires p < |st.shipments| && NextDay(st.shipments[p].day) == Some(nd)
    requires Listed(st) && i <= k < |st.byDay[nd]| && InRange(st, cand)
    requires |tail| > 0 && st.byDay[nd][k] == tail[0] && ChainFrom(st, bundled, tail[0], tail)
    requires IsValidChild(st.shipments[p], st.shipments[tail[0]])
    ensures cand + tail in ChildCandidates(st, bundled, p, nd, i, cand)
    decreases Rank(st, Some(p)), 0, |st.byDay[nd]| - i
  {
    var c := st.byDay[nd][i];
    NextDayIsSuccessor(st.shipments[p].day);
    var valid := IsValidChild(st.shipments[p], st.shipments[c]) && !bundled[c];
    var y := if valid then Candidates(st, bundled, c, cand) else [];
    var z := ChildCandidates(st, bundled, p, nd, i + 1, cand);
    assert ChildCandidates(st, bundled, p, nd, i, cand) == y + z;
    if i == k {
      CandidatesComplete(st, bundled, c, cand, tail);
    } else {
      ChildCandidatesComplete(st, bundled, p, nd, i + 1, cand, tail, k);
    }
  }

  /** `findLongestBundle` for any incoming best and path: an absent or
      bundled shipment returns the best unchanged; otherwise the best is kept
      or replaced by the path extended with a valid, unbundled chain from the
      shipment that renders strictly longer. */
  lemma LongestBestOrExtension(st: Store, bundled: seq<bool>, s: Option<nat>, best: seq<nat>, path: seq<nat>)
    requires Bucketed(st) && |bundled| == |st.shipments|
    requires s.Some? ==> s.value < |st.shipments|
    requires InRange(st, best) && InRange(st, path)
    ensures var r := Longest(st, bundled, s, best, path);
      && (s.None? || bundled[s.value] ==> r == best)
      && (r == best || (s.Some? && Len(st, r) > Len(st, best) && Extends(st, bundled, s.value, path, r)))
  {
    var r := Longest(st, bundled, s, best, path);
    if s.Some? && !bundled[s.value] {
      var cs := Candidates(st, bundled, s.value, path);
      LongestIsFirstLongest(st, bundled, s.value, best, path);
      FirstLongestIsFirstMaximum(st, best, cs);
      if r != best {
        var k :| 0 <= k < |cs| && r == cs[k] && Len(st, best) < Len(st, r);
        CandidatesSound(st, bundled, s.value, path, k);
      }
    }
  }

  /** No extension of the path by a valid, unbundled chain from the shipment
      renders longer than the result, and neither does the incoming best. */
  lemma LongestIsMaximal(st: Store, bundled: seq<bool>, s: nat, best: seq<nat>, path: seq<nat>, c: seq<nat>)
    requires Bucketed(st) && Listed(st) && |bundled| == |st.shipments|
    requires s < |st.shipments| && InRange(st, best) && InRange(st, path)
    requires ChainFrom(st, bundled, s, c)
    ensures var r := Longest(st, bundled, Some(s), best, path);
      InRange(st, path + c) && Len(st, path + c) <= Len(st, r) && Len(st, best) <= Len(st, r)
  {
    var cs := Candidates(st, bundled, s, path);
    LongestIsFirstLongest(st, bundled, s, best, path);
    FirstLongestIsFirstMaximum(st, best, cs);
    CandidatesComplete(st, bundled, s, path, c);
    var j :| 0 <= j < |cs| && cs[j] == path + c;
  }

  /** The call the driver makes, `findLongestBundle(s, "", "")` on an
      unbundled shipment, returns a valid chain of unbundled records
      starting at `s`, and no such chain renders longer. */
  lemma LongestFromStart(st: Store, bundled: seq<bool>, s: nat)
    requires Bucketed(st) && Listed(st) && |bundled| == |st.shipments|
    requires s < |st.shipments| && !bundled[s]
    ensures var r := Longest(st, bundled, Some(s), [], []);
      && ChainFrom(st, bundled, s, r)
      && (forall c :: ChainFrom(st, bundled, s, c) ==> Len(st, c) <= Len(st, r))
  {
    StartChain(st, bundled, s);
    StartMaximal(st, bundled, s);
  }

  lemma StartChain(st: Store, bundled: seq<bool>, s: nat)
    requires Bucketed(st) && Listed(st) && |bundled| == |st.shipments|
    requires s < |st.shipments| && !bundled[s]
    ensures ChainFrom(st, bundled, s, Longest(st, bundled, Some(s), [], []))
  {
    var r := Longest(st, bundled, Some(s), [], []);
    assert ChainFrom(st, bundled, s, [] + [s]);
    LongestIsMaximal(st, bundled, s, [], [], [] + [s]);
    LenSnoc(st, [], s);
    assert Len(st, r) > 0;
    LongestBestOrExtension(st, bundled, Some(s), [], []);
    assert Extends(st, bundled, s, [], r);
    assert r[0..] == r;
  }

  lemma StartMaximal(st: Store, bundled: seq<bool>, s: nat)
    requires Bucketed(st) && Listed(st) && |bundled| == |st.shipments|
    requires s < |st.shipments|
    ensures var r := Longest(st, bundled, Some(s), [], []);
      forall c :: ChainFrom(st, bundled, s, c) ==> InRange(st, c) && Len(st, c) <= Len(st, r)
  {
    var r := Longest(st, bundled, Some(s), [], []);
    forall c | ChainFrom(st, bundled, s, c) ensures InRange(st, c) && Len(st, c) <= Len(st, r) {
      LongestIsMaximal(st, bundled, s, [], [], c);
      assert [] + c == c;
    }
  }

  /** Among the chains that render as long as the result, the result is the
      first one the depth-first search forms (ties keep the earlier chain). */
  lemma LongestFromStartIsFirst(st: Store, bundled: seq<bool>, s: nat)
    requires Bucketed(st) && |bundled| == |st.shipments|
    requires s < |st.shipments| && !bundled[s]
    ensures var r := Longest(st, bundled, Some(s), [], []);
      var cs := Candidates(st, bundled, s, []);
      exists k :: 0 <= k < |cs| && cs[k] == r && forall j :: 0 <= j < k ==> Len(st, cs[j]) < Len(st, r)
  {
    var cs := Candidates(st, bundled, s, []);
    LongestIsFirstLongest(st, bundled, s, [], []);
    FirstLongestIsFirstMaximum(st, [], cs);
    CandidatesSound(st, bundled, s, [], 0);
  }
}
