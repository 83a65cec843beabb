/** `findAllBundles` as a specification: the days in order, each day's list
    in order, a search from every record not yet bundled, and the flags set
    through the ids read back from the rendered chain. */
module Driver {
  import opened Wrappers
  import opened Days
  import opened Text
  import opened ShipmentStore
  import opened Chains
  import opened Search

  /** The chains emitted by a stretch of the driver and the flags after it. */
  datatype Pass = Pass(bundles: seq<seq<nat>>, bundled: seq<bool>)

  /** The chains laid end to end. */
  function Flat<T>(bs: seq<seq<T>>): seq<T>
  {
    if bs == [] then [] else bs[0] + Flat(bs[1..])
  }

  lemma {:induction false} FlatAppend<T>(a: seq<seq<T>>, b: seq<seq<T>>)
    ensures Flat(a + b) == Flat(a) + Flat(b)
  {
    if a == [] {
      assert a + b == b;
    } else {
      var ab := a + b;
      assert ab[0] == a[0] && ab[1..] == a[1..] + b;
      FlatAppend(a[1..], b);
    }
  }

  /** The loop over `shipmentsInLongest`: the record each token names in
      `shipmentsByID` is flagged; a token that names no record is the
      `TypeError` the source throws, here `None`. */
  function MarkTokens(st: Store, bundled: seq<bool>, tokens: seq<string>): (r: Option<seq<bool>>)
    requires Keyed(st) && |bundled| == |st.shipments|
    ensures r.Some? ==> |r.value| == |bundled|
    decreases |tokens|
  {
    if tokens == [] then Some(bundled)
    else if tokens[0] !in st.byId then None
    else MarkTokens(st, bundled[st.byId[tokens[0]] := true], tokens[1..])
  }

  /** The marking fails exactly when some token is not an id; otherwise it
      flags exactly the records the tokens name and leaves every other flag
      as it was. */
  lemma {:induction false} MarkTokensFlags(st: Store, bundled: seq<bool>, tokens: seq<string>)
    requires Keyed(st) && |bundled| == |st.shipments|
    ensures var r := MarkTokens(st, bundled, tokens);
      && (r.Some? <==> forall k :: 0 <= k < |tokens| ==> tokens[k] in st.byId)
      && (r.Some? ==> forall x :: 0 <= x < |bundled| ==>
            (r.value[x] <==> bundled[x] || exists k :: 0 <= k < |tokens| && st.byId[tokens[k]] == x))
    decreases |tokens|
  {
    if tokens != [] && tokens[0] in st.byId {
      var b' := bundled[st.byId[tokens[0]] := true];
      var rest := tokens[1..];
      MarkTokensFlags(st, b', rest);
      var r := MarkTokens(st, b', rest);
      assert forall k :: 1 <= k < |tokens| ==> tokens[k] == rest[k - 1];
      if r.Some? {
        forall x | 0 <= x < |bundled|
          ensures r.value[x] <==> bundled[x] || exists k :: 0 <= k < |tokens| && st.byId[tokens[k]] == x
        {
          if exists k :: 0 <= k < |rest| && st.byId[rest[k]] == x {
            var k :| 0 <= k < |rest| && st.byId[rest[k]] == x;
            assert st.byId[tokens[k + 1]] == x;
          }
          if exists k :: 0 <= k < |tokens| && st.byId[tokens[k]] == x {
            var k :| 0 <= k < |tokens| && st.byId[tokens[k]] == x;
            if k > 0 {
              assert st.byId[rest[k - 1]] == x;
            }
          }
        }
      } else {
        var k :| 0 <= k < |rest| && rest[k] !in st.byId;
        assert tokens[k + 1] !in st.byId;
      }
    }
  }

  /** The inner loop over `shipmentsByDay[d]` from position `j` on. The
      search starts from the record `shipmentsByID` holds for the listed
      record's id; that record is skipped when already bundled. */
  function DriveBucket(st: Store, bundled: seq<bool>, d: Day, j: nat): (r: Option<Pass>)
    requires Bucketed(st) && Keyed(st) && |bundled| == |st.shipments|
    requires j <= |st.byDay[d]|
    ensures r.Some? ==> |r.value.bundled| == |bundled| && AllInRange(st, r.value.bundles)
    decreases |st.byDay[d]| - j
  {
    if j == |st.byDay[d]| then Some(Pass([], bundled))
    else
      StartInRange(st, d, j);
      var start := st.byId[st.shipments[st.byDay[d][j]].id];
      if bundled[start] then DriveBucket(st, bundled, d, j + 1)
      else
        var chain := Longest(st, bundled, Some(start), [], []);
        match MarkTokens(st, bundled, Split(Trim(Render(Ids(st, chain))), ' '))
        case None => None
        case Some(marked) =>
          match DriveBucket(st, marked, d, j + 1)
          case None => None
          case Some(rest) =>
            AllInRangeCons(st, chain, rest.bundles);
            Some(Pass([chain] + rest.bundles, rest.bundled))
  }

  /** The record the inner loop starts from is in the arena. */
  lemma StartInRange(st: Store, d: Day, j: nat)
    requires Bucketed(st) && Keyed(st) && j < |st.byDay[d]|
    ensures st.byDay[d][j] < |st.shipments|
    ensures st.shipments[st.byDay[d][j]].id in st.byId
    ensures st.byId[st.shipments[st.byDay[d][j]].id] < |st.shipments|
  {
  }

  lemma AllInRangeCons(st: Store, c: seq<nat>, rest: seq<seq<nat>>)
    requires InRange(st, c) && AllInRange(st, rest)
    ensures AllInRange(st, [c] + rest)
  {
    var cr := [c] + rest;
    assert forall k :: 1 <= k < |cr| ==> cr[k] == rest[k - 1];
  }

  /** The outer loop over `DAYS` from position `i` on. */
  function DriveDays(st: Store, bundled: seq<bool>, i: nat): (r: Option<Pass>)
    requires Bucketed(st) && Keyed(st) && |bundled| == |st.shipments|
    requires i <= |DAYS|
    ensures r.Some? ==> |r.value.bundled| == |bundled| && AllInRange(st, r.value.bundles)
    decreases |DAYS| - i
  {
    if i == |DAYS| then Some(Pass([], bundled))
    else
      match DriveBucket(st, bundled, DAYS[i], 0)
      case None => None
      case Some(first) =>
        match DriveDays(st, first.bundled, i + 1)
        case None => None
        case Some(later) => Some(Pass(first.bundles + later.bundles, later.bundled))
  }

  /** Every record starts unflagged. */
  function NoneBundled(n: nat): (b: seq<bool>)
    ensures |b| == n && forall x :: 0 <= x < n ==> !b[x]
  {
    seq(n, _ => false)
  }

  /** `findAllBundles` on a freshly parsed store. */
  function AllBundles(st: Store): Option<Pass>
    requires Bucketed(st) && Keyed(st)
  {
    DriveDays(st, NoneBundled(|st.shipments|), 0)
  }

  /** Every id survives the source's re-reading of a rendered chain. */
  ghost predicate AllTokens(st: Store)
  {
    forall i :: 0 <= i < |st.shipments| ==> IsToken(st.shipments[i].id)
  }

  /** No position occurs twice. */
  predicate Distinct(f: seq<nat>)
  {
    forall k, k' :: 0 <= k < k' < |f| ==> f[k] != f[k']
  }

  /** Each emitted bundle is a non-empty valid chain. */
  ghost predicate AllChains(st: Store, bs: seq<seq<nat>>)
  {
    forall q :: 0 <= q < |bs| ==> |bs[q]| > 0 && ValidChain(st, bs[q])
  }

  /** A stretch of the driver that starts with flags `b` and ends with
      flags `fin` emits `bs`: it only ever sets flags; what it emits are
      records unflagged at the start, each once; and the flags it sets are
      exactly those of the records it emits. */
  ghost predicate Consumes(b: seq<bool>, bs: seq<seq<nat>>, fin: seq<bool>)
  {
    var f := Flat<nat>(bs);
    && |fin| == |b|
    && (forall x :: 0 <= x < |b| && b[x] ==> fin[x])
    && (forall k :: 0 <= k < |f| ==> f[k] < |b| && !b[f[k]] && fin[f[k]])
    && Distinct(f)
    && (forall x :: 0 <= x < |b| && fin[x] && !b[x] ==> x in f)
  }

  lemma ConsumesNothing(b: seq<bool>)
    ensures Consumes(b, [], b)
  {
  }

  /** Two stretches one after the other make one stretch. */
  lemma ConsumesThen(b: seq<bool>, bs1: seq<seq<nat>>, b1: seq<bool>, bs2: seq<seq<nat>>, b2: seq<bool>)
    requires Consumes(b, bs1, b1) && Consumes(b1, bs2, b2)
    ensures Consumes(b, bs1 + bs2, b2)
  {
    FlatAppend(bs1, bs2);
    var f1, f2 := Flat<nat>(bs1), Flat<nat>(bs2);
    AppendMarks(b, b1, b2, f1, f2);
    AppendDistinct(b1, f1, f2);
    forall x | 0 <= x < |b| && b2[x] && !b[x] ensures x in f1 + f2 {
      if b1[x] {
        assert x in f1;
      } else {
        assert x in f2;
      }
    }
  }

  lemma AppendMarks(b: seq<bool>, b1: seq<bool>, b2: seq<bool>, f1: seq<nat>, f2: seq<nat>)
    requires |b1| == |b| && |b2| == |b|
    requires forall x :: 0 <= x < |b| && b1[x] ==> b2[x]
    requires forall k :: 0 <= k < |f1| ==> f1[k] < |b| && !b[f1[k]] && b1[f1[k]]
    requires forall k :: 0 <= k < |f2| ==> f2[k] < |b1| && !b1[f2[k]] && b2[f2[k]]
    requires forall x :: 0 <= x < |b| && b[x] ==> b1[x]
    ensures forall k :: 0 <= k < |f1 + f2| ==> (f1 + f2)[k] < |b| && !b[(f1 + f2)[k]] && b2[(f1 + f2)[k]]
  {
    var f := f1 + f2;
    forall k | 0 <= k < |f| ensures f[k] < |b| && !b[f[k]] && b2[f[k]] {
      if k >= |f1| {
        assert f[k] == f2[k - |f1|];
      }
    }
  }

  /** Records flagged by the first stretch are not reused by the second. */
  lemma AppendDistinct(b1: seq<bool>, f1: seq<nat>, f2: seq<nat>)
    requires Distinct(f1) && Distinct(f2)
    requires forall k :: 0 <= k < |f1| ==> f1[k] < |b1| && b1[f1[k]]
    requires forall k :: 0 <= k < |f2| ==> f2[k] < |b1| && !b1[f2[k]]
    ensures Distinct(f1 + f2)
  {
    var f := f1 + f2;
    forall k, k' | 0 <= k < k' < |f| ensures f[k] != f[k'] {
      if k < |f1| && k' >= |f1| {
        assert f[k'] == f2[k' - |f1|];
      } else if k >= |f1| {
        assert f[k] == f2[k - |f1|] && f[k'] == f2[k' - |f1|];
      }
    }
  }

  /** One emitted chain whose records, and only those, get flagged. */
  lemma ConsumesChain(b: seq<bool>, c: seq<nat>, marked: seq<bool>)
    requires Distinct(c) && Unbundled(b, c) && |marked| == |b|
    requires forall x :: 0 <= x < |b| ==> (marked[x] <==> b[x] || x in c)
    ensures Consumes(b, [c], marked)
  {
    FlatOne(c);
  }

  /** Flagging through the ids of a path, with unique ids, flags
      exactly the records on the path. */
  lemma {:induction false} MarkPath(st: Store, bundled: seq<bool>, p: seq<nat>)
    requires Keyed(st) && UniqueIds(st.shipments) && |bundled| == |st.shipments| && InRange(st, p)
    ensures var r := MarkTokens(st, bundled, Ids(st, p));
      r.Some? && forall x :: 0 <= x < |bundled| ==> (r.value[x] <==> bundled[x] || x in p)
    decreases |p|
  {
    if p != [] {
      KeyedUnique(st, p[0]);
      var b' := bundled[p[0] := true];
      assert Ids(st, p)[1..] == Ids(st, p[1..]);
      MarkPath(st, b', p[1..]);
      assert forall x :: x in p <==> x == p[0] || x in p[1..];
    }
  }

  /** One turn of the inner loop from an unbundled start: the chain emitted
      begins at the start, and exactly its records get flagged. */
  lemma EmitChain(st: Store, bundled: seq<bool>, start: nat)
    requires Bucketed(st) && Listed(st) && Keyed(st) && UniqueIds(st.shipments) && AllTokens(st)
    requires |bundled| == |st.shipments| && start < |st.shipments| && !bundled[start]
    ensures var chain := Longest(st, bundled, Some(start), [], []);
      var r := MarkTokens(st, bundled, Split(Trim(Render(Ids(st, chain))), ' '));
      && ChainFrom(st, bundled, start, chain)
      && r.Some? && Consumes(bundled, [chain], r.value)
  {
    var chain := Longest(st, bundled, Some(start), [], []);
    LongestFromStart(st, bundled, start);
    ChainShape(st, chain);
    var ids := Ids(st, chain);
    TokensRoundTrip(ids);
    MarkPath(st, bundled, chain);
    var r := MarkTokens(st, bundled, ids);
    ConsumesChain(bundled, chain, r.value);
  }

  lemma FlatOne<T>(c: seq<T>)
    ensures Flat([c]) == c
  {
    assert Flat([c]) == c + Flat<T>([]);
    assert c + [] == c;
  }

  lemma AllChainsAppend(st: Store, a: seq<seq<nat>>, b: seq<seq<nat>>)
    requires AllChains(st, a) && AllChains(st, b)
    ensures AllChains(st, a + b)
  {
    forall q | 0 <= q < |a + b| ensures |(a + b)[q]| > 0 && ValidChain(st, (a + b)[q]) {
      if q >= |a| {
        assert (a + b)[q] == b[q - |a|];
      }
    }
  }

  /** What the inner loop achieves from position `j` on. */
  ghost predicate BucketDone(st: Store, bundled: seq<bool>, d: Day, j: nat, r: Option<Pass>)
    requires Bucketed(st) && |bundled| == |st.shipments| && j <= |st.byDay[d]|
  {
    && r.Some?
    && Consumes(bundled, r.value.bundles, r.value.bundled)
    && AllChains(st, r.value.bundles)
    && forall k :: j <= k < |st.byDay[d]| ==> r.value.bundled[st.byDay[d][k]]
  }

  /** The inner loop never hits the `TypeError`, flags every record
      listed from position `j` on, and emits valid chains of records that
      were unflagged, each once, flagging exactly those. */
  lemma {:induction false} DriveBucketPartition(st: Store, bundled: seq<bool>, d: Day, j: nat)
    requires Bucketed(st) && Listed(st) && Keyed(st) && UniqueIds(st.shipments) && AllTokens(st)
    requires |bundled| == |st.shipments| && j <= |st.byDay[d]|
    ensures BucketDone(st, bundled, d, j, DriveBucket(st, bundled, d, j))
    decreases |st.byDay[d]| - j, 1
  {
    if j == |st.byDay[d]| {
      ConsumesNothing(bundled);
    } else {
      var start := st.byId[st.shipments[st.byDay[d][j]].id];
      KeyedUnique(st, st.byDay[d][j]);
      if bundled[start] {
        DriveBucketPartition(st, bundled, d, j + 1);
        SkipDone(st, bundled, d, j, DriveBucket(st, bundled, d, j + 1));
      } else {
        DriveBucketEmits(st, bundled, d, j);
      }
    }
  }

  /** Passing over a bundled record keeps what the rest of the loop achieves. */
  lemma SkipDone(st: Store, bundled: seq<bool>, d: Day, j: nat, r: Option<Pass>)
    requires Bucketed(st) && |bundled| == |st.shipments| && j < |st.byDay[d]|
    requires bundled[st.byDay[d][j]]
    requires BucketDone(st, bundled, d, j + 1, r)
    ensures BucketDone(st, bundled, d, j, r)
  {
  }

  /** The turn of the inner loop that emits a chain, and the rest of the loop. */
  lemma {:induction false} DriveBucketEmits(st: Store, bundled: seq<bool>, d: Day, j: nat)
    requires Bucketed(st) && Listed(st) && Keyed(st) && UniqueIds(st.shipments) && AllTokens(st)
    requires |bundled| == |st.shipments| && j < |st.byDay[d]|
    requires st.byId[st.shipments[st.byDay[d][j]].id] == st.byDay[d][j]
    requires !bundled[st.byDay[d][j]]
    ensures BucketDone(st, bundled, d, j, DriveBucket(st, bundled, d, j))
    decreases |st.byDay[d]| - j, 0
  {
    var start := st.byDay[d][j];
    var chain := Longest(st, bundled, Some(start), [], []);
    EmitChain(st, bundled, start);
    var marked := MarkTokens(st, bundled, Split(Trim(Render(Ids(st, chain))), ' ')).value;
    DriveBucketPartition(st, marked, d, j + 1);
    var rest := DriveBucket(st, marked, d, j + 1);
    EmitUnfold(st, bundled, d, j);
    EmitDone(st, bundled, d, j, chain, marked, rest);
  }

  /** The turn of the inner loop that emits a chain and goes on. */
  lemma EmitUnfold(st: Store, bundled: seq<bool>, d: Day, j: nat)
    requires Bucketed(st) && Keyed(st) && |bundled| == |st.shipments| && j < |st.byDay[d]|
    requires st.byId[st.shipments[st.byDay[d][j]].id] == st.byDay[d][j]
    requires !bundled[st.byDay[d][j]]
    ensures var chain := Longest(st, bundled, Some(st.byDay[d][j]), [], []);
      var m := MarkTokens(st, bundled, Split(Trim(Render(Ids(st, chain))), ' '));
      (m.Some? && DriveBucket(st, m.value, d, j + 1).Some?) ==>
        var rest := DriveBucket(st, m.value, d, j + 1).value;
        DriveBucket(st, bundled, d, j) == Some(Pass([chain] + rest.bundles, rest.bundled))
  {
  }

  /** A chain from the listed record at `j`, then the rest of the loop. */
  lemma EmitDone(st: Store, bundled: seq<bool>, d: Day, j: nat, chain: seq<nat>, marked: seq<bool>, r: Option<Pass>)
    requires Bucketed(st) && |bundled| == |st.shipments| && j < |st.byDay[d]|
    requires |chain| > 0 && ValidChain(st, chain) && chain[0] == st.byDay[d][j]
    requires Consumes(bundled, [chain], marked)
    requires BucketDone(st, marked, d, j + 1, r)
    ensures BucketDone(st, bundled, d, j, Some(Pass([chain] + r.value.bundles, r.value.bundled)))
  {
    ConsumesThen(bundled, [chain], marked, r.value.bundles, r.value.bundled);
    FlatOne(chain);
    assert chain[0] in Flat<nat>([chain]);
    AllChainsAppend(st, [chain], r.value.bundles);
  }

  /** What the outer loop achieves from day `i` on. */
  ghost predicate DaysDone(st: Store, bundled: seq<bool>, i: nat, r: Option<Pass>)
    requires |bundled| == |st.shipments|
  {
    && r.Some?
    && Consumes(bundled, r.value.bundles, r.value.bundled)
    && AllChains(st, r.value.bundles)
    && forall x :: 0 <= x < |st.shipments| && Ordinal(st.shipments[x].day) >= i ==> r.value.bundled[x]
  }

  /** The outer loop from day `i` on never hits the `TypeError`, flags
      every record of that day or later, and emits valid chains of records
      that were unflagged, each once, flagging exactly those. */
  lemma {:induction false} DriveDaysPartition(st: Store, bundled: seq<bool>, i: nat)
    requires Bucketed(st) && Listed(st) && Keyed(st) && UniqueIds(st.shipments) && AllTokens(st)
    requires |bundled| == |st.shipments| && i <= |DAYS|
    ensures DaysDone(st, bundled, i, DriveDays(st, bundled, i))
    decreases |DAYS| - i
  {
    if i == |DAYS| {
      ConsumesNothing(bundled);
    } else {
      DriveBucketPartition(st, bundled, DAYS[i], 0);
      var first := DriveBucket(st, bundled, DAYS[i], 0);
      DriveDaysPartition(st, first.value.bundled, i + 1);
      var later := DriveDays(st, first.value.bundled, i + 1);
      DayDone(st, bundled, i, first, later);
    }
  }

  /** One day's list, then the later days. */
  lemma DayDone(st: Store, bundled: seq<bool>, i: nat, first: Option<Pass>, later: Option<Pass>)
    requires Bucketed(st) && Listed(st) && |bundled| == |st.shipments| && i < |DAYS|
    requires BucketDone(st, bundled, DAYS[i], 0, first)
    requires DaysDone(st, first.value.bundled, i + 1, later)
    ensures DaysDone(st, bundled, i, Some(Pass(first.value.bundles + later.value.bundles, later.value.bundled)))
  {
    var f, l := first.value, later.value;
    ConsumesThen(bundled, f.bundles, f.bundled, l.bundles, l.bundled);
    forall x | 0 <= x < |st.shipments| && Ordinal(st.shipments[x].day) >= i
      ensures l.bundled[x]
    {
      if Ordinal(st.shipments[x].day) == i {
        var k := BucketPosition(st, x);
      }
    }
    AllChainsAppend(st, f.bundles, l.bundles);
  }

  /** `f` without its element at position `p`. */
  lemma Without(f: seq<nat>, p: nat) returns (g: seq<nat>)
    requires p < |f|
    ensures |g| == |f| - 1
    ensures forall k :: 0 <= k < |g| ==> g[k] == f[if k < p then k else k + 1]
  {
    g := f[..p] + f[p + 1..];
  }

  /** Positions below `n`, none twice and none missing, number exactly `n`. */
  lemma {:induction false} DistinctCover(f: seq<nat>, n: nat)
    requires Distinct(f)
    requires forall k :: 0 <= k < |f| ==> f[k] < n
    requires forall x :: 0 <= x < n ==> x in f
    ensures |f| == n
    decreases n
  {
    if n > 0 {
      assert n - 1 in f;
      var p :| 0 <= p < |f| && f[p] == n - 1;
      var g := Without(f, p);
      forall k, k' | 0 <= k < k' < |g| ensures g[k] != g[k'] {
        var i := if k < p then k else k + 1;
        var i' := if k' < p then k' else k' + 1;
        assert g[k] == f[i] && g[k'] == f[i'] && i < i';
      }
      forall k | 0 <= k < |g| ensures g[k] < n - 1 {
        var i := if k < p then k else k + 1;
        assert g[k] == f[i] && i != p;
      }
      forall x | 0 <= x < n - 1 ensures x in g {
        assert x in f;
        var i :| 0 <= i < |f| && f[i] == x;
        var k := if i < p then i else i - 1;
        assert g[k] == x;
      }
      DistinctCover(g, n - 1);
    }
  }

  /** `findAllBundles` with unique ids that are tokens, on a store whose
      lists hold every record under its day: it never hits the
      `TypeError`; afterwards every record is flagged; every emitted bundle
      is a non-empty valid chain; and the bundles together hold each
      record exactly once. */
  lemma EveryRecordBundledOnce(st: Store)
    requires Bucketed(st) && Listed(st) && Keyed(st) && UniqueIds(st.shipments) && AllTokens(st)
    ensures var r := AllBundles(st);
      && r.Some?
      && (forall x :: 0 <= x < |st.shipments| ==> r.value.bundled[x])
      && AllChains(st, r.value.bundles)
      && var f := Flat(r.value.bundles);
         && |f| == |st.shipments| && InRange(st, f) && Distinct(f)
         && (forall x :: 0 <= x < |st.shipments| ==> x in f)
  {
    var b := NoneBundled(|st.shipments|);
    DriveDaysPartition(st, b, 0);
    var r := AllBundles(st).value;
    var f := Flat(r.bundles);
    assert forall x :: 0 <= x < |st.shipments| ==> r.bundled[x] && !b[x] by {
      forall x | 0 <= x < |st.shipments| ensures r.bundled[x] && !b[x] {
        assert Ordinal(st.shipments[x].day) >= 0;
      }
    }
    DistinctCover(f, |st.shipments|);
  }

  /** The ids of each emitted bundle. */
  function BundleIds(st: Store, bs: seq<seq<nat>>): (r: seq<seq<string>>)
    requires AllInRange(st, bs)
    ensures |r| == |bs| && forall q :: 0 <= q < |bs| ==> r[q] == Ids(st, bs[q])
  {
    seq(|bs|, q requires 0 <= q < |bs| => Ids(st, bs[q]))
  }

  /** Reading ids commutes with laying the bundles end to end. */
  lemma {:induction false} FlatIds(st: Store, bs: seq<seq<nat>>)
    requires AllInRange(st, bs)
    ensures InRange(st, Flat(bs)) && Flat(BundleIds(st, bs)) == Ids(st, Flat(bs))
  {
    if bs != [] {
      var t := bs[1..];
      FlatIds(st, t);
      assert BundleIds(st, bs)[1..] == BundleIds(st, t);
      var f := Flat(bs);
      assert f == bs[0] + Flat(t);
      assert Ids(st, f) == Ids(st, bs[0]) + Ids(st, Flat(t));
    }
  }

  /** With unique ids, distinct records have distinct ids. */
  lemma DistinctIds(st: Store, f: seq<nat>)
    requires UniqueIds(st.shipments) && InRange(st, f) && Distinct(f)
    ensures forall k, k' :: 0 <= k < k' < |f| ==> Ids(st, f)[k] != Ids(st, f)[k']
  {
    var used := Ids(st, f);
    forall k, k' | 0 <= k < k' < |f| ensures used[k] != used[k'] {
      if f[k] < f[k'] {
        assert st.shipments[f[k]].id != st.shipments[f[k']].id;
      } else {
        assert st.shipments[f[k']].id != st.shipments[f[k]].id;
      }
    }
  }

  /** Bundles that hold every record once use every id once. */
  lemma UsedIds(st: Store, bs: seq<seq<nat>>)
    requires UniqueIds(st.shipments) && AllChains(st, bs)
    requires var f := Flat(bs);
      && |f| == |st.shipments| && InRange(st, f) && Distinct(f)
      && (forall x :: 0 <= x < |st.shipments| ==> x in f)
    ensures var used := Flat(BundleIds(st, bs));
      && |used| == |st.shipments|
      && (forall i :: 0 <= i < |st.shipments| ==> st.shipments[i].id in used)
      && (forall k, k' :: 0 <= k < k' < |used| ==> used[k] != used[k'])
  {
    FlatIds(st, bs);
    var f := Flat(bs);
    var used := Flat(BundleIds(st, bs));
    forall i | 0 <= i < |st.shipments| ensures st.shipments[i].id in used {
      assert i in f;
      var k :| 0 <= k < |f| && f[k] == i;
      assert used[k] == st.shipments[i].id;
    }
    DistinctIds(st, f);
  }

  /** What the test reads off the output: with the store as above, the ids
      used across all bundles number as many as the input records, every
      record's id is among them, and none occurs twice. */
  lemma EveryIdUsedOnce(st: Store)
    requires Bucketed(st) && Listed(st) && Keyed(st) && UniqueIds(st.shipments) && AllTokens(st)
    ensures var r := AllBundles(st);
      && r.Some? && AllChains(st, r.value.bundles)
      && var used := Flat(BundleIds(st, r.value.bundles));
         && |used| == |st.shipments|
         && (forall i :: 0 <= i < |st.shipments| ==> st.shipments[i].id in used)
         && (forall k, k' :: 0 <= k < k' < |used| ==> used[k] != used[k'])
  {
    EveryRecordBundledOnce(st);
    UsedIds(st, AllBundles(st).value.bundles);
  }

  /** `x` comes before `y` in the driver's schedule: an earlier day, or the
      same day and inserted earlier. */
  predicate Before(st: Store, x: nat, y: nat)
    requires x < |st.shipments| && y < |st.shipments|
  {
    || Ordinal(st.shipments[x].day) < Ordinal(st.shipments[y].day)
    || (st.shipments[x].day == st.shipments[y].day && x < y)
  }

  /** Under the partition theorem's assumptions the inner loop completes. */
  lemma DriveBucketSome(st: Store, bundled: seq<bool>, d: Day, j: nat)
    requires Bucketed(st) && Listed(st) && Keyed(st) && UniqueIds(st.shipments) && AllTokens(st)
    requires |bundled| == |st.shipments| && j <= |st.byDay[d]|
    ensures DriveBucket(st, bundled, d, j).Some?
  {
    DriveBucketPartition(st, bundled, d, j);
  }

  /** The heads of the bundles emitted by the inner loop from position `j`
      on are records of day `d` listed there, in list order. */
  ghost predicate BucketHeads(st: Store, d: Day, j: nat, bs: seq<seq<nat>>)
    requires Bucketed(st) && j <= |st.byDay[d]|
  {
    && (forall q :: 0 <= q < |bs| ==>
          && |bs[q]| > 0 && bs[q][0] < |st.shipments| && st.shipments[bs[q][0]].day == d
          && j < |st.byDay[d]| && st.byDay[d][j] <= bs[q][0])
    && (forall q, q' :: 0 <= q < q' < |bs| ==> bs[q][0] < bs[q'][0])
  }

  lemma {:induction false} DriveBucketHeads(st: Store, bundled: seq<bool>, d: Day, j: nat)
    requires Bucketed(st) && Listed(st) && Keyed(st) && UniqueIds(st.shipments) && AllTokens(st)
    requires Ascending(st.byDay[d])
    requires |bundled| == |st.shipments| && j <= |st.byDay[d]|
    ensures var r := DriveBucket(st, bundled, d, j);
      r.Some? && BucketHeads(st, d, j, r.value.bundles)
    decreases |st.byDay[d]| - j, 1
  {
    DriveBucketSome(st, bundled, d, j);
    if j < |st.byDay[d]| {
      var start := st.byId[st.shipments[st.byDay[d][j]].id];
      KeyedUnique(st, st.byDay[d][j]);
      if bundled[start] {
        DriveBucketHeads(st, bundled, d, j + 1);
        if j + 1 < |st.byDay[d]| {
          assert st.byDay[d][j] < st.byDay[d][j + 1];
        }
      } else {
        DriveBucketHeadsEmits(st, bundled, d, j);
      }
    }
  }

  lemma {:induction false} DriveBucketHeadsEmits(st: Store, bundled: seq<bool>, d: Day, j: nat)
    requires Bucketed(st) && Listed(st) && Keyed(st) && UniqueIds(st.shipments) && AllTokens(st)
    requires Ascending(st.byDay[d])
    requires |bundled| == |st.shipments| && j < |st.byDay[d]|
    requires st.byId[st.shipments[st.byDay[d][j]].id] == st.byDay[d][j]
    requires !bundled[st.byDay[d][j]]
    ensures var r := DriveBucket(st, bundled, d, j);
      r.Some? && BucketHeads(st, d, j, r.value.bundles)
    decreases |st.byDay[d]| - j, 0
  {
    var start := st.byDay[d][j];
    var chain := Longest(st, bundled, Some(start), [], []);
    EmitStarts(st, bundled, start);
    var marked := MarkTokens(st, bundled, Split(Trim(Render(Ids(st, chain))), ' ')).value;
    DriveBucketHeads(st, marked, d, j + 1);
    var rest := DriveBucket(st, marked, d, j + 1).value.bundles;
    EmitUnfold(st, bundled, d, j);
    if j + 1 < |st.byDay[d]| {
      assert st.byDay[d][j] < st.byDay[d][j + 1];
    }
    HeadsCons(st, d, j, chain, rest);
  }

  /** The chain emitted from an unbundled start begins there, and the
      marking after it succeeds. */
  lemma EmitStarts(st: Store, bundled: seq<bool>, start: nat)
    requires Bucketed(st) && Listed(st) && Keyed(st) && UniqueIds(st.shipments) && AllTokens(st)
    requires |bundled| == |st.shipments| && start < |st.shipments| && !bundled[start]
    ensures var chain := Longest(st, bundled, Some(start), [], []);
      && |chain| > 0 && chain[0] == start
      && MarkTokens(st, bundled, Split(Trim(Render(Ids(st, chain))), ' ')).Some?
  {
    EmitChain(st, bundled, start);
  }

  lemma HeadsCons(st: Store, d: Day, j: nat, chain: seq<nat>, rest: seq<seq<nat>>)
    requires Bucketed(st) && j < |st.byDay[d]|
    requires |chain| > 0 && chain[0] == st.byDay[d][j]
    requires BucketHeads(st, d, j + 1, rest)
    requires j + 1 < |st.byDay[d]| ==> st.byDay[d][j] < st.byDay[d][j + 1]
    ensures BucketHeads(st, d, j, [chain] + rest)
  {
    var bs := [chain] + rest;
    forall q | 0 < q < |bs| ensures bs[q] == rest[q - 1] && st.byDay[d][j] < bs[q][0] {
    }
  }

  /** The heads of the bundles emitted from day `i` on lie on that day or
      later, in schedule order. */
  ghost predicate DaysHeads(st: Store, i: nat, bs: seq<seq<nat>>)
  {
    && (forall q :: 0 <= q < |bs| ==> |bs[q]| > 0 && bs[q][0] < |st.shipments| && Ordinal(st.shipments[bs[q][0]].day) >= i)
    && (forall q, q' :: 0 <= q < q' < |bs| ==> Before(st, bs[q][0], bs[q'][0]))
  }

  lemma {:induction false} DriveDaysHeads(st: Store, bundled: seq<bool>, i: nat)
    requires Bucketed(st) && Listed(st) && Keyed(st) && UniqueIds(st.shipments) && AllTokens(st)
    requires InInsertionOrder(st)
    requires |bundled| == |st.shipments| && i <= |DAYS|
    ensures var r := DriveDays(st, bundled, i);
      r.Some? && DaysHeads(st, i, r.value.bundles)
    decreases |DAYS| - i
  {
    if i < |DAYS| {
      assert Ascending(st.byDay[DAYS[i]]);
      DriveBucketHeads(st, bundled, DAYS[i], 0);
      var first := DriveBucket(st, bundled, DAYS[i], 0).value;
      DriveDaysHeads(st, first.bundled, i + 1);
      var later := DriveDays(st, first.bundled, i + 1).value.bundles;
      DaysHeadsAppend(st, i, first.bundles, later);
    }
  }

  lemma DaysHeadsAppend(st: Store, i: nat, a: seq<seq<nat>>, b: seq<seq<nat>>)
    requires Bucketed(st) && i < |DAYS| && DaysHeads(st, i + 1, b)
    requires BucketHeads(st, DAYS[i], 0, a)
    ensures DaysHeads(st, i, a + b)
  {
    var bs := a + b;
    forall q | 0 <= q < |bs| ensures |bs[q]| > 0 && bs[q][0] < |st.shipments| && Ordinal(st.shipments[bs[q][0]].day) >= i {
      if q >= |a| {
        assert bs[q] == b[q - |a|];
      }
    }
    forall q, q' | 0 <= q < q' < |bs| ensures Before(st, bs[q][0], bs[q'][0]) {
      if q' < |a| {
      } else if q < |a| {
        assert bs[q'] == b[q' - |a|];
      } else {
        assert bs[q] == b[q - |a|] && bs[q'] == b[q' - |a|];
      }
    }
  }

  /** Bundles are emitted in schedule order: by the day of their first
      record, and within a day by that record's place in the input. */
  lemma BundlesInScheduleOrder(st: Store)
    requires Bucketed(st) && Listed(st) && Keyed(st) && UniqueIds(st.shipments) && AllTokens(st)
    requires InInsertionOrder(st)
    ensures var r := AllBundles(st);
      && r.Some?
      && (forall q :: 0 <= q < |r.value.bundles| ==> |r.value.bundles[q]| > 0 && r.value.bundles[q][0] < |st.shipments|)
      && forall q, q' :: 0 <= q < q' < |r.value.bundles| ==> Before(st, r.value.bundles[q][0], r.value.bundles[q'][0])
  {
    DriveDaysHeads(st, NoneBundled(|st.shipments|), 0);
  }

  /** `allBundles`: starting from the empty string, a space and then the
      rendered bundle are appended for each bundle. */
  function OutputText(idss: seq<seq<string>>): string
  {
    if idss == [] then "" else OutputText(idss[..|idss| - 1]) + " " + Render(idss[|idss| - 1])
  }

  /** The pieces `allBundles` splits into at spaces: a leading empty piece,
      then for each bundle an empty piece followed by its ids. */
  function Pieces(idss: seq<seq<string>>): (r: seq<string>)
    ensures |r| >= 1
  {
    if idss == [] then [""] else Pieces(idss[..|idss| - 1]) + [""] + idss[|idss| - 1]
  }

  lemma {:induction false} OutputIsJoin(idss: seq<seq<string>>)
    ensures OutputText(idss) == Join(Pieces(idss), ' ')
  {
    if idss != [] {
      var init, last := idss[..|idss| - 1], idss[|idss| - 1];
      OutputIsJoin(init);
      assert OutputText(idss) == OutputText(init) + " " + Render(last);
      assert Pieces(idss) == Pieces(init) + [""] + last;
      JoinPiece(Pieces(init), last);
    }
  }

  /** Appending an empty piece and a bundle's ids to the pieces appends a
      space and the rendered bundle to their join. */
  lemma JoinPiece(p: seq<string>, last: seq<string>)
    requires |p| >= 1
    ensures Join(p + [""] + last, ' ') == Join(p, ' ') + " " + Render(last)
  {
    JoinSnoc(p, "", ' ');
    if last == [] {
      assert p + [""] + last == p + [""];
    } else {
      RenderIsJoin(last);
      JoinAppend(p + [""], last, ' ');
    }
  }

  lemma {:induction false} PiecesNoSpace(idss: seq<seq<string>>)
    requires forall q, k :: 0 <= q < |idss| && 0 <= k < |idss[q]| ==> ' ' !in idss[q][k]
    ensures forall k :: 0 <= k < |Pieces(idss)| ==> ' ' !in Pieces(idss)[k]
  {
    if idss != [] {
      var init, last := idss[..|idss| - 1], idss[|idss| - 1];
      assert forall q :: 0 <= q < |init| ==> init[q] == idss[q];
      PiecesNoSpace(init);
      var p := Pieces(init);
      var r := p + [""] + last;
      forall k | 0 <= k < |r| ensures ' ' !in r[k] {
        if k < |p| {
          assert r[k] == p[k];
        } else if k > |p| {
          assert r[k] == last[k - |p| - 1];
        }
      }
    }
  }

  lemma {:induction false} PiecesTokens(idss: seq<seq<string>>)
    requires forall q, k :: 0 <= q < |idss| && 0 <= k < |idss[q]| ==> idss[q][k] != ""
    ensures NonEmpty(Pieces(idss)) == Flat(idss)
  {
    if idss != [] {
      var init, last := idss[..|idss| - 1], idss[|idss| - 1];
      assert forall q :: 0 <= q < |init| ==> init[q] == idss[q];
      PiecesTokens(init);
      PiecesStep(Pieces(init), last);
      FlatSnoc(init, last);
      assert init + [last] == idss;
    }
  }

  /** An empty piece and a bundle's ids after the earlier pieces. */
  lemma PiecesStep(p: seq<string>, last: seq<string>)
    requires forall k :: 0 <= k < |last| ==> last[k] != ""
    ensures NonEmpty(p + [""] + last) == NonEmpty(p) + last
  {
    var a := p + [""];
    NonEmptyAppend(a, last);
    NonEmptyAppend(p, [""]);
    NonEmptyKeeps(last);
    NonEmptyBlank();
    var q := NonEmpty(p);
    assert q + [] == q;
  }

  lemma NonEmptyBlank()
    ensures NonEmpty([""]) == []
  {
    assert [""][1..] == [];
  }

  lemma FlatSnoc<T>(init: seq<seq<T>>, last: seq<T>)
    ensures Flat(init + [last]) == Flat(init) + last
  {
    FlatAppend(init, [last]);
    FlatOne(last);
  }

  /** What the test sees when it splits the output at spaces and skips the
      empty pieces: exactly the ids of the bundles, in order. */
  lemma OutputTokens(idss: seq<seq<string>>)
    requires forall q, k :: 0 <= q < |idss| && 0 <= k < |idss[q]| ==> IsToken(idss[q][k])
    ensures NonEmpty(Split(OutputText(idss), ' ')) == Flat(idss)
  {
    OutputIsJoin(idss);
    PiecesNoSpace(idss);
    PiecesTokens(idss);
    SplitJoin(Pieces(idss), ' ');
  }

  /** The test's view of `findAllBundles`: the non-empty pieces of the
      output number as many as the input records, include every record's
      id, and never repeat. */
  lemma OutputUsesEveryIdOnce(st: Store)
    requires Bucketed(st) && Listed(st) && Keyed(st) && UniqueIds(st.shipments) && AllTokens(st)
    ensures var r := AllBundles(st);
      && r.Some? && AllChains(st, r.value.bundles)
      && var used := NonEmpty(Split(OutputText(BundleIds(st, r.value.bundles)), ' '));
         && |used| == |st.shipments|
         && (forall i :: 0 <= i < |st.shipments| ==> st.shipments[i].id in used)
         && (forall k, k' :: 0 <= k < k' < |used| ==> used[k] != used[k'])
  {
    EveryIdUsedOnce(st);
    var idss := BundleIds(st, AllBundles(st).value.bundles);
    forall q, k | 0 <= q < |idss| && 0 <= k < |idss[q]| ensures IsToken(idss[q][k]) {
      assert idss[q][k] == st.shipments[AllBundles(st).value.bundles[q][k]].id;
    }
    OutputTokens(idss);
  }

  /** The chains `acc` emitted before a stretch, followed by the stretch. */
  function Then(acc: seq<seq<nat>>, r: Option<Pass>): Option<Pass>
  {
    match r
    case None => None
    case Some(p) => Some(Pass(acc + p.bundles, p.bundled))
  }

  lemma ThenThen(a: seq<seq<nat>>, b: seq<seq<nat>>, r: Option<Pass>)
    ensures Then(a, Then(b, r)) == Then(a + b, r)
  {
    if r.Some? {
      assert a + (b + r.value.bundles) == (a + b) + r.value.bundles;
    }
  }

  lemma ThenNothing(r: Option<Pass>)
    ensures Then([], r) == r
  {
    if r.Some? {
      assert [] + r.value.bundles == r.value.bundles;
    }
  }

  /** The days loop from day `i`: that day's list, then the later days. */
  lemma DayStep(st: Store, bundled: seq<bool>, i: nat)
    requires Bucketed(st) && Keyed(st) && |bundled| == |st.shipments| && i < |DAYS|
    ensures DriveDays(st, bundled, i) ==
      match DriveBucket(st, bundled, DAYS[i], 0)
      case None => None
      case Some(p) => Then(p.bundles, DriveDays(st, p.bundled, i + 1))
  {
  }

  /** The end of a day's list emits nothing and changes no flag. */
  lemma BucketEnds(st: Store, bundled: seq<bool>, d: Day)
    requires Bucketed(st) && Keyed(st) && |bundled| == |st.shipments|
    ensures DriveBucket(st, bundled, d, |st.byDay[d]|) == Some(Pass([], bundled))
  {
  }

  /** A listed record whose id's record is bundled is passed over. */
  lemma BucketSkips(st: Store, bundled: seq<bool>, d: Day, j: nat)
    requires Bucketed(st) && Keyed(st) && |bundled| == |st.shipments|
    requires j < |st.byDay[d]|
    requires bundled[st.byId[st.shipments[st.byDay[d][j]].id]]
    ensures DriveBucket(st, bundled, d, j) == DriveBucket(st, bundled, d, j + 1)
  {
  }

  /** An unbundled one emits its longest chain and flags the chain's tokens;
      an unknown token ends the run. */
  lemma BucketEmits(st: Store, bundled: seq<bool>, d: Day, j: nat)
    requires Bucketed(st) && Keyed(st) && |bundled| == |st.shipments|
    requires j < |st.byDay[d]|
    requires !bundled[st.byId[st.shipments[st.byDay[d][j]].id]]
    ensures var start := st.byId[st.shipments[st.byDay[d][j]].id];
      var chain := Longest(st, bundled, Some(start), [], []);
      DriveBucket(st, bundled, d, j) ==
        match MarkTokens(st, bundled, Split(Trim(Render(Ids(st, chain))), ' '))
        case None => None
        case Some(marked) => Then([chain], DriveBucket(st, marked, d, j + 1))
  {
  }

  /** Flagging the record of one token, then the rest. */
  lemma MarkStep(st: Store, bundled: seq<bool>, tokens: seq<string>, k: nat)
    requires Keyed(st) && |bundled| == |st.shipments| && k < |tokens|
    ensures MarkTokens(st, bundled, tokens[k..]) ==
      if tokens[k] !in st.byId then None
      else MarkTokens(st, bundled[st.byId[tokens[k]] := true], tokens[k + 1..])
  {
    assert tokens[k..][1..] == tokens[k + 1..];
  }

  /** Marking `a + c` is marking `a` and then, unless that fails, `c`. */
  lemma {:induction false} MarkAppend(st: Store, bundled: seq<bool>, a: seq<string>, c: seq<string>)
    requires Keyed(st) && |bundled| == |st.shipments|
    ensures MarkTokens(st, bundled, a + c) ==
      match MarkTokens(st, bundled, a)
      case None => None
      case Some(m) => MarkTokens(st, m, c)
    decreases |a|
  {
    if a == [] {
      assert a + c == c;
    } else {
      assert (a + c)[0] == a[0] && (a + c)[1..] == a[1..] + c;
      if a[0] in st.byId {
        MarkAppend(st, bundled[st.byId[a[0]] := true], a[1..], c);
      }
    }
  }

  /** One more token, naming a record, flags that record after the prefix. */
  lemma MarkSnoc(st: Store, bundled: seq<bool>, tokens: seq<string>, k: nat, marked: seq<bool>)
    requires Keyed(st) && |bundled| == |st.shipments| && k < |tokens| && tokens[k] in st.byId
    requires MarkTokens(st, bundled, tokens[..k]) == Some(marked)
    ensures MarkTokens(st, bundled, tokens[..k + 1]) == Some(marked[st.byId[tokens[k]] := true])
  {
    assert tokens[..k + 1] == tokens[..k] + [tokens[k]];
    MarkAppend(st, bundled, tokens[..k], [tokens[k]]);
    assert [tokens[k]][1..] == [];
  }

  /** Emitting one more bundle appends it to the ids and to the text. */
  lemma EmitOne(st: Store, acc: seq<seq<nat>>, chain: seq<nat>)
    requires AllInRange(st, acc) && InRange(st, chain)
    ensures AllInRange(st, acc + [chain])
    ensures BundleIds(st, acc + [chain]) == BundleIds(st, acc) + [Ids(st, chain)]
    ensures OutputText(BundleIds(st, acc + [chain])) == OutputText(BundleIds(st, acc)) + " " + Render(Ids(st, chain))
  {
    var out := BundleIds(st, acc) + [Ids(st, chain)];
    assert BundleIds(st, acc + [chain]) == out;
    assert out[..|out| - 1] == BundleIds(st, acc);
  }
}
