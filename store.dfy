/** Shipment records and the two indexes over them: `shipmentsByID` and
    `shipmentsByDay`. Records live once, in insertion order, in an arena
    (`shipments`); both indexes hold arena positions, so a flag set through
    one index is seen through the other. */
module ShipmentStore {
  import opened Days

  /** One day's leg. The mutable `bundled` flag is kept beside the arena
      (see the `Bundler` class), not inside the record. */
  datatype Shipment = Shipment(id: string, start: string, finish: string, day: Day)

  /** `isValidChild(parent, child)`: the days are consecutive and the parent
      finishes where the child starts (exact string equality). */
  predicate IsValidChild(parent: Shipment, child: Shipment)
  {
    DaysAreConsecutive(parent.day, child.day) && parent.finish == child.start
  }

  /** A valid child lies exactly one day later, so a child is never its own
      parent's parent. */
  lemma ChildIsNextDay(parent: Shipment, child: Shipment)
    requires IsValidChild(parent, child)
    ensures Ordinal(child.day) == Ordinal(parent.day) + 1
    ensures parent.day != F && !IsValidChild(child, parent)
  {
  }

  /** The four cases of the test suite: the good pair, then the child moved to
      Wednesday, starting in Chicago, or on the same day. */
  lemma ValidChildCases()
    ensures var parent := Shipment("1", "CHICAGO", "SEATTLE", M);
      && IsValidChild(parent, Shipment("2", "SEATTLE", "SAN_FRANCISCO", T))
      && !IsValidChild(parent, Shipment("2", "SEATTLE", "SAN_FRANCISCO", W))
      && !IsValidChild(parent, Shipment("2", "CHICAGO", "SAN_FRANCISCO", T))
      && !IsValidChild(parent, Shipment("2", "SEATTLE", "SAN_FRANCISCO", M))
  {
  }

  /** The store as the engine sees it: the arena and the two indexes. */
  datatype Store = Store(shipments: seq<Shipment>, byId: map<string, nat>, byDay: map<Day, seq<nat>>)

  /** `shipmentsByID` after inserting `ss` in order: each id names the LAST
      record inserted with it, since a later insertion overwrites. */
  function IdIndex(ss: seq<Shipment>): (r: map<string, nat>)
    ensures forall id :: id in r ==> r[id] < |ss| && ss[r[id]].id == id
    ensures forall i :: 0 <= i < |ss| ==> ss[i].id in r && i <= r[ss[i].id]
  {
    if ss == [] then map[]
    else
      var init := ss[..|ss| - 1];
      assert forall i :: 0 <= i < |init| ==> init[i] == ss[i];
      IdIndex(init)[ss[|ss| - 1].id := |ss| - 1]
  }

  /** `shipmentsByDay[d]` after inserting `ss` in order: the positions of the
      records on day `d` (in insertion order, by `DayIndicesAscending`). */
  function DayIndices(ss: seq<Shipment>, d: Day): (r: seq<nat>)
    ensures forall k :: 0 <= k < |r| ==> r[k] < |ss| && ss[r[k]].day == d
    ensures forall i {:trigger i in r} :: 0 <= i < |ss| && ss[i].day == d ==> i in r
  {
    if ss == [] then []
    else DayIndices(ss[..|ss| - 1], d) + (if ss[|ss| - 1].day == d then [|ss| - 1] else [])
  }

  /** Each push goes at the end, after every position pushed before it, so
      a day's list is in insertion order. */
  lemma {:induction false} DayIndicesAscending(ss: seq<Shipment>, d: Day)
    ensures Ascending(DayIndices(ss, d))
    decreases |ss|
  {
    if ss != [] {
      DayIndicesAscending(ss[..|ss| - 1], d);
    }
  }

  /** Both indexes are exactly those built by inserting the arena in order. */
  ghost predicate Indexed(st: Store)
  {
    && st.byId == IdIndex(st.shipments)
    && (forall d: Day :: d in st.byDay && st.byDay[d] == DayIndices(st.shipments, d))
  }

  /** What the search needs of `shipmentsByDay` to run: a list for every
      day, and the records listed there are on that day. */
  ghost predicate Bucketed(st: Store)
  {
    && (forall d: Day :: d in st.byDay)
    && (forall d: Day, k :: d in st.byDay && 0 <= k < |st.byDay[d]| ==>
          st.byDay[d][k] < |st.shipments| && st.shipments[st.byDay[d][k]].day == d)
  }

  /** What the search needs to see every record: each one is listed under its day. */
  ghost predicate Listed(st: Store)
    requires Bucketed(st)
  {
    forall i :: 0 <= i < |st.shipments| ==> i in st.byDay[st.shipments[i].day]
  }

  /** The place of a record in its day's list. */
  lemma BucketPosition(st: Store, i: nat) returns (k: nat)
    requires Bucketed(st) && Listed(st) && i < |st.shipments|
    ensures var d := st.shipments[i].day; k < |st.byDay[d]| && st.byDay[d][k] == i
  {
    var d := st.shipments[i].day;
    assert i in st.byDay[d];
    k :| 0 <= k < |st.byDay[d]| && st.byDay[d][k] == i;
  }

  /** What the driver needs of `shipmentsByID`: every record's id is a key,
      and every key names a record with that id. */
  ghost predicate Keyed(st: Store)
  {
    && (forall id :: id in st.byId ==> st.byId[id] < |st.shipments| && st.shipments[st.byId[id]].id == id)
    && (forall i :: 0 <= i < |st.shipments| ==> st.shipments[i].id in st.byId)
  }

  /** Arena positions in strictly increasing order. */
  predicate Ascending(s: seq<nat>)
  {
    forall k, k' :: 0 <= k < k' < |s| ==> s[k] < s[k']
  }

  /** Each day's list is in insertion (arena) order. */
  ghost predicate InInsertionOrder(st: Store)
    requires Bucketed(st)
  {
    forall d: Day :: Ascending(st.byDay[d])
  }

  /** The indexes built by insertion have all the properties the engine relies on. */
  lemma IndexedProperties(st: Store)
    requires Indexed(st)
    ensures Bucketed(st) && Listed(st) && Keyed(st) && InInsertionOrder(st)
  {
    forall d: Day ensures Ascending(st.byDay[d]) {
      DayIndicesAscending(st.shipments, d);
    }
  }

  /** With unique ids the record reached through `shipmentsByID` is the one
      the id came from. */
  lemma KeyedUnique(st: Store, i: nat)
    requires Keyed(st) && UniqueIds(st.shipments) && i < |st.shipments|
    ensures st.byId[st.shipments[i].id] == i
  {
    var j := st.byId[st.shipments[i].id];
    assert st.shipments[j].id == st.shipments[i].id;
  }

  /** Every day has a list. */
  predicate HasDays(st: Store)
  {
    forall d: Day :: d in st.byDay
  }

  /** The store with no records: every day's list exists and is empty. */
  function Empty(): Store
  {
    Store([], map[], map[M := [], T := [], W := [], R := [], F := []])
  }

  /** The empty store's indexes are those of the empty arena. */
  lemma EmptyIndexed()
    ensures Indexed(Empty()) && Empty().shipments == []
  {
    var st := Empty();
    forall d: Day ensures d in st.byDay && st.byDay[d] == DayIndices([], d) {
      match d
      case M =>
      case T =>
      case W =>
      case R =>
      case F =>
    }
  }

  /** One pass of the loop body of `parseInputShipments`: the record is
      appended, its id is pointed at it, and its position is pushed onto
      its day's list. */
  function Insert(st: Store, s: Shipment): (r: Store)
    requires HasDays(st)
    ensures HasDays(r)
  {
    var i := |st.shipments|;
    Store(st.shipments + [s], st.byId[s.id := i], st.byDay[s.day := st.byDay[s.day] + [i]])
  }

  /** A store with one more record has the indexes of the old one, with the
      new id pointing to it and its position pushed onto its day's list. */
  lemma IndexedInsert(st: Store, s: Shipment)
    requires Indexed(st)
    ensures Indexed(Insert(st, s)) && Insert(st, s).shipments == st.shipments + [s]
  {
    var ss := st.shipments + [s];
    var i := |st.shipments|;
    assert ss[..|ss| - 1] == st.shipments;
    assert IdIndex(ss) == st.byId[s.id := i];
    var byDay := st.byDay[s.day := st.byDay[s.day] + [i]];
    forall d: Day
      ensures d in byDay && byDay[d] == DayIndices(ss, d)
    {
      assert DayIndices(ss, d) == DayIndices(st.shipments, d) + (if s.day == d then [i] else []);
    }
  }

  /** The records inserted one after the other. */
  function InsertAll(st: Store, ss: seq<Shipment>): (r: Store)
    requires HasDays(st)
    ensures HasDays(r)
    decreases |ss|
  {
    if ss == [] then st else Insert(InsertAll(st, ss[..|ss| - 1]), ss[|ss| - 1])
  }

  /** Inserting keeps the indexes exact, so after any number of insertions
      they are those built from the whole arena. */
  lemma {:induction false} InsertAllIndexed(st: Store, ss: seq<Shipment>)
    requires Indexed(st)
    ensures Indexed(InsertAll(st, ss)) && InsertAll(st, ss).shipments == st.shipments + ss
    decreases |ss|
  {
    if ss != [] {
      var init := ss[..|ss| - 1];
      var before := InsertAll(st, init);
      InsertAllIndexed(st, init);
      IndexedInsert(before, ss[|ss| - 1]);
      assert InsertAll(st, ss) == Insert(before, ss[|ss| - 1]);
      AppendLast(st.shipments, ss);
    }
  }

  lemma AppendLast<T>(a: seq<T>, b: seq<T>)
    requires |b| > 0
    ensures (a + b[..|b| - 1]) + [b[|b| - 1]] == a + b
  {
    assert b[..|b| - 1] + [b[|b| - 1]] == b;
  }

  /** No two records share an id. */
  predicate UniqueIds(ss: seq<Shipment>)
  {
    forall i, j :: 0 <= i < j < |ss| ==> ss[i].id != ss[j].id
  }

  /** With unique ids `shipmentsByID` is the inverse of the arena, so a
      record reached through either index is the same record. */
  lemma UniqueIdIndex(ss: seq<Shipment>, i: nat)
    requires UniqueIds(ss) && i < |ss|
    ensures IdIndex(ss)[ss[i].id] == i
  {
    var j := IdIndex(ss)[ss[i].id];
    assert ss[j].id == ss[i].id;
  }

  /** Every arena position is in exactly one place of exactly one day's list. */
  lemma InOneBucket(ss: seq<Shipment>, i: nat, d: Day)
    requires i < |ss|
    ensures i in DayIndices(ss, d) <==> ss[i].day == d
    ensures forall k, k' :: 0 <= k < k' < |DayIndices(ss, d)| ==> DayIndices(ss, d)[k] != DayIndices(ss, d)[k']
  {
    DayIndicesAscending(ss, d);
  }
}
