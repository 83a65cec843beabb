/** The `Bundler` object: its two indexes and the records' `bundled` flags
    are fields that `parseInputShipments` and `findAllBundles` update in
    place. Records live in an arena (`shipments`); both indexes hold arena
    positions, and `bundled[i]` is the flag of record `i`. */
module Bundling {
  import opened Wrappers
  import opened Days
  import opened Text
  import opened ShipmentStore
  import opened Chains
  import opened Search
  import opened Driver
  import opened Parse

  /** What `findAllBundles` produces: the `allBundles` string it returns,
      and the ids of each bundle in the order they were emitted. */
  datatype Output = Output(text: string, bundles: seq<seq<string>>)

  /** The two ways a run throws: a line that is not a record, or a token
      read back from a chain that names no record. */
  datatype Failure = MalformedLine(line: nat) | UnknownToken

  /** The output that belongs to a completed driver run. */
  function OutputOf(st: Store, p: Pass): Output
    requires AllInRange(st, p.bundles)
  {
    Output(OutputText(BundleIds(st, p.bundles)), BundleIds(st, p.bundles))
  }

  /** `bundle()` on given file contents, from a store `st` with flags `b`:
      read every line, then run the driver over the larger store. */
  function RunFrom(st: Store, b: seq<bool>, contents: string): Result<Output, Failure>
    requires Indexed(st) && |b| == |st.shipments|
  {
    RunParsed(st, b, ParseInput(contents))
  }

  /** The run once the lines are read: a malformed line ends it, and
      otherwise the driver runs over the store with the records inserted. */
  function RunParsed(st: Store, b: seq<bool>, parsed: Result<seq<Shipment>, nat>): Result<Output, Failure>
    requires Indexed(st) && |b| == |st.shipments|
  {
    match parsed
    case Err(k) => Err(MalformedLine(k))
    case Ok(ss) =>
      var st' := InsertAll(st, ss);
      InsertAllIndexed(st, ss);
      IndexedProperties(st');
      match DriveDays(st', b + NoneBundled(|ss|), 0)
      case None => Err(UnknownToken)
      case Some(p) => Ok(OutputOf(st', p))
  }

  /** A store whose indexes are those built by inserting its arena in
      order, with a flag for every record. */
  ghost predicate Sound(st: Store, b: seq<bool>)
  {
    Indexed(st) && Bucketed(st) && Keyed(st) && |b| == |st.shipments|
  }

  class Bundler {
    var shipments: seq<Shipment>
    var shipmentsById: map<string, nat>
    var shipmentsByDay: map<Day, seq<nat>>
    var bundled: seq<bool>

    /** The indexes as a value. */
    function View(): Store
      reads this
    {
      Store(shipments, shipmentsById, shipmentsByDay)
    }

    /** The indexes are those built by inserting the arena in order, and
        every record has a flag. */
    ghost predicate Valid()
      reads this
    {
      Sound(View(), bundled)
    }

    /** A bundler with an empty list for every day and no records. */
    constructor ()
      ensures Valid() && View() == Empty() && bundled == []
    {
      shipments := [];
      shipmentsById := map[];
      shipmentsByDay := map[M := [], T := [], W := [], R := [], F := []];
      bundled := [];
      new;
      EmptyIndexed();
      IndexedProperties(View());
    }

    /** `parseInputShipments`: each line of `parseWords(contents)` is read as
        a record and inserted into both indexes, unflagged. On success the
        store is the old one with the records of `ParseInput(contents)`
        inserted; on a malformed line the run stops there with the lines
        before it inserted. */
    method ParseInputShipments(contents: string) returns (err: Option<nat>)
      requires Valid()
      modifies this
      ensures Valid()
      ensures match ParseInput(contents)
        case Ok(ss) =>
          && err == None
          && View() == InsertAll(old(View()), ss)
          && bundled == old(bundled) + NoneBundled(|ss|)
        case Err(k) =>
          && err == Some(k)
          && k < |ParseWords(contents)|
          && var before := ParseLines(ParseWords(contents)[..k]);
             && before.Ok?
             && View() == InsertAll(old(View()), before.value)
             && bundled == old(bundled) + NoneBundled(|before.value|)
    {
      ghost var st0, b0 := View(), bundled;
      var lines := ParseWords(contents);
      err := InsertLines(lines);
      match ParseLines(lines)
      case Ok(ss) =>
        Inserted(st0, b0, ss);
      case Err(k) =>
        Inserted(st0, b0, ParseLines(lines[..k]).value);
    }

    /** The loop of `parseInputShipments` over the lines of words. */
    method InsertLines(lines: seq<seq<string>>) returns (err: Option<nat>)
      requires HasDays(View())
      modifies this
      ensures match ParseLines(lines)
        case Ok(ss) =>
          && err == None
          && View() == InsertAll(old(View()), ss)
          && bundled == old(bundled) + NoneBundled(|ss|)
        case Err(k) =>
          && err == Some(k)
          && k < |lines|
          && var before := ParseLines(lines[..k]);
             && before.Ok?
             && View() == InsertAll(old(View()), before.value)
             && bundled == old(bundled) + NoneBundled(|before.value|)
    {
      ghost var st0 := View();
      ghost var ss: seq<Shipment> := [];
      var i := 0;
      while i < |lines|
        invariant 0 <= i <= |lines|
        invariant ParseLines(lines[..i]) == Ok(ss)
        invariant View() == InsertAll(st0, ss)
        invariant bundled == old(bundled) + NoneBundled(|ss|)
      {
        match ParseLine(lines[i])
        case None =>
          ParseLinesStops(lines, i);
          return Some(i);
        case Some(s) =>
          AddShipment(s);
          ParseLinesGrows(lines, i, ss, s);
          InsertOne(st0, ss, s);
          NoneBundledGrows(|ss|);
          ss := ss + [s];
          i := i + 1;
      }
      assert lines[..i] == lines;
      return None;
    }

    /** One record into both indexes, unflagged: `shipmentsByID[s.id] = s`
        and `shipmentsByDay[s.day].push(s)`. */
    method AddShipment(s: Shipment)
      requires HasDays(View())
      modifies this
      ensures View() == Insert(old(View()), s) && bundled == old(bundled) + [false]
    {
      var n := |shipments|;
      shipmentsById := shipmentsById[s.id := n];
      shipmentsByDay := shipmentsByDay[s.day := shipmentsByDay[s.day] + [n]];
      shipments := shipments + [s];
      bundled := bundled + [false];
    }

    /** The loop over `shipmentsInLongest`: the record each token names in
        `shipmentsByID` is flagged, in order; the first token that names no
        record throws, here `false`. The flags end as `MarkTokens` says. */
    method FlagTokens(tokens: seq<string>) returns (ok: bool)
      requires Valid()
      modifies this
      ensures Valid() && View() == old(View())
      ensures ok <==> MarkTokens(View(), old(bundled), tokens).Some?
      ensures ok ==> bundled == MarkTokens(View(), old(bundled), tokens).value
      ensures !ok ==>
        exists k :: 0 <= k < |tokens| && tokens[k] !in View().byId
          && MarkTokens(View(), old(bundled), tokens[..k]) == Some(bundled)
    {
      ghost var st := View();
      var k := 0;
      assert tokens[0..] == tokens && tokens[..0] == [];
      while k < |tokens|
        invariant 0 <= k <= |tokens|
        invariant View() == st && |bundled| == |st.shipments|
        invariant MarkTokens(st, old(bundled), tokens) == MarkTokens(st, bundled, tokens[k..])
        invariant MarkTokens(st, old(bundled), tokens[..k]) == Some(bundled)
      {
        MarkStep(st, bundled, tokens, k);
        if tokens[k] !in shipmentsById {
          return false;
        }
        MarkSnoc(st, old(bundled), tokens, k, bundled);
        bundled := bundled[shipmentsById[tokens[k]] := true];
        k := k + 1;
      }
      assert tokens[k..] == [];
      return true;
    }

    /** The body of the inner loop of `findAllBundles` for an unflagged
        record, position `j` of day `d`'s list: the longest chain from the
        record its id names, appended to `allBundles`, and the record of each
        token of the trimmed chain flagged. The chain is the search result from
        that record and the flags end as `MarkTokens` of its tokens says;
        `false` when a token names no record, and then the pass throws. Seen
        from the driver's pass over the list, the chains so far and this one,
        followed by the rest of the list from the new flags, are still the pass. */
    method EmitFrom(d: Day, j: nat, ghost acc: seq<seq<nat>>, ghost day: seq<seq<nat>>, ghost goal: Option<Pass>,
                    allBundles0: string, out0: seq<seq<string>>)
      returns (ok: bool, ghost chain: seq<nat>, allBundles: string, out: seq<seq<string>>)
      requires Valid() && j < |shipmentsByDay[d]|
      requires !bundled[shipmentsById[shipments[shipmentsByDay[d][j]].id]]
      requires Then(day, DriveBucket(View(), bundled, d, j)) == goal
      requires AllInRange(View(), acc) && out0 == BundleIds(View(), acc) && allBundles0 == OutputText(out0)
      modifies this
      ensures Valid() && View() == old(View())
      ensures !ok ==> goal.None?
      ensures ok ==> Then(day + [chain], DriveBucket(View(), bundled, d, j + 1)) == goal
      ensures AllInRange(View(), acc + [chain]) && out == BundleIds(View(), acc + [chain])
      ensures allBundles == OutputText(out)
      ensures chain == Longest(View(), old(bundled), Some(shipmentsById[shipments[shipmentsByDay[d][j]].id]), [], [])
      ensures var tokens := Split(Trim(Render(Ids(View(), chain))), ' ');
        && (ok <==> MarkTokens(View(), old(bundled), tokens).Some?)
        && (ok ==> bundled == MarkTokens(View(), old(bundled), tokens).value)
        && (!ok ==>
              exists k :: 0 <= k < |tokens| && tokens[k] !in View().byId
                && MarkTokens(View(), old(bundled), tokens[..k]) == Some(bundled))
    {
      var st := View();
      var start := shipmentsById[shipments[shipmentsByDay[d][j]].id];
      var c := Longest(st, bundled, Some(start), [], []);
      chain := c;
      var longestBundle := Render(Ids(st, c));
      var tokens := Split(Trim(longestBundle), ' ');
      EmitStep(st, bundled, d, j, day, goal);
      ghost var marked := MarkTokens(st, bundled, tokens);
      EmitOne(st, acc, c);
      allBundles := allBundles0 + " " + longestBundle;
      out := out0 + [Ids(st, c)];
      ok := FlagTokens(tokens);
      assert ok ==> bundled == marked.value;
    }

    /** The body of the inner loop of `findAllBundles` at position `j` of
        day `d`'s list: a record whose id names a flagged record is passed
        over with nothing emitted and no flag changed, and otherwise the
        search result from that record is emitted and its tokens flagged, with
        success and the flags as `EmitFrom` states them.
        `emitted` is what this step adds to the pass. */
    method Visit(d: Day, j: nat, ghost acc: seq<seq<nat>>, ghost day: seq<seq<nat>>, ghost goal: Option<Pass>,
                 allBundles0: string, out0: seq<seq<string>>)
      returns (ok: bool, ghost emitted: seq<seq<nat>>, allBundles: string, out: seq<seq<string>>)
      requires Valid() && j < |shipmentsByDay[d]|
      requires Then(day, DriveBucket(View(), bundled, d, j)) == goal
      requires AllInRange(View(), acc) && out0 == BundleIds(View(), acc) && allBundles0 == OutputText(out0)
      modifies this
      ensures Valid() && View() == old(View())
      ensures !ok ==> goal.None?
      ensures ok ==> Then(day + emitted, DriveBucket(View(), bundled, d, j + 1)) == goal
      ensures ok ==> AllInRange(View(), acc + emitted) && out == BundleIds(View(), acc + emitted)
      ensures ok ==> allBundles == OutputText(out)
      ensures var start := shipmentsById[shipments[shipmentsByDay[d][j]].id];
        && (old(bundled)[start] ==> ok && emitted == [] && bundled == old(bundled))
        && (!old(bundled)[start] ==>
              var chain := Longest(View(), old(bundled), Some(start), [], []);
              var tokens := Split(Trim(Render(Ids(View(), chain))), ' ');
              && emitted == [chain]
              && (ok <==> MarkTokens(View(), old(bundled), tokens).Some?)
              && (ok ==> bundled == MarkTokens(View(), old(bundled), tokens).value)
              && (!ok ==>
                    exists k :: 0 <= k < |tokens| && tokens[k] !in View().byId
                      && MarkTokens(View(), old(bundled), tokens[..k]) == Some(bundled)))
    {
      var start := shipmentsById[shipments[shipmentsByDay[d][j]].id];
      if !bundled[start] {
        ghost var chain;
        ok, chain, allBundles, out := EmitFrom(d, j, acc, day, goal, allBundles0, out0);
        emitted := [chain];
      } else {
        BucketSkips(View(), bundled, d, j);
        assert day + [] == day && acc + [] == acc;
        ok, emitted, allBundles, out := true, [], allBundles0, out0;
      }
    }

    /** One pass of the outer loop of `findAllBundles`: for each record in
        day `DAYS[i]`'s list, search from the record `shipmentsByID` holds for
        its id when that one is unflagged, append the chain to `allBundles`,
        and flag the record of each token of the trimmed chain. The chains
        appended to `acc0` and the flags afterwards are exactly those of the
        driver's pass over that day's list; `false` when a token names no
        record, which is when that pass throws. */
    method BundleDay(i: nat, ghost acc0: seq<seq<nat>>, allBundles0: string, out0: seq<seq<string>>)
      returns (ok: bool, ghost day: seq<seq<nat>>, allBundles: string, out: seq<seq<string>>)
      requires Valid() && i < |DAYS|
      requires AllInRange(View(), acc0) && out0 == BundleIds(View(), acc0) && allBundles0 == OutputText(out0)
      modifies this
      ensures Valid() && View() == old(View())
      ensures !ok ==> DriveBucket(View(), old(bundled), DAYS[i], 0).None?
      ensures ok ==> DriveBucket(View(), old(bundled), DAYS[i], 0) == Some(Pass(day, bundled))
      ensures ok ==> AllInRange(View(), acc0 + day) && out == BundleIds(View(), acc0 + day) && allBundles == OutputText(out)
    {
      var st, d := View(), DAYS[i];
      ghost var goal := DriveBucket(st, bundled, d, 0);
      day := [];
      ghost var acc := acc0;
      allBundles, out := allBundles0, out0;
      var list := shipmentsByDay[d];
      ThenNothing(goal);
      assert Then(day, DriveBucket(st, bundled, d, 0)) == goal;
      var j := 0;
      while j < |list|
        invariant 0 <= j <= |list| && list == st.byDay[d]
        invariant Valid() && View() == st
        invariant Then(day, DriveBucket(st, bundled, d, j)) == goal
        invariant acc == acc0 + day
        invariant AllInRange(st, acc) && out == BundleIds(st, acc) && allBundles == OutputText(out)
      {
        ghost var emitted;
        ok, emitted, allBundles, out := Visit(d, j, acc, day, goal, allBundles, out);
        if !ok {
          return;
        }
        Assoc(acc0, day, emitted);
        acc, day := acc + emitted, day + emitted;
        j := j + 1;
      }
      BucketEnds(st, bundled, d);
      assert day + [] == day;
      ok := true;
    }

    /** One day of the loop of `findAllBundles`: `BundleDay`'s outcome for
        the day (`DayPass`) with the day's bundles appended to `acc0`, and, as
        a step of the whole run, the bundles found so far followed by what
        the rest of the week emits are still what the run emits from the start. */
    method RunDay(i: nat, ghost acc0: seq<seq<nat>>, ghost goal: Option<Pass>,
                  allBundles0: string, out0: seq<seq<string>>)
      returns (ok: bool, ghost day: seq<seq<nat>>, ghost acc: seq<seq<nat>>, allBundles: string, out: seq<seq<string>>)
      requires Valid() && i < |DAYS|
      requires Then(acc0, DriveDays(View(), bundled, i)) == goal
      requires AllInRange(View(), acc0) && out0 == BundleIds(View(), acc0) && allBundles0 == OutputText(out0)
      modifies this
      ensures Valid() && View() == old(View())
      ensures !ok ==> goal.None?
      ensures acc == acc0 + day
      ensures DayPass(View(), old(bundled), i, ok, day, bundled)
      ensures ok ==> Then(acc, DriveDays(View(), bundled, i + 1)) == goal
      ensures ok ==> AllInRange(View(), acc) && out == BundleIds(View(), acc) && allBundles == OutputText(out)
    {
      var st := View();
      ghost var b0 := bundled;
      ok, day, allBundles, out := BundleDay(i, acc0, allBundles0, out0);
      acc := acc0 + day;
      if ok {
        DayAdvance(st, b0, i, acc0, day, bundled, goal);
      } else {
        DayFails(st, b0, i, acc0, goal);
      }
    }

    /** One turn of the loop over `DAYS` as `findAllBundles` needs it:
        `RunDay`, stated only as progress through `DriveDays`. */
    method StepDay(i: nat, ghost acc0: seq<seq<nat>>, ghost goal: Option<Pass>,
                   allBundles0: string, out0: seq<seq<string>>)
      returns (ok: bool, ghost acc: seq<seq<nat>>, allBundles: string, out: seq<seq<string>>)
      requires Valid() && i < |DAYS|
      requires Then(acc0, DriveDays(View(), bundled, i)) == goal
      requires AllInRange(View(), acc0) && out0 == BundleIds(View(), acc0) && allBundles0 == OutputText(out0)
      modifies this
      ensures Valid() && View() == old(View())
      ensures !ok ==> goal.None?
      ensures ok ==> Then(acc, DriveDays(View(), bundled, i + 1)) == goal
      ensures ok ==> AllInRange(View(), acc) && out == BundleIds(View(), acc) && allBundles == OutputText(out)
    {
      ghost var day;
      ok, day, acc, allBundles, out := RunDay(i, acc0, goal, allBundles0, out0);
    }

    /** `findAllBundles`: the days in order, each as `StepDay`. The store is
        left as it is; the flags and the output are those of `DriveDays` from
        the current flags, and an unknown token ends the run with `None`. */
    method FindAllBundles() returns (r: Option<Output>)
      requires Valid()
      modifies this
      ensures Valid() && View() == old(View())
      ensures match DriveDays(old(View()), old(bundled), 0)
        case None => r.None?
        case Some(p) => r == Some(OutputOf(old(View()), p)) && bundled == p.bundled
    {
      var st := View();
      ghost var goal := DriveDays(st, bundled, 0);
      ghost var acc: seq<seq<nat>> := [];
      var allBundles := "";
      var out: seq<seq<string>> := [];
      ThenNothing(goal);
      assert Indexed(st) && Bucketed(st) && Keyed(st);
      var i := 0;
      while i < |DAYS|
        invariant 0 <= i <= |DAYS|
        invariant View() == st && |bundled| == |st.shipments|
        invariant Then(acc, DriveDays(st, bundled, i)) == goal
        invariant AllInRange(st, acc) && out == BundleIds(st, acc) && allBundles == OutputText(out)
      {
        var ok;
        ok, acc, allBundles, out := StepDay(i, acc, goal, allBundles, out);
        if !ok {
          return None;
        }
        i := i + 1;
      }
      DaysFinish(st, bundled, acc, goal);
      r := Some(Output(allBundles, out));
    }

    /** `bundle()` on given contents: `parseInputShipments` followed by
        `findAllBundles`. */
    method Bundle(contents: string) returns (r: Result<Output, Failure>)
      requires Valid()
      modifies this
      ensures Valid()
      ensures r == RunFrom(old(View()), old(bundled), contents)
      ensures match ParseInput(contents)
        case Err(k) =>
          && r == Err(MalformedLine(k))
          && k < |ParseWords(contents)|
          && var before := ParseLines(ParseWords(contents)[..k]);
             && before.Ok?
             && View() == InsertAll(old(View()), before.value)
             && bundled == old(bundled) + NoneBundled(|before.value|)
        case Ok(ss) =>
          && View() == InsertAll(old(View()), ss)
          && shipments == old(shipments) + ss
          && match DriveDays(View(), old(bundled) + NoneBundled(|ss|), 0)
             case None => r == Err(UnknownToken)
             case Some(p) => r == Ok(OutputOf(View(), p)) && bundled == p.bundled
    {
      ghost var st0 := View();
      var err := ParseInputShipments(contents);
      if ParseInput(contents).Ok? {
        InsertAllIndexed(st0, ParseInput(contents).value);
      }
      if err.Some? {
        return Err(MalformedLine(err.value));
      }
      var found := FindAllBundles();
      if found.None? {
        return Err(UnknownToken);
      }
      return Ok(found.value);
    }
  }

  /** One emitting step of a day's list, seen from the whole pass over it:
      when the token flagging throws the pass throws, and otherwise the pass
      is the chains so far, this chain, and the rest of the list from the
      new flags. */
  lemma EmitStep(st: Store, bundled: seq<bool>, d: Day, j: nat, day: seq<seq<nat>>, goal: Option<Pass>)
    requires Bucketed(st) && Keyed(st) && |bundled| == |st.shipments|
    requires j < |st.byDay[d]|
    requires !bundled[st.byId[st.shipments[st.byDay[d][j]].id]]
    requires Then(day, DriveBucket(st, bundled, d, j)) == goal
    ensures var start := st.byId[st.shipments[st.byDay[d][j]].id];
      var chain := Longest(st, bundled, Some(start), [], []);
      var marked := MarkTokens(st, bundled, Split(Trim(Render(Ids(st, chain))), ' '));
      && (marked.None? ==> goal.None?)
      && (marked.Some? ==> Then(day + [chain], DriveBucket(st, marked.value, d, j + 1)) == goal)
  {
    var start := st.byId[st.shipments[st.byDay[d][j]].id];
    var chain := Longest(st, bundled, Some(start), [], []);
    var marked := MarkTokens(st, bundled, Split(Trim(Render(Ids(st, chain))), ' '));
    BucketEmits(st, bundled, d, j);
    if marked.Some? {
      ThenThen(day, [chain], DriveBucket(st, marked.value, d, j + 1));
    }
  }

  lemma Assoc<T>(a: seq<T>, b: seq<T>, c: seq<T>)
    ensures (a + b) + c == a + (b + c)
  {
  }

  /** A day's pass that emits `day` and leaves the flags `b1` takes the
      run from day `i` to day `i + 1`. */
  /** The outcome of `BundleDay` for day `DAYS[i]` from flags `b0`: it fails
      exactly when the driver's pass over that day's list throws, and
      otherwise emits `day` and leaves the flags `b1`, as that pass does. */
  ghost predicate DayPass(st: Store, b0: seq<bool>, i: nat, ok: bool, day: seq<seq<nat>>, b1: seq<bool>)
    requires Bucketed(st) && Keyed(st) && |b0| == |st.shipments| && i < |DAYS|
  {
    && (!ok ==> DriveBucket(st, b0, DAYS[i], 0).None?)
    && (ok ==> DriveBucket(st, b0, DAYS[i], 0) == Some(Pass(day, b1)))
  }

  lemma DayAdvance(st: Store, b0: seq<bool>, i: nat, acc0: seq<seq<nat>>, day: seq<seq<nat>>,
                   b1: seq<bool>, goal: Option<Pass>)
    requires Bucketed(st) && Keyed(st) && |b0| == |st.shipments| && i < |DAYS|
    requires Then(acc0, DriveDays(st, b0, i)) == goal
    requires DriveBucket(st, b0, DAYS[i], 0) == Some(Pass(day, b1))
    ensures |b1| == |st.shipments| && Then(acc0 + day, DriveDays(st, b1, i + 1)) == goal
  {
    DayStep(st, b0, i);
    ThenThen(acc0, day, DriveDays(st, b1, i + 1));
  }

  /** A day whose pass throws ends the run with nothing. */
  lemma DayFails(st: Store, b0: seq<bool>, i: nat, acc0: seq<seq<nat>>, goal: Option<Pass>)
    requires Bucketed(st) && Keyed(st) && |b0| == |st.shipments| && i < |DAYS|
    requires Then(acc0, DriveDays(st, b0, i)) == goal
    requires DriveBucket(st, b0, DAYS[i], 0).None?
    ensures goal.None?
  {
    DayStep(st, b0, i);
  }

  /** After the last day nothing more is emitted and no flag changes. */
  lemma DaysFinish(st: Store, bundled: seq<bool>, acc: seq<seq<nat>>, goal: Option<Pass>)
    requires Bucketed(st) && Keyed(st) && |bundled| == |st.shipments|
    requires Then(acc, DriveDays(st, bundled, |DAYS|)) == goal
    ensures goal == Some(Pass(acc, bundled))
  {
    assert acc + [] == acc;
  }

  /** A line that is not a record stops the reading there. */
  lemma ParseLinesStops(lines: seq<seq<string>>, i: nat)
    requires i < |lines| && ParseLine(lines[i]).None?
    requires ParseLines(lines[..i]).Ok?
    ensures ParseLines(lines) == Err(i)
    ensures (lines[..i + 1])[..i] == lines[..i]
  {
    ParseLinesSpec(lines);
    ParseLinesSpec(lines[..i]);
    assert forall k :: 0 <= k < i ==> lines[..i][k] == lines[k];
  }

  /** A line that is a record extends what was read so far. */
  lemma ParseLinesGrows(lines: seq<seq<string>>, i: nat, ss: seq<Shipment>, s: Shipment)
    requires i < |lines| && ParseLine(lines[i]) == Some(s)
    requires ParseLines(lines[..i]) == Ok(ss)
    ensures ParseLines(lines[..i + 1]) == Ok(ss + [s])
  {
    assert lines[..i + 1][..i] == lines[..i];
  }

  /** One more record inserted at the end. */
  lemma InsertOne(st: Store, ss: seq<Shipment>, s: Shipment)
    requires HasDays(st)
    ensures InsertAll(st, ss + [s]) == Insert(InsertAll(st, ss), s)
  {
    assert (ss + [s])[..|ss|] == ss;
  }

  lemma NoneBundledGrows(n: nat)
    ensures NoneBundled(n + 1) == NoneBundled(n) + [false]
  {
  }

  /** After inserting records, the store is indexed and every record has a flag. */
  lemma Inserted(st: Store, b: seq<bool>, ss: seq<Shipment>)
    requires Indexed(st) && |b| == |st.shipments|
    ensures var st' := InsertAll(st, ss);
      Indexed(st') && Bucketed(st') && Keyed(st') && |b + NoneBundled(|ss|)| == |st'.shipments|
  {
    InsertAllIndexed(st, ss);
    IndexedProperties(InsertAll(st, ss));
  }

  /** A single word survives the re-reading of a rendered chain. */
  lemma WordIsToken(w: string)
    requires IsWord(w)
    ensures IsToken(w)
  {
    assert !IsSpace(w[0]) && !IsSpace(w[|w| - 1]);
  }

  /** The store a fresh bundler builds from records: indexed, holding
      exactly those records. */
  lemma FreshStore(ss: seq<Shipment>)
    ensures Indexed(Empty())
    ensures var st := InsertAll(Empty(), ss);
      Bucketed(st) && Listed(st) && Keyed(st) && st.shipments == ss
  {
    EmptyIndexed();
    var st := InsertAll(Empty(), ss);
    InsertAllIndexed(Empty(), ss);
    IndexedProperties(st);
    assert [] + ss == ss;
  }

  /** A fresh run over contents that read as `ss` is the driver over the
      store of `ss` with every record unflagged. */
  lemma FreshRun(contents: string, ss: seq<Shipment>)
    requires ParseInput(contents) == Ok(ss)
    ensures Indexed(Empty())
    ensures var st := InsertAll(Empty(), ss);
      && Bucketed(st) && Keyed(st)
      && RunFrom(Empty(), [], contents) ==
           match AllBundles(st)
           case None => Err(UnknownToken)
           case Some(p) => Ok(OutputOf(st, p))
  {
    FreshParsed(ss);
    assert RunFrom(Empty(), [], contents) == RunParsed(Empty(), [], Ok(ss));
  }

  /** The run of a fresh bundler once `ss` is read. */
  lemma FreshParsed(ss: seq<Shipment>)
    ensures Indexed(Empty())
    ensures var st := InsertAll(Empty(), ss);
      && Bucketed(st) && Keyed(st)
      && RunParsed(Empty(), [], Ok(ss)) ==
           match AllBundles(st)
           case None => Err(UnknownToken)
           case Some(p) => Ok(OutputOf(st, p))
  {
    FreshStore(ss);
    var st := InsertAll(Empty(), ss);
    assert [] + NoneBundled(|ss|) == NoneBundled(|ss|);
    assert AllBundles(st) == DriveDays(st, NoneBundled(|ss|), 0);
  }

  /** `bundle()` of a fresh bundler on a file of writable records with
      distinct ids: every line is read, the run does not throw, and the
      output, split at spaces with the empty pieces dropped, holds each
      record's id exactly once. */
  lemma BundleFileText(ss: seq<Shipment>)
    requires forall k :: 0 <= k < |ss| ==> Writable(ss[k])
    requires UniqueIds(ss)
    ensures Indexed(Empty())
    ensures var r := RunFrom(Empty(), [], FileText(ss));
      && r.Ok?
      && var used := NonEmpty(Split(r.value.text, ' '));
         && |used| == |ss|
         && (forall i :: 0 <= i < |ss| ==> ss[i].id in used)
         && (forall k, k' :: 0 <= k < k' < |used| ==> used[k] != used[k'])
  {
    ParseFileText(ss);
    FreshRun(FileText(ss), ss);
    FreshStore(ss);
    var st := InsertAll(Empty(), ss);
    forall i | 0 <= i < |ss| ensures IsToken(st.shipments[i].id) {
      WordIsToken(ss[i].id);
    }
    OutputUsesEveryIdOnce(st);
  }
}
