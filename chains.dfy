/** Chains of shipments and their rendering. The source builds a chain as
    the string `" id1 id2 ..."` (each step appends a space and an id to a
    string that starts empty) and compares chains by that string's length,
    counted in UTF-16 code units as JavaScript does. */
module Chains {
  import opened Days
  import opened Text
  import opened ShipmentStore

  /** Every position of `path` is a record of the arena. */
  predicate InRange(st: Store, path: seq<nat>)
  {
    forall k :: 0 <= k < |path| ==> path[k] < |st.shipments|
  }

  /** The ids along a path of arena positions. */
  function Ids(st: Store, path: seq<nat>): (ids: seq<string>)
    requires InRange(st, path)
    ensures |ids| == |path|
  {
    seq(|path|, k requires 0 <= k < |path| => st.shipments[path[k]].id)
  }

  /** `${bundle} ${id}`, folded over the ids from the empty string. */
  function Render(ids: seq<string>): string
  {
    if ids == [] then "" else Render(ids[..|ids| - 1]) + " " + ids[|ids| - 1]
  }

  /** Rendering distributes over concatenation: each id contributes a space
      and its own text, wherever it stands. */
  lemma {:induction false} RenderAppend(a: seq<string>, b: seq<string>)
    ensures Render(a + b) == Render(a) + Render(b)
  {
    if b != [] {
      var b' := b[..|b| - 1];
      RenderAppend(a, b');
      assert (a + b)[..|a + b| - 1] == a + b';
    } else {
      assert a + b == a;
    }
  }

  /** So the `length` the source compares grows by one unit for the space
      and by the id's own `length` for each id, and is at least the id count. */
  lemma {:induction false} RenderLength(a: seq<string>, x: string)
    ensures Utf16Len(Render(a + [x])) == Utf16Len(Render(a)) + 1 + Utf16Len(x)
    ensures Utf16Len(Render(a)) >= |a|
    decreases |a|
  {
    assert (a + [x])[..|a|] == a;
    Utf16Append(Render(a), " ");
    Utf16Append(Render(a) + " ", x);
    assert " "[..0] == "";
    if a != [] {
      RenderLength(a[..|a| - 1], a[|a| - 1]);
      assert a[..|a| - 1] + [a[|a| - 1]] == a;
    }
  }

  /** `bundle.length` for a path: a space and the id for each record, in
      UTF-16 code units. */
  function Len(st: Store, path: seq<nat>): nat
    requires InRange(st, path)
  {
    if path == [] then 0 else Len(st, path[..|path| - 1]) + 1 + Utf16Len(st.shipments[path[|path| - 1]].id)
  }

  /** `Len` is the JavaScript `length` of the string the source builds for
      the path, so comparing `Len` is comparing `bundle.length` with
      `longestBundle.length`. */
  lemma {:induction false} LenIsRenderedLength(st: Store, path: seq<nat>)
    requires InRange(st, path)
    ensures Len(st, path) == Utf16Len(Render(Ids(st, path)))
  {
    if path != [] {
      var init := path[..|path| - 1];
      LenIsRenderedLength(st, init);
      assert Ids(st, path) == Ids(st, init) + [st.shipments[path[|path| - 1]].id];
      RenderLength(Ids(st, init), st.shipments[path[|path| - 1]].id);
    }
  }

  /** Extending a path by one record adds a space and that record's id. */
  lemma LenSnoc(st: Store, path: seq<nat>, i: nat)
    requires InRange(st, path) && i < |st.shipments|
    ensures InRange(st, path + [i])
    ensures Len(st, path + [i]) == Len(st, path) + 1 + Utf16Len(st.shipments[i].id)
  {
    assert (path + [i])[..|path|] == path;
  }

  /** An id that survives `trim` and `split(' ')` unchanged when it stands at
      either end of a rendered chain: non-empty, no space, no whitespace at its ends. */
  predicate IsToken(id: string)
  {
    |id| > 0 && ' ' !in id && !IsSpace(id[0]) && !IsSpace(id[|id| - 1])
  }

  /** A rendered chain is a space followed by the ids joined with spaces. */
  lemma {:induction false} RenderIsJoin(ids: seq<string>)
    requires |ids| >= 1
    ensures Render(ids) == " " + Join(ids, ' ')
  {
    if |ids| > 1 {
      var init := ids[..|ids| - 1];
      RenderIsJoin(init);
      JoinSnoc(init, ids[|ids| - 1], ' ');
      assert init + [ids[|ids| - 1]] == ids;
    } else {
      assert ids[..0] == [];
    }
  }

  /** `longestBundle.trim(' ').split(' ')` gives back exactly the ids of the chain. */
  lemma TokensRoundTrip(ids: seq<string>)
    requires |ids| >= 1
    requires forall k :: 0 <= k < |ids| ==> IsToken(ids[k])
    ensures Split(Trim(Render(ids)), ' ') == ids
  {
    RenderIsJoin(ids);
    var j := Join(ids, ' ');
    JoinLast(ids, ' ');
    assert j[0] == ids[0][0];
    var s := " " + j;
    assert s[1..] == j;
    assert TrimStart(s) == TrimStart(j) == j;
    TrimKeeps(j);
    SplitJoin(ids, ' ');
  }

  /** Each record of the chain is a valid child of the one before it. */
  predicate ValidChain(st: Store, c: seq<nat>)
  {
    && InRange(st, c)
    && forall k :: 0 <= k < |c| - 1 ==> IsValidChild(st.shipments[c[k]], st.shipments[c[k + 1]])
  }

  /** No record of the path is flagged `bundled`. */
  predicate Unbundled(bundled: seq<bool>, c: seq<nat>)
  {
    forall k :: 0 <= k < |c| ==> c[k] < |bundled| && !bundled[c[k]]
  }

  /** A chain the search may return for start `s`: it begins at `s`, is
      valid, and uses only records not yet bundled. */
  predicate ChainFrom(st: Store, bundled: seq<bool>, s: nat, c: seq<nat>)
  {
    |c| > 0 && c[0] == s && ValidChain(st, c) && Unbundled(bundled, c)
  }

  /** Along a valid chain the day advances by exactly one at each step. */
  lemma {:induction false} ChainDays(st: Store, c: seq<nat>, k: nat)
    requires ValidChain(st, c) && k < |c|
    ensures Ordinal(st.shipments[c[k]].day) == Ordinal(st.shipments[c[0]].day) + k
  {
    if k > 0 {
      ChainDays(st, c, k - 1);
      ChildIsNextDay(st.shipments[c[k - 1]], st.shipments[c[k]]);
    }
  }

  /** Hence a chain has at most five records, one per weekday from its start
      on, and never visits a record twice. */
  lemma ChainShape(st: Store, c: seq<nat>)
    requires ValidChain(st, c) && |c| > 0
    ensures |c| <= 5 - Ordinal(st.shipments[c[0]].day)
    ensures forall i, j :: 0 <= i < j < |c| ==> c[i] != c[j]
  {
    ChainDays(st, c, |c| - 1);
    forall i, j | 0 <= i < j < |c| ensures c[i] != c[j] {
      ChainDays(st, c, i);
      ChainDays(st, c, j);
    }
  }

  /** A record followed by a chain that starts at one of its valid children
      is a chain, provided neither is bundled. */
  lemma ChainCons(st: Store, bundled: seq<bool>, s: nat, tail: seq<nat>)
    requires |tail| > 0 && ChainFrom(st, bundled, tail[0], tail)
    requires s < |st.shipments| && s < |bundled| && !bundled[s]
    requires IsValidChild(st.shipments[s], st.shipments[tail[0]])
    ensures ChainFrom(st, bundled, s, [s] + tail)
  {
    var c := [s] + tail;
    forall k | 0 <= k < |c| - 1
      ensures IsValidChild(st.shipments[c[k]], st.shipments[c[k + 1]])
    {
      if k > 0 { assert c[k] == tail[k - 1] && c[k + 1] == tail[k]; }
    }
  }

  /** What follows the first record of a chain is a chain again. */
  lemma ChainTail(st: Store, bundled: seq<bool>, s: nat, c: seq<nat>)
    requires ChainFrom(st, bundled, s, c) && |c| > 1
    ensures ChainFrom(st, bundled, c[1], c[1..])
    ensures IsValidChild(st.shipments[s], st.shipments[c[1]])
  {
    var tail := c[1..];
    forall k | 0 <= k < |tail| - 1
      ensures IsValidChild(st.shipments[tail[k]], st.shipments[tail[k + 1]])
    {
      assert tail[k] == c[k + 1] && tail[k + 1] == c[k + 2];
    }
  }

  /** `e` is `path` followed by a chain from `s`. */
  predicate Extends(st: Store, bundled: seq<bool>, s: nat, path: seq<nat>, e: seq<nat>)
  {
    |e| > |path| && e[..|path|] == path && ChainFrom(st, bundled, s, e[|path|..])
  }

  /** Extending `path + [s]` by a chain from a valid child of `s` extends
      `path` by a chain from `s`. */
  lemma ExtendsCons(st: Store, bundled: seq<bool>, s: nat, path: seq<nat>, e: seq<nat>)
    requires s < |st.shipments| && s < |bundled| && !bundled[s]
    requires |e| > |path| + 1 && Extends(st, bundled, e[|path| + 1], path + [s], e)
    requires IsValidChild(st.shipments[s], st.shipments[e[|path| + 1]])
    ensures Extends(st, bundled, s, path, e)
  {
    var tail := e[|path| + 1..];
    ChainCons(st, bundled, s, tail);
    assert e[|path|..] == [s] + tail;
    assert e[..|path|] == e[..|path| + 1][..|path|];
  }

  /** `path + c` is `path + [c[0]]` followed by the rest of `c`. */
  lemma ConsAssoc(path: seq<nat>, c: seq<nat>)
    requires |c| > 0
    ensures path + c == (path + [c[0]]) + c[1..]
  {
    assert c == [c[0]] + c[1..];
  }
}
