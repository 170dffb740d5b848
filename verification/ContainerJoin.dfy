/** Joining the containers of the runtime with the stored ones, by a sort and a binary search. */
module ContainerJoin {
  import opened Wrappers

  type Uuid = nat

  /** A stored container, with its id in the runtime if it was created there. */
  datatype Row = Row(id: Uuid, localId: Option<string>)

  // ----- The order of the ids: none first, and then as strings -----

  predicate AtMost(a: string, b: string) {
    a == [] || (b != [] && (a[0] < b[0] || (a[0] == b[0] && AtMost(a[1..], b[1..]))))
  }

  lemma {:induction false} AtMostIsTotal(a: string, b: string)
    ensures AtMost(a, b) || AtMost(b, a)
    ensures AtMost(a, b) && AtMost(b, a) ==> a == b
  {
    if a != [] && b != [] {
      AtMostIsTotal(a[1..], b[1..]);
      assert a == [a[0]] + a[1..] && b == [b[0]] + b[1..];
    }
  }

  lemma {:induction false} AtMostIsTransitive(a: string, b: string, c: string)
    requires AtMost(a, b) && AtMost(b, c)
    ensures AtMost(a, c)
  {
    if a != [] && a[0] == b[0] == c[0] {
      AtMostIsTransitive(a[1..], b[1..], c[1..]);
    }
  }

  predicate Before(a: Option<string>, b: Option<string>) {
    a.None? || (b.Some? && AtMost(a.value, b.value))
  }

  lemma BeforeIsAnOrder(a: Option<string>, b: Option<string>, c: Option<string>)
    ensures Before(a, b) || Before(b, a)
    ensures Before(a, b) && Before(b, a) ==> a == b
    ensures Before(a, b) && Before(b, c) ==> Before(a, c)
  {
    if a.Some? && b.Some? {
      AtMostIsTotal(a.value, b.value);
      if c.Some? && AtMost(a.value, b.value) && AtMost(b.value, c.value) {
        AtMostIsTransitive(a.value, b.value, c.value);
      }
    }
  }

  ghost predicate Sorted(rows: seq<Row>) {
    forall i, j | 0 <= i < j < |rows| :: Before(rows[i].localId, rows[j].localId)
  }

  // ----- The sort -----

  function Inserted(rows: seq<Row>, row: Row): (r: seq<Row>)
    ensures multiset(r) == multiset(rows) + multiset{row}
  {
    if rows == [] || Before(rows[|rows| - 1].localId, row.localId) then rows + [row]
    else
      var last := rows[|rows| - 1];
      assert rows == rows[..|rows| - 1] + [last];
      Inserted(rows[..|rows| - 1], row) + [last]
  }

  lemma {:induction false} InsertedIsSorted(rows: seq<Row>, row: Row)
    requires Sorted(rows)
    ensures Sorted(Inserted(rows, row))
  {
    if rows == [] {
    } else if Before(rows[|rows| - 1].localId, row.localId) {
      forall i | 0 <= i < |rows|
        ensures Before(rows[i].localId, row.localId)
      {
        BeforeIsAnOrder(rows[i].localId, rows[|rows| - 1].localId, row.localId);
      }
    } else {
      var last := rows[|rows| - 1];
      var before := rows[..|rows| - 1];
      InsertedIsSorted(before, row);
      BeforeIsAnOrder(last.localId, row.localId, None);
      var inserted := Inserted(before, row);
      forall i | 0 <= i < |inserted|
        ensures Before(inserted[i].localId, last.localId)
      {
        assert inserted[i] in multiset(before) + multiset{row};
      }
    }
  }

  /** A stable sort by the local id, one row after the other. */
  method Sort(rows: seq<Row>) returns (sorted: seq<Row>)
    ensures Sorted(sorted) && multiset(sorted) == multiset(rows)
  {
    sorted := [];
    for i := 0 to |rows|
      invariant Sorted(sorted) && multiset(sorted) == multiset(rows[..i])
    {
      InsertedIsSorted(sorted, rows[i]);
      sorted := Inserted(sorted, rows[i]);
      assert rows[..i + 1] == rows[..i] + [rows[i]];
    }
    assert rows[..|rows|] == rows;
  }

  // ----- The search -----

  /** The index of some row with this local id, and none only if there is no such row. */
  method BinarySearch(sorted: seq<Row>, local: string) returns (index: Option<nat>)
    requires Sorted(sorted)
    ensures index.Some? ==> index.value < |sorted| && sorted[index.value].localId == Some(local)
    ensures index.None? ==> forall row <- sorted :: row.localId != Some(local)
  {
    var low, high := 0, |sorted|;
    while low < high
      invariant 0 <= low <= high <= |sorted|
      invariant forall i | 0 <= i < |sorted| && !(low <= i < high) :: sorted[i].localId != Some(local)
    {
      var middle := low + (high - low) / 2;
      var found := sorted[middle].localId;
      if found == Some(local) {
        return Some(middle);
      }
      if Before(found, Some(local)) {
        forall i | 0 <= i < middle
          ensures sorted[i].localId != Some(local)
        {
          BeforeIsAnOrder(sorted[i].localId, found, None);
        }
        low := middle + 1;
      } else {
        forall i | middle < i < |sorted|
          ensures sorted[i].localId != Some(local)
        {
          BeforeIsAnOrder(sorted[i].localId, found, None);
        }
        high := middle;
      }
    }
    index := None;
  }

  // ----- The join -----

  /** No two containers are the same one in the runtime. */
  ghost predicate DistinctLocals(rows: seq<Row>) {
    forall a <- rows, b <- rows | a.localId.Some? && a.localId == b.localId :: a == b
  }

  /** The plain lookup: the first row with this local id. */
  function Lookup(rows: seq<Row>, local: string): Option<Uuid> {
    if rows == [] then None
    else if rows[0].localId == Some(local) then Some(rows[0].id)
    else Lookup(rows[1..], local)
  }

  lemma {:induction false} LookupFinds(rows: seq<Row>, local: string)
    ensures match Lookup(rows, local)
      case None => forall row <- rows :: row.localId != Some(local)
      case Some(id) => Row(id, Some(local)) in rows
  {
    if rows != [] && rows[0].localId != Some(local) {
      LookupFinds(rows[1..], local);
      assert rows == [rows[0]] + rows[1..];
    }
  }

  /** The runtime's list with each container under its stored id; what the runtime does not name, and what is
      not stored, is left out. */
  function Joined(rows: seq<Row>, summaries: seq<Option<string>>): seq<(Uuid, Option<string>)> {
    if summaries == [] then []
    else
      var last := summaries[|summaries| - 1];
      var before := Joined(rows, summaries[..|summaries| - 1]);
      match if last.Some? then Lookup(rows, last.value) else None
      case None => before
      case Some(id) => before + [(id, last)]
  }

  /** Some stored container has this id in the runtime. */
  predicate IsStored(rows: seq<Row>, summary: Option<string>) {
    summary.Some? && exists row <- rows :: row.localId == summary
  }

  /** The entries are those of the stored ones among the first `n` summaries, in their order; `at` tells of which
      summary each is. */
  ghost predicate Indexed(rows: seq<Row>, summaries: seq<Option<string>>, n: nat, ids: seq<(Uuid, Option<string>)>,
                          at: seq<nat>)
    requires n <= |summaries|
  {
    && |at| == |ids| && (forall i, j | 0 <= i < j < |at| :: at[i] < at[j])
    && (forall i | 0 <= i < |at| :: at[i] < n && ids[i].1 == summaries[at[i]])
    && (forall m: nat | m < n :: m in at <==> IsStored(rows, summaries[m]))
  }

  lemma NothingIndexed(rows: seq<Row>, summaries: seq<Option<string>>)
    ensures Indexed(rows, summaries, 0, [], [])
  {
  }

  lemma OneMoreIndexed(rows: seq<Row>, summaries: seq<Option<string>>, n: nat, ids: seq<(Uuid, Option<string>)>,
                       at: seq<nat>, id: Uuid)
    requires n < |summaries| && Indexed(rows, summaries, n, ids, at)
    ensures !IsStored(rows, summaries[n]) ==> Indexed(rows, summaries, n + 1, ids, at)
    ensures IsStored(rows, summaries[n]) ==> Indexed(rows, summaries, n + 1, ids + [(id, summaries[n])], at + [n])
  {
    hide IsStored;
  }

  /** The containers in one of the given states, or all that are stored if none is given, the ones without a
      local id included. `at` tells which summary each of them is of: every one that is stored, in their order. */
  method ListIds(rows: seq<Row>, anyState: bool, summaries: seq<Option<string>>)
    returns (ids: seq<(Uuid, Option<string>)>, ghost at: seq<nat>)
    ensures anyState ==>
      |ids| == |rows| && forall i | 0 <= i < |ids| :: ids[i] == (rows[i].id, rows[i].localId)
    ensures !anyState ==> forall pair <- ids :: pair.1.Some? && pair.1 in summaries && Row(pair.0, pair.1) in rows
    ensures !anyState && DistinctLocals(rows) ==> ids == Joined(rows, summaries)
    ensures !anyState ==> Indexed(rows, summaries, |summaries|, ids, at)
  {
    hide DistinctLocals, Lookup, Sorted, Indexed;
    at := [];
    if anyState {
      return seq(|rows|, i requires 0 <= i < |rows| => (rows[i].id, rows[i].localId)), at;
    }
    var sorted := Sort(rows);
    ids := [];
    NothingIndexed(rows, summaries);
    for n := 0 to |summaries|
      invariant Indexed(rows, summaries, n, ids, at)
      invariant forall pair <- ids :: pair.1.Some? && pair.1 in summaries && Row(pair.0, pair.1) in rows
      invariant DistinctLocals(rows) ==> ids == Joined(rows, summaries[..n])
    {
      var summary := summaries[n];
      OneMoreIndexed(rows, summaries, n, ids, at, 0);
      if summary.Some? {
        var index := BinarySearch(sorted, summary.value);
        SearchIsLookup(rows, sorted, summary.value, index);
        if index.Some? {
          OneMoreIndexed(rows, summaries, n, ids, at, sorted[index.value].id);
          ids, at := ids + [(sorted[index.value].id, summary)], at + [n];
        }
      }
      assert summaries[..n + 1][..n] == summaries[..n];
    }
    assert summaries[..|summaries|] == summaries;
  }

  /** Among distinct ids the search in the sorted rows finds what the plain lookup finds. */
  lemma SearchIsLookup(rows: seq<Row>, sorted: seq<Row>, local: string, index: Option<nat>)
    requires multiset(sorted) == multiset(rows)
    requires index.Some? ==> index.value < |sorted| && sorted[index.value].localId == Some(local)
    requires index.None? ==> forall row <- sorted :: row.localId != Some(local)
    ensures index.Some? ==> sorted[index.value] in rows
    ensures IsStored(rows, Some(local)) <==> index.Some?
    ensures DistinctLocals(rows) ==>
      Lookup(rows, local) == if index.Some? then Some(sorted[index.value].id) else None
  {
    LookupFinds(rows, local);
    forall row: Row
      ensures row in rows <==> row in sorted
    {
      assert row in rows <==> row in multiset(rows);
      assert row in sorted <==> row in multiset(sorted);
    }
  }

  /** The containers of the runtime under their stored ids, each with its summary. */
  method List(rows: seq<Row>, summaries: seq<Option<string>>) returns (containers: map<Uuid, Option<string>>)
    ensures forall id <- containers :: containers[id] in summaries && Row(id, containers[id]) in rows
    ensures DistinctLocals(rows) ==>
      forall row <- rows :: row.localId.Some? && row.localId in summaries ==> row.id in containers
  {
    var sorted := Sort(rows);
    containers := map[];
    for n := 0 to |summaries|
      invariant forall id <- containers :: containers[id] in summaries && Row(id, containers[id]) in rows
      invariant DistinctLocals(rows) ==>
        forall row <- rows :: row.localId.Some? && row.localId in summaries[..n] ==> row.id in containers
    {
      var summary := summaries[n];
      if summary.Some? {
        var index := BinarySearch(sorted, summary.value);
        SearchIsLookup(rows, sorted, summary.value, index);
        if index.Some? {
          containers := containers[sorted[index.value].id := summary];
        }
        LookupFinds(rows, summary.value);
      }
      assert summaries[..n + 1] == summaries[..n] + [summary];
    }
    assert summaries[..|summaries|] == summaries;
  }
}
