/** `rows.map((r, i) => f(r, i)).filter(keep)`, the shape of both listing
    loaders, with the row's index passed to `f` as the record's id. */
module Pipeline {
  import opened Js

  /** `rows.map((r, i) => f(r, offset + i)).filter(keep)`, fused. */
  function MapFilter<L>(rows: seq<Row>, offset: nat, f: (Row, nat) -> L, keep: L -> bool): (r: seq<L>)
    ensures |r| <= |rows|
    ensures forall j :: 0 <= j < |r| ==> keep(r[j])
  {
    if rows == [] then []
    else
      var x := f(rows[0], offset);
      (if keep(x) then [x] else []) + MapFilter(rows[1..], offset + 1, f, keep)
  }

  /** Each record names, by its id, the row it was made from. */
  ghost predicate FromRows<L>(r: seq<L>, rows: seq<Row>, offset: nat, f: (Row, nat) -> L, id: L -> int)
  {
    forall j :: 0 <= j < |r| ==> offset <= id(r[j]) < offset + |rows| && r[j] == f(rows[id(r[j]) - offset], id(r[j]))
  }

  predicate IdsRising<L>(r: seq<L>, id: L -> int)
  {
    forall j, k :: 0 <= j < k < |r| ==> id(r[j]) < id(r[k])
  }

  /** Every row whose record passes `keep` has its record in `r`. */
  ghost predicate NoneLost<L>(r: seq<L>, rows: seq<Row>, offset: nat, f: (Row, nat) -> L, keep: L -> bool, id: L -> int)
  {
    forall k :: 0 <= k < |rows| && keep(f(rows[k], offset + k)) ==> exists j :: 0 <= j < |r| && id(r[j]) == offset + k
  }

  /** The records that survive the filter, each stamped with the index it
      was given, name the rows they were made from. */
  lemma {:induction false} MapFilterFromRows<L>(rows: seq<Row>, offset: nat, f: (Row, nat) -> L, keep: L -> bool, id: L -> int)
    requires forall row, i :: id(f(row, i)) == i
    ensures FromRows(MapFilter(rows, offset, f, keep), rows, offset, f, id)
  {
    if rows != [] {
      var rest := MapFilter(rows[1..], offset + 1, f, keep);
      MapFilterFromRows(rows[1..], offset + 1, f, keep, id);
      var r := MapFilter(rows, offset, f, keep);
      var x := f(rows[0], offset);
      var head := if keep(x) then [x] else [];
      assert r == head + rest;
      forall j | 0 <= j < |r|
        ensures offset <= id(r[j]) < offset + |rows| && r[j] == f(rows[id(r[j]) - offset], id(r[j]))
      {
        if j >= |head| {
          var y := rest[j - |head|];
          assert r[j] == y;
          assert offset + 1 <= id(y) < offset + 1 + |rows[1..]| && y == f(rows[1..][id(y) - (offset + 1)], id(y));
          assert rows[1..][id(y) - (offset + 1)] == rows[id(y) - offset];
        }
      }
    }
  }

  /** Every surviving record's id is the index of a row. */
  lemma {:induction false} MapFilterIdsBounded<L>(rows: seq<Row>, offset: nat, f: (Row, nat) -> L, keep: L -> bool, id: L -> int)
    requires forall row, i :: id(f(row, i)) == i
    ensures forall j :: 0 <= j < |MapFilter(rows, offset, f, keep)| ==>
      offset <= id(MapFilter(rows, offset, f, keep)[j]) < offset + |rows|
  {
    if rows != [] {
      var rest := MapFilter(rows[1..], offset + 1, f, keep);
      MapFilterIdsBounded(rows[1..], offset + 1, f, keep, id);
      var r := MapFilter(rows, offset, f, keep);
      var x := f(rows[0], offset);
      var head := if keep(x) then [x] else [];
      assert r == head + rest;
      forall j | 0 <= j < |r| ensures offset <= id(r[j]) < offset + |rows| {
        if j >= |head| {
          assert r[j] == rest[j - |head|];
        } else {
          assert r[j] == x;
        }
      }
    }
  }

  /** The ids of the surviving records rise strictly: row order is kept. */
  lemma {:induction false} MapFilterIdsRise<L>(rows: seq<Row>, offset: nat, f: (Row, nat) -> L, keep: L -> bool, id: L -> int)
    requires forall row, i :: id(f(row, i)) == i
    ensures IdsRising(MapFilter(rows, offset, f, keep), id)
  {
    if rows != [] {
      var rest := MapFilter(rows[1..], offset + 1, f, keep);
      MapFilterIdsRise(rows[1..], offset + 1, f, keep, id);
      MapFilterIdsBounded(rows[1..], offset + 1, f, keep, id);
      var r := MapFilter(rows, offset, f, keep);
      var x := f(rows[0], offset);
      var head := if keep(x) then [x] else [];
      assert r == head + rest;
      forall j, k | 0 <= j < k < |r| ensures id(r[j]) < id(r[k]) {
        assert r[k] == rest[k - |head|];
        var y := rest[k - |head|];
        assert offset + 1 <= id(y);
        if j >= |head| {
          assert r[j] == rest[j - |head|];
        } else {
          assert r[j] == x;
        }
      }
    }
  }

  /** No row whose record passes the filter is lost. */
  lemma {:induction false} MapFilterNoneLost<L>(rows: seq<Row>, offset: nat, f: (Row, nat) -> L, keep: L -> bool, id: L -> int)
    requires forall row, i :: id(f(row, i)) == i
    ensures NoneLost(MapFilter(rows, offset, f, keep), rows, offset, f, keep, id)
  {
    if rows != [] {
      var rest := MapFilter(rows[1..], offset + 1, f, keep);
      MapFilterNoneLost(rows[1..], offset + 1, f, keep, id);
      var r := MapFilter(rows, offset, f, keep);
      var x := f(rows[0], offset);
      var head := if keep(x) then [x] else [];
      assert r == head + rest;
      forall k | 0 <= k < |rows| && keep(f(rows[k], offset + k))
        ensures exists j :: 0 <= j < |r| && id(r[j]) == offset + k
      {
        if k == 0 {
          assert id(r[0]) == offset;
        } else {
          assert rows[1..][k - 1] == rows[k];
          var j :| 0 <= j < |rest| && id(rest[j]) == offset + 1 + (k - 1);
          assert r[j + |head|] == rest[j];
        }
      }
    }
  }

  /** The three facts above for a whole row list, ids counted from 0. */
  lemma MapFilterIndexed<L>(rows: seq<Row>, f: (Row, nat) -> L, keep: L -> bool, id: L -> int)
    requires forall row, i :: id(f(row, i)) == i
    ensures var r := MapFilter(rows, 0, f, keep);
      && (forall j :: 0 <= j < |r| ==> 0 <= id(r[j]) < |rows| && r[j] == f(rows[id(r[j])], id(r[j])))
      && (forall j, k :: 0 <= j < k < |r| ==> id(r[j]) < id(r[k]))
      && (forall k :: 0 <= k < |rows| && keep(f(rows[k], k)) ==> exists j :: 0 <= j < |r| && id(r[j]) == k)
  {
    var r := MapFilter(rows, 0, f, keep);
    MapFilterFromRows(rows, 0, f, keep, id);
    MapFilterIdsRise(rows, 0, f, keep, id);
    MapFilterNoneLost(rows, 0, f, keep, id);
    assert NoneLost(r, rows, 0, f, keep, id);
    forall k | 0 <= k < |rows| && keep(f(rows[k], k)) ensures exists j :: 0 <= j < |r| && id(r[j]) == k {
      assert keep(f(rows[k], 0 + k));
    }
  }
}
