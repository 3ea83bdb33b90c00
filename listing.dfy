/** The query shapes the listings use: a filter over the rows in the order
    the store returns them, OFFSET/LIMIT paging, and the ordering
    `call_date DESC NULLS LAST`. */
module Listing {
  import opened Models

  /** A duplicate-free listing of exactly the keys of `table`: the order in
      which the store happens to return the rows of a query without ORDER BY. */
  predicate IsScan<V>(scan: seq<Uuid>, table: map<Uuid, V>) {
    && (forall i, j :: 0 <= i < j < |scan| ==> scan[i] != scan[j])
    && (forall k :: k in table ==> k in scan)
    && (forall k :: k in scan ==> k in table)
  }

  /** The rows of `table` that satisfy `keep`, in scan order (a WHERE clause). */
  function Select<V(==)>(table: map<Uuid, V>, scan: seq<Uuid>, keep: V -> bool): (r: seq<V>)
    ensures |r| <= |scan|
    ensures forall v :: v in r ==> keep(v) && v in table.Values
    ensures forall k :: k in scan && k in table && keep(table[k]) ==> table[k] in r
  {
    if scan == [] then []
    else
      var k := scan[0];
      (if k in table && keep(table[k]) then [table[k]] else []) + Select(table, scan[1..], keep)
  }

  /** Over a duplicate-free scan, the filter keeps one row per matching key. */
  lemma {:induction false} SelectCount<V>(table: map<Uuid, V>, scan: seq<Uuid>, keep: V -> bool)
    requires forall i, j :: 0 <= i < j < |scan| ==> scan[i] != scan[j]
    ensures |Select(table, scan, keep)| == |set k | k in scan && k in table && keep(table[k])|
  {
    var all := set k | k in scan && k in table && keep(table[k]);
    if scan == [] {
      assert all == {};
    } else {
      var rest := set k | k in scan[1..] && k in table && keep(table[k]);
      SelectCount(table, scan[1..], keep);
      assert scan[0] !in scan[1..] by {
        forall i | 0 <= i < |scan[1..]| ensures scan[1..][i] != scan[0] {
          assert scan[1..][i] == scan[i + 1];
        }
      }
      if scan[0] in table && keep(table[scan[0]]) {
        assert all == rest + {scan[0]};
      } else {
        assert all == rest;
      }
    }
  }

  /** A filter every scanned row passes keeps every scanned row, in scan order. */
  lemma {:induction false} SelectAll<V>(table: map<Uuid, V>, scan: seq<Uuid>, keep: V -> bool)
    requires forall k :: k in scan ==> k in table && keep(table[k])
    ensures |Select(table, scan, keep)| == |scan|
    ensures forall i :: 0 <= i < |scan| ==> Select(table, scan, keep)[i] == table[scan[i]]
  {
    if scan != [] {
      assert forall i :: 1 <= i < |scan| ==> scan[1..][i - 1] == scan[i];
      SelectAll(table, scan[1..], keep);
    }
  }

  /** Two filters that agree on every row select the same rows. */
  lemma {:induction false} SelectSameFilter<V>(table: map<Uuid, V>, scan: seq<Uuid>, keep1: V -> bool, keep2: V -> bool)
    requires forall v :: keep1(v) == keep2(v)
    ensures Select(table, scan, keep1) == Select(table, scan, keep2)
  {
    if scan != [] {
      SelectSameFilter(table, scan[1..], keep1, keep2);
    }
  }

  /** The keys of the rows of `table` that satisfy `keep`. */
  function MatchingKeys<V>(table: map<Uuid, V>, keep: V -> bool): set<Uuid> {
    set k | k in table && keep(table[k])
  }

  /** The number of rows a filter keeps does not depend on the scan order:
      it is the number of matching rows of the table. */
  lemma SelectCountsMatches<V>(table: map<Uuid, V>, scan: seq<Uuid>, keep: V -> bool)
    requires IsScan(scan, table)
    ensures |Select(table, scan, keep)| == |MatchingKeys(table, keep)|
  {
    SelectCount(table, scan, keep);
    assert (set k | k in scan && k in table && keep(table[k])) == MatchingKeys(table, keep);
  }

  /** The number of rows OFFSET `skip` LIMIT `limit` returns out of `count`. */
  function WindowLength(count: nat, skip: nat, limit: nat): nat {
    if skip >= count then 0 else if skip + limit <= count then limit else count - skip
  }

  /** OFFSET `skip` LIMIT `limit`: the rows at positions skip, skip+1, ... of
      `s`, as many as `limit` allows and `s` holds. */
  function Window<T>(s: seq<T>, skip: nat, limit: nat): (r: seq<T>)
    ensures |r| == WindowLength(|s|, skip, limit)
    ensures |r| <= limit
    ensures forall i :: 0 <= i < |r| ==> skip + i < |s| && r[i] == s[skip + i]
    ensures |r| == limit || skip + |r| >= |s|
    ensures forall x :: x in r ==> x in s
  {
    if skip >= |s| then []
    else s[skip..if skip + limit <= |s| then skip + limit else |s|]
  }

  /** `call_date DESC NULLS LAST`: a record with call date `a` may come before
      one with call date `b`. */
  predicate CallDateFirst(a: Option<Timestamp>, b: Option<Timestamp>) {
    b.None? || (a.Some? && a.value >= b.value)
  }

  predicate OrderedByCallDate(s: seq<CallHistory>) {
    forall i, j :: 0 <= i < j < |s| ==> CallDateFirst(s[i].callDate, s[j].callDate)
  }

  /** Prepending a record that may come before every record of an ordered
      listing keeps it ordered. */
  lemma OrderedCons(h: CallHistory, t: seq<CallHistory>)
    requires OrderedByCallDate(t)
    requires forall x :: x in t ==> CallDateFirst(h.callDate, x.callDate)
    ensures OrderedByCallDate([h] + t)
  {
    var r := [h] + t;
    forall i, j | 0 <= i < j < |r| ensures CallDateFirst(r[i].callDate, r[j].callDate) {
      assert r[j] == t[j - 1];
      if i > 0 {
        assert r[i] == t[i - 1];
      }
    }
  }

  function InsertByCallDate(c: CallHistory, s: seq<CallHistory>): (r: seq<CallHistory>)
    ensures multiset(r) == multiset(s) + multiset{c}
  {
    if s == [] then [c]
    else if CallDateFirst(c.callDate, s[0].callDate) then [c] + s
    else
      assert s == [s[0]] + s[1..];
      [s[0]] + InsertByCallDate(c, s[1..])
  }

  lemma {:induction false} InsertKeepsOrder(c: CallHistory, s: seq<CallHistory>)
    requires OrderedByCallDate(s)
    ensures OrderedByCallDate(InsertByCallDate(c, s))
  {
    if s == [] {
    } else if CallDateFirst(c.callDate, s[0].callDate) {
      forall x | x in s ensures CallDateFirst(c.callDate, x.callDate) {
        var j :| 0 <= j < |s| && s[j] == x;
        if j > 0 {
          assert CallDateFirst(s[0].callDate, s[j].callDate);
        }
      }
      OrderedCons(c, s);
    } else {
      var tail := InsertByCallDate(c, s[1..]);
      InsertKeepsOrder(c, s[1..]);
      forall x | x in tail ensures CallDateFirst(s[0].callDate, x.callDate) {
        assert x in multiset(tail);
        if x != c {
          assert x in multiset(s[1..]);
          var j :| 0 <= j < |s[1..]| && s[1..][j] == x;
          assert s[j + 1] == x;
        }
      }
      OrderedCons(s[0], tail);
    }
  }

  /** The call records of `s` ordered by call date, latest first, records
      without a call date last. */
  function SortByCallDate(s: seq<CallHistory>): (r: seq<CallHistory>)
    ensures OrderedByCallDate(r)
    ensures multiset(r) == multiset(s)
  {
    if s == [] then []
    else
      assert s == [s[0]] + s[1..];
      var sorted := SortByCallDate(s[1..]);
      InsertKeepsOrder(s[0], sorted);
      InsertByCallDate(s[0], sorted)
  }

  /** A page cut from an ordered listing is ordered. */
  lemma WindowKeepsOrder(s: seq<CallHistory>, skip: nat, limit: nat)
    requires OrderedByCallDate(s)
    ensures OrderedByCallDate(Window(s, skip, limit))
  {
  }
}
