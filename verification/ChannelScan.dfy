/** The batched scan over all enabled channels by an id cursor (controller/channel_upstream_update.go).

    The table does not change during a scan.  Cancelling the context and failing queries are parameters. */
module ChannelScan {
  datatype Row = Row(id: int, enabled: bool)

  // ------------------------------------------------------------- the query

  /** where status = enabled, and id > lastID once there is a cursor */
  function Where(table: seq<Row>, lastID: int): seq<Row> {
    if table == [] then []
    else
      var row := table[0];
      (if row.enabled && (lastID > 0 ==> row.id > lastID) then [row] else []) + Where(table[1..], lastID)
  }

  function Insert(row: Row, rows: seq<Row>): seq<Row> {
    if rows == [] || row.id <= rows[0].id then [row] + rows else [rows[0]] + Insert(row, rows[1..])
  }

  function OrderById(rows: seq<Row>): seq<Row> {
    if rows == [] then [] else Insert(rows[0], OrderById(rows[1..]))
  }

  /** findEnabledChannelsAfterID */
  function FindAfter(table: seq<Row>, lastID: int, batch: nat): seq<Row> {
    var rows := OrderById(Where(table, lastID));
    if |rows| <= batch then rows else rows[..batch]
  }

  // -------------------------------------------------------------- the scan

  predicate DistinctIds(rows: seq<Row>) {
    rows == [] || (DistinctIds(rows[1..]) && forall row :: row in rows[1..] ==> row.id != rows[0].id)
  }

  predicate IsTable(table: seq<Row>) {
    DistinctIds(table) && forall row :: row in table ==> row.id > 0
  }

  predicate Above(rows: seq<Row>, id: int) {
    forall row :: row in rows ==> row.id > id
  }

  predicate Ascending(rows: seq<Row>) {
    rows == [] || (Above(rows[1..], rows[0].id) && Ascending(rows[1..]))
  }

  /** All enabled channels by ascending id. */
  function Enabled(table: seq<Row>): seq<Row> {
    OrderById(Where(table, 0))
  }

  /** Visits a prefix of the enabled channels in ascending order, each once; all of them, unless the
      context is cancelled or a query fails. */
  method Scan(table: seq<Row>, batch: nat, cancelled: nat -> bool, fails: int -> bool) returns (visited: seq<Row>)
    requires IsTable(table) && batch > 0
    ensures visited <= Enabled(table)
    ensures (forall n :: !cancelled(n)) && (forall id :: !fails(id)) ==> visited == Enabled(table)
    ensures visited == Enabled(table) || cancelled(|visited|) || exists id :: fails(id)
    ensures forall n :: 0 <= n < |visited| ==> !cancelled(n)
  {
    ghost var all := Enabled(table);
    ghost var k := 0;
    visited := [];
    var lastID := 0;
    while true
      invariant AtCursor(all, k, visited, lastID)
      invariant forall n :: 0 <= n < |visited| ==> !cancelled(n)
      decreases |all| - k
    {
      if cancelled(|visited|) || fails(lastID) {
        return;
      }
      var channels := NextBatch(table, lastID, batch, all, k);
      if |channels| == 0 {
        return;
      }
      lastID := channels[|channels| - 1].id;
      var cut;
      visited, cut := Visit(channels, visited, cancelled, all);
      if cut {
        return;
      }
      k := k + |channels|;
      if |channels| < batch {
        return;
      }
    }
  }

  /** The first k channels are visited and the cursor is the id of the last of them. */
  ghost predicate AtCursor(all: seq<Row>, k: nat, visited: seq<Row>, lastID: int) {
    k <= |all| && visited == all[..k] && lastID == if k == 0 then 0 else all[k - 1].id
  }

  method NextBatch(table: seq<Row>, lastID: int, batch: nat, ghost all: seq<Row>, ghost k: nat)
    returns (channels: seq<Row>)
    requires IsTable(table) && all == Enabled(table) && k <= |all| && lastID == if k == 0 then 0 else all[k - 1].id
    ensures k + |channels| <= |all| && all[..k] + channels == all[..k + |channels|]
    ensures channels != [] ==> channels[|channels| - 1] == all[k + |channels| - 1]
    ensures |channels| < batch ==> all[..k] + channels == all
  {
    channels := FindAfter(table, lastID, batch);
    BatchIsNext(table, k, batch);
  }

  /** The channels of one batch, until the context is cancelled. */
  method Visit(channels: seq<Row>, before: seq<Row>, cancelled: nat -> bool, ghost all: seq<Row>)
    returns (visited: seq<Row>, cut: bool)
    requires before + channels <= all
    ensures visited <= all
    ensures !cut ==> visited == before + channels
    ensures cut ==> cancelled(|visited|)
    ensures |before| <= |visited| && forall n :: |before| <= n < |visited| ==> !cancelled(n)
  {
    visited := before;
    for i := 0 to |channels|
      invariant visited == before + channels[..i]
      invariant forall n :: |before| <= n < |visited| ==> !cancelled(n)
    {
      if cancelled(|visited|) {
        return visited, true;
      }
      visited := visited + [channels[i]];
    }
    return visited, false;
  }

  // ------------------------------------------------------------- the proof

  lemma {:induction false} WhereMembers(table: seq<Row>, lastID: int)
    ensures forall row ::
              row in Where(table, lastID) <==> row in table && row.enabled && (lastID > 0 ==> row.id > lastID)
  {
    if table != [] {
      WhereMembers(table[1..], lastID);
      assert table == [table[0]] + table[1..];
    }
  }

  lemma {:induction false} WhereDistinct(table: seq<Row>, lastID: int)
    requires DistinctIds(table)
    ensures DistinctIds(Where(table, lastID))
  {
    if table != [] {
      var rest := Where(table[1..], lastID);
      WhereDistinct(table[1..], lastID);
      WhereMembers(table[1..], lastID);
      assert ([table[0]] + rest)[1..] == rest && [] + rest == rest;
    }
  }

  lemma {:induction false} InsertMembers(row: Row, rows: seq<Row>)
    ensures forall r :: r in Insert(row, rows) <==> r == row || r in rows
  {
    if rows != [] && row.id > rows[0].id {
      InsertMembers(row, rows[1..]);
      assert rows == [rows[0]] + rows[1..];
    }
  }

  lemma {:induction false} InsertAscending(row: Row, rows: seq<Row>)
    requires Ascending(rows) && forall r :: r in rows ==> r.id != row.id
    ensures Ascending(Insert(row, rows))
  {
    if rows == [] {
      assert [row][1..] == [];
    } else if row.id < rows[0].id {
      assert ([row] + rows)[1..] == rows && rows == [rows[0]] + rows[1..];
    } else {
      assert rows[0] in rows;
      var inserted := Insert(row, rows[1..]);
      InsertMembers(row, rows[1..]);
      InsertAscending(row, rows[1..]);
      assert ([rows[0]] + inserted)[1..] == inserted;
    }
  }

  lemma {:induction false} OrderByIdMembers(rows: seq<Row>)
    ensures forall row :: row in OrderById(rows) <==> row in rows
  {
    if rows != [] {
      assert rows == [rows[0]] + rows[1..];
      OrderByIdMembers(rows[1..]);
      InsertMembers(rows[0], OrderById(rows[1..]));
    }
  }

  lemma {:induction false} OrderByIdAscending(rows: seq<Row>)
    requires DistinctIds(rows)
    ensures Ascending(OrderById(rows))
  {
    if rows != [] {
      OrderByIdAscending(rows[1..]);
      OrderByIdMembers(rows[1..]);
      InsertAscending(rows[0], OrderById(rows[1..]));
    }
  }

  lemma HasFirst(rows: seq<Row>)
    ensures rows != [] ==> exists row :: row in rows
  {
    if rows != [] { assert rows[0] in rows; }
  }

  /** Rows in ascending order are determined by which rows they are. */
  lemma {:induction false} AscendingUnique(a: seq<Row>, b: seq<Row>)
    requires Ascending(a) && Ascending(b) && forall row :: row in a <==> row in b
    ensures a == b
  {
    if a == [] {
      HasFirst(b);
    } else {
      assert a[0] in a && a[0] in b;
      assert b[0] in b && b[0] in a;
      var restA, restB := a[1..], b[1..];
      assert a == [a[0]] + restA && b == [b[0]] + restB;
      assert a[0] == b[0];
      assert a[0] !in restA && a[0] !in restB;
      forall row
        ensures row in restA <==> row in restB
      {
        assert row in restA <==> row in a && row != a[0];
        assert row in restB <==> row in b && row != b[0];
      }
      AscendingUnique(restA, restB);
    }
  }

  /** The k-th id divides the rows of an ascending list. */
  lemma {:induction false} AscendingSuffix(rows: seq<Row>, k: nat)
    requires Ascending(rows) && 0 < k <= |rows|
    ensures Ascending(rows[k..])
    ensures forall row :: row in rows[k..] <==> row in rows && row.id > rows[k - 1].id
  {
    var first, rest := rows[0], rows[1..];
    assert rows == [first] + rest;
    if k > 1 {
      AscendingSuffix(rest, k - 1);
      assert rest[k - 1..] == rows[k..] && rest[k - 2] == rows[k - 1];
      assert rows[k - 1] in rest;
    }
  }

  /** The list the scan is compared with: every enabled row of the table once, by ascending id. */
  lemma EnabledMeaning(table: seq<Row>)
    requires DistinctIds(table)
    ensures Ascending(Enabled(table))
    ensures forall row :: row in Enabled(table) <==> row in table && row.enabled
  {
    QueryMeaning(table, 0);
  }

  lemma QueryMeaning(table: seq<Row>, lastID: int)
    requires DistinctIds(table)
    ensures var rows := OrderById(Where(table, lastID));
            && Ascending(rows)
            && forall row :: row in rows <==> row in table && row.enabled && (lastID > 0 ==> row.id > lastID)
  {
    var rows := Where(table, lastID);
    WhereMembers(table, lastID);
    WhereDistinct(table, lastID);
    OrderByIdMembers(rows);
    OrderByIdAscending(rows);
  }

  /** With the cursor at the k-th enabled channel the query returns the ones that follow. */
  lemma BatchIsNext(table: seq<Row>, k: nat, batch: nat)
    requires IsTable(table) && k <= |Enabled(table)|
    ensures var all := Enabled(table);
            var next := FindAfter(table, if k == 0 then 0 else all[k - 1].id, batch);
            next == if |all| - k <= batch then all[k..] else all[k..k + batch]
  {
    var all := Enabled(table);
    EnabledMeaning(table);
    if k > 0 {
      var lastID := all[k - 1].id;
      assert all[k - 1] in all;
      QueryMeaning(table, lastID);
      AscendingSuffix(all, k);
      AscendingUnique(OrderById(Where(table, lastID)), all[k..]);
    }
  }

  /** A table whose enabled rows fill the last batch costs one more, empty query. */
  lemma FullLastBatch(table: seq<Row>, batch: nat)
    requires IsTable(table) && batch > 0 && |Enabled(table)| > 0 && |Enabled(table)| % batch == 0
    ensures var all := Enabled(table);
            && |FindAfter(table, (if |all| == batch then 0 else all[|all| - batch - 1].id), batch)| == batch
            && FindAfter(table, all[|all| - 1].id, batch) == []
  {
    var n := |Enabled(table)|;
    assert n >= batch;
    BatchIsNext(table, n - batch, batch);
    BatchIsNext(table, n, batch);
  }
}
