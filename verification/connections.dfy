/**
 The pure part of `getConnections` in netlist.go: take one snapshot of the
 TCP socket table, keep the records whose state matches the filter mode,
 format each survivor as a row, and append the placeholder rows.

 The snapshot itself comes from the operating system; here it is a
 parameter. A failed query is read as an empty table, since the error the
 library returns is discarded.
 */
module Connections {
  import opened Rows

  /** The filter mode, selected by keys 1, 2 and 3. */
  datatype Mode = Listen | Established | Any {
    /** The text the mode is held as, compared against a record's state. */
    function Name(): string {
      match this
      case Listen => "LISTEN"
      case Established => "ESTABLISHED"
      case Any => "ANY"
    }
  }

  /** What one query of the socket table returned. */
  datatype Snapshot = Listed(conns: seq<Conn>) | Failed

  /** The records a snapshot contributes; a failed query contributes none. */
  function Records(snap: Snapshot): seq<Conn>
  {
    match snap
    case Listed(conns) => conns
    case Failed => []
  }

  /** A record is shown when its state text equals the mode's name exactly,
      or when the mode is `ANY`. */
  predicate Visible(c: Conn, mode: Mode) {
    c.state == mode.Name() || mode == Any
  }

  /** The state filter: the visible records, in their original order. */
  function Filter(conns: seq<Conn>, mode: Mode): (r: seq<Conn>)
    ensures |r| <= |conns|
    ensures forall i :: 0 <= i < |r| ==> Visible(r[i], mode)
    ensures mode == Any ==> r == conns
  {
    if |conns| == 0 then []
    else if Visible(conns[0], mode) then [conns[0]] + Filter(conns[1..], mode)
    else Filter(conns[1..], mode)
  }

  /** A record survives the filter exactly when it is in the snapshot and
      visible under the mode. */
  lemma {:induction false} FilterMembers(conns: seq<Conn>, mode: Mode, c: Conn)
    ensures c in Filter(conns, mode) <==> c in conns && Visible(c, mode)
  {
    if |conns| > 0 {
      FilterMembers(conns[1..], mode, c);
      assert conns == [conns[0]] + conns[1..];
    }
  }

  /** `a` occurs in `b` with its elements in the same order, possibly with
      other elements of `b` between them. */
  predicate IsSubsequence<T(==)>(a: seq<T>, b: seq<T>)
    decreases |b|
  {
    if |a| == 0 then true
    else if |b| == 0 then false
    else if a[0] == b[0] then IsSubsequence(a[1..], b[1..])
    else IsSubsequence(a, b[1..])
  }

  /** Filtering keeps the relative order of the records. */
  lemma {:induction false} FilterIsSubsequence(conns: seq<Conn>, mode: Mode)
    ensures IsSubsequence(Filter(conns, mode), conns)
  {
    if |conns| > 0 {
      FilterIsSubsequence(conns[1..], mode);
      var rest := Filter(conns[1..], mode);
      if Visible(conns[0], mode) {
        assert ([conns[0]] + rest)[1..] == rest;
      }
    }
  }

  /** Filtering neither duplicates nor drops a visible record: each visible
      record occurs as often as in the snapshot, each hidden one never. */
  lemma {:induction false} FilterMultiplicity(conns: seq<Conn>, mode: Mode, c: Conn)
    ensures multiset(Filter(conns, mode))[c] ==
      if Visible(c, mode) then multiset(conns)[c] else 0
  {
    if |conns| > 0 {
      var x, rest := conns[0], conns[1..];
      FilterMultiplicity(rest, mode, c);
      assert conns == [x] + rest;
      assert multiset(conns) == multiset([x]) + multiset(rest);
      if Visible(x, mode) {
        assert Filter(conns, mode) == [x] + Filter(rest, mode);
        assert multiset(Filter(conns, mode)) == multiset([x]) + multiset(Filter(rest, mode));
      } else {
        assert Filter(conns, mode) == Filter(rest, mode);
      }
    }
  }

  /** Filtering a concatenation filters each part. */
  lemma {:induction false} FilterAppend(a: seq<Conn>, b: seq<Conn>, mode: Mode)
    ensures Filter(a + b, mode) == Filter(a, mode) + Filter(b, mode)
  {
    if |a| > 0 {
      var x := a[0];
      assert (a + b)[0] == x;
      assert (a + b)[1..] == a[1..] + b;
      FilterAppend(a[1..], b, mode);
      var kept := if Visible(x, mode) then [x] else [];
      assert Filter(a + b, mode) == kept + Filter(a[1..] + b, mode);
      assert Filter(a, mode) == kept + Filter(a[1..], mode);
    } else {
      assert a + b == b;
    }
  }

  /** Filtering twice under one mode is filtering once. */
  lemma {:induction false} FilterIdempotent(conns: seq<Conn>, mode: Mode)
    ensures Filter(Filter(conns, mode), mode) == Filter(conns, mode)
  {
    if |conns| > 0 {
      FilterIdempotent(conns[1..], mode);
      if Visible(conns[0], mode) {
        assert ([conns[0]] + Filter(conns[1..], mode))[1..] == Filter(conns[1..], mode);
      }
    }
  }

  /** The rows of a record list, one per record, in order. */
  function FormatAll(cs: seq<Conn>): (rows: seq<Row>)
    ensures |rows| == |cs|
    ensures forall i :: 0 <= i < |cs| ==> rows[i] == FormatRow(cs[i])
  {
    seq(|cs|, i requires 0 <= i < |cs| => FormatRow(cs[i]))
  }

  lemma {:induction false} FormatAllAppend(a: seq<Conn>, b: seq<Conn>)
    ensures FormatAll(a + b) == FormatAll(a) + FormatAll(b)
  {
  }

  /** The data rows as the loop builds them: walk the records in order and
      append a formatted row for each visible one. */
  function DataRows(conns: seq<Conn>, mode: Mode): (rows: seq<Row>)
    ensures |rows| <= |conns|
  {
    if |conns| == 0 then []
    else
      var last := conns[|conns| - 1];
      DataRows(conns[..|conns| - 1], mode)
        + (if Visible(last, mode) then [FormatRow(last)] else [])
  }

  /** Unfolding the loop once: the rows for all but the last record, then
      the rows the last record contributes. */
  lemma DataRowsSnoc(init: seq<Conn>, last: Conn, mode: Mode)
    ensures DataRows(init + [last], mode) == DataRows(init, mode) + FormatAll(Filter([last], mode))
  {
    var conns := init + [last];
    assert conns[..|conns| - 1] == init;
    assert conns[|conns| - 1] == last;
    assert [last][1..] == [];
    var kept := Filter([last], mode);
    if Visible(last, mode) {
      assert kept == [last];
      assert FormatAll(kept) == [FormatRow(last)];
    } else {
      assert kept == [];
      assert FormatAll(kept) == [];
    }
  }

  /** The loop's rows are the filtered records, each formatted. */
  lemma {:induction false} DataRowsIsFormattedFilter(conns: seq<Conn>, mode: Mode)
    ensures DataRows(conns, mode) == FormatAll(Filter(conns, mode))
    decreases |conns|
  {
    if |conns| > 0 {
      var init, last := conns[..|conns| - 1], conns[|conns| - 1];
      assert conns == init + [last];
      calc {
        DataRows(conns, mode);
        == { DataRowsSnoc(init, last, mode); }
        DataRows(init, mode) + FormatAll(Filter([last], mode));
        == { DataRowsIsFormattedFilter(init, mode); }
        FormatAll(Filter(init, mode)) + FormatAll(Filter([last], mode));
        == { FormatAllAppend(Filter(init, mode), Filter([last], mode)); }
        FormatAll(Filter(init, mode) + Filter([last], mode));
        == { FilterAppend(init, [last], mode); }
        FormatAll(Filter(conns, mode));
      }
    }
  }

  /** One refresh of the table: the data rows for the snapshot under the
      mode, followed by the 26 placeholder rows that `emptyCells(25)` makes.
      Padding is unconditional, so the table has exactly 26 rows more than
      there are matching records. */
  function GetConnections(snap: Snapshot, mode: Mode): (r: seq<Row>)
    ensures |r| == |Filter(Records(snap), mode)| + 26
    ensures r[..|r| - 26] == FormatAll(Filter(Records(snap), mode))
    ensures forall i :: |r| - 26 <= i < |r| ==> r[i] == Filler
    ensures forall i :: 0 <= i < |r| - 26 ==> r[i] != Filler
    ensures |Records(snap)| == 0 ==> |r| == 26
    ensures snap.Failed? ==> r == EmptyCells(FillerSlots)
  {
    var data := DataRows(Records(snap), mode);
    var pad := EmptyCells(FillerSlots);
    assert data == FormatAll(Filter(Records(snap), mode)) by {
      DataRowsIsFormattedFilter(Records(snap), mode);
    }
    assert (data + pad)[..|data|] == data;
    assert snap.Failed? ==> data + pad == pad by {
      if snap.Failed? {
        assert data == [];
      }
    }
    data + pad
  }

  /** A record of the snapshot has its row in the table exactly when it
      passes the filter; rows of other records cannot stand in for it,
      because a row keeps its record's state. */
  lemma RowShownIffVisible(snap: Snapshot, mode: Mode, c: Conn)
    requires c in Records(snap)
    ensures FormatRow(c) in GetConnections(snap, mode) <==> Visible(c, mode)
  {
    var r := GetConnections(snap, mode);
    var f := Filter(Records(snap), mode);
    var data := r[..|r| - 26];
    assert data == FormatAll(f);
    FilterMembers(Records(snap), mode, c);
    if Visible(c, mode) {
      assert c in f;
      var j :| 0 <= j < |f| && f[j] == c;
      assert data[j] == FormatRow(c);
      assert r[j] == data[j];
    } else {
      forall i | 0 <= i < |r|
        ensures r[i] != FormatRow(c)
      {
        if i < |r| - 26 {
          assert r[i] == data[i] == FormatRow(f[i]);
          assert r[i].state == f[i].state;
        }
      }
    }
  }

  /** A loopback listener, used as a worked example. */
  const LoopbackListener := Conn("tcp", "127.0.0.1", 8080, "0.0.0.0", 0, "LISTEN")

  /** Its row: the protocol upper-cased, the wildcard remote port as `*`. */
  lemma LoopbackListenerRow()
    ensures FormatRow(LoopbackListener) == Row("TCP", "127.0.0.1:8080", "0.0.0.0:*", "LISTEN")
  {
    assert Text.Decimal(8) == "8";
    assert Text.Decimal(80) == "80";
    assert Text.Decimal(808) == "808";
    assert Text.Decimal(8080) == "8080";
    assert Text.Upper("tcp") == "TCP";
  }

  /** Its row shows under LISTEN and not under ESTABLISHED. */
  lemma LoopbackListenerScenario()
    ensures FormatRow(LoopbackListener) in GetConnections(Listed([LoopbackListener]), Listen)
    ensures FormatRow(LoopbackListener) !in GetConnections(Listed([LoopbackListener]), Established)
  {
    RowShownIffVisible(Listed([LoopbackListener]), Listen, LoopbackListener);
    RowShownIffVisible(Listed([LoopbackListener]), Established, LoopbackListener);
  }
}
