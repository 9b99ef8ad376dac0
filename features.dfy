/** Feature construction on the downloaded closes: the lag-1 column
    (`data["Prev_Close"] = data["Close"].shift(1)`) and the row filter
    (`data.dropna(inplace=True)`), app.py:40-42, portfolio_prediction.py:37-39.
    The close column is assumed complete, so only the lag column can be
    missing. */
module Features {
  import opened Wrappers

  /** One row of the frame after the lag column has been added. */
  datatype Row = Row(close: real, prevClose: Option<real>)

  /** shift(1): each row gets the previous row's close; the first gets none. */
  function Shift(closes: seq<real>): (rows: seq<Row>)
    ensures |rows| == |closes|
    ensures forall k :: 0 <= k < |rows| ==> rows[k].close == closes[k]
    ensures |rows| > 0 ==> rows[0].prevClose == None
    ensures forall k :: 1 <= k < |rows| ==> rows[k].prevClose == Some(closes[k - 1])
  {
    seq(|closes|, i requires 0 <= i < |closes| =>
      Row(closes[i], if i == 0 then None else Some(closes[i - 1])))
  }

  /** dropna: keeps, in order, the rows whose lag value is present. */
  function DropNa(rows: seq<Row>): (kept: seq<Row>)
    ensures |kept| <= |rows|
    ensures forall k :: 0 <= k < |kept| ==> kept[k].prevClose.Some? && kept[k] in rows
  {
    if rows == [] then []
    else (if rows[0].prevClose.Some? then [rows[0]] else []) + DropNa(rows[1..])
  }

  /** dropna keeps every row whose lag value is present. */
  lemma {:induction false} DropNaKeepsPresent(rows: seq<Row>, k: nat)
    requires k < |rows| && rows[k].prevClose.Some?
    ensures rows[k] in DropNa(rows)
  {
    var head := if rows[0].prevClose.Some? then [rows[0]] else [];
    assert DropNa(rows) == head + DropNa(rows[1..]);
    if k == 0 {
      assert DropNa(rows)[0] == rows[0];
    } else {
      DropNaKeepsPresent(rows[1..], k - 1);
      assert rows[1..][k - 1] == rows[k];
      var j :| 0 <= j < |DropNa(rows[1..])| && DropNa(rows[1..])[j] == rows[k];
      assert DropNa(rows)[|head| + j] == rows[k];
    }
  }

  /** The close column of a frame. */
  function Closes(rows: seq<Row>): (c: seq<real>)
    ensures |c| == |rows|
    ensures forall k :: 0 <= k < |rows| ==> c[k] == rows[k].close
  {
    seq(|rows|, k requires 0 <= k < |rows| => rows[k].close)
  }

  /** dropna leaves a frame without missing lag values unchanged. */
  lemma {:induction false} DropNaKeepsComplete(rows: seq<Row>)
    requires forall k :: 0 <= k < |rows| ==> rows[k].prevClose.Some?
    ensures DropNa(rows) == rows
  {
    if rows != [] {
      DropNaKeepsComplete(rows[1..]);
    }
  }

  /** After shift(1) and dropna exactly the first row is gone: row k of the
      result is close k+1 with close k as its lag value. */
  lemma LagDropsFirstRow(closes: seq<real>)
    requires |closes| > 0
    ensures DropNa(Shift(closes)) == Shift(closes)[1..]
    ensures |DropNa(Shift(closes))| == |closes| - 1
    ensures forall k :: 0 <= k < |closes| - 1 ==>
              DropNa(Shift(closes))[k] == Row(closes[k + 1], Some(closes[k]))
    ensures Closes(DropNa(Shift(closes))) == closes[1..]
  {
    var rows := Shift(closes);
    var tail := rows[1..];
    assert forall k :: 0 <= k < |tail| ==> tail[k] == Row(closes[k + 1], Some(closes[k]));
    DropNaKeepsComplete(tail);
    assert rows[0].prevClose == None;
    assert DropNa(rows) == [] + DropNa(tail);
    assert forall k :: 0 <= k < |tail| ==> Closes(tail)[k] == closes[1..][k];
  }

  /** The feature is the final close of the downloaded series when it has at
      least two points; a one-point series leaves no row at all. */
  lemma LastCloseAfterLag(closes: seq<real>)
    requires |closes| > 0
    ensures |closes| == 1 <==> DropNa(Shift(closes)) == []
    ensures |closes| >= 2 ==>
              DropNa(Shift(closes))[|DropNa(Shift(closes))| - 1].close == closes[|closes| - 1]
  {
    LagDropsFirstRow(closes);
  }
}
