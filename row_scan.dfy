/** The plain row scan of src/main.rs: rows held in place (each one a
    mutable cell) and a query that collects the positions whose data equals
    a target string. */
module RowScan {
  import opened Positions

  /** A row; its data is overwritten in place through its cell. */
  class Row {
    var data: string

    constructor (data: string)
      ensures this.data == data
    {
      this.data := data;
    }
  }

  /** The target of an equality query. */
  datatype Query = Query(equalTo: string)

  /** A view of a vector of rows; it owns nothing and never changes. */
  datatype NoIndex = NoIndex(rows: seq<Row>)

  /** Scans every row in order and collects, in order, the positions whose
      data equals the query's target. The method has no modifies clause: it
      only reads the rows. */
  method RunQuery(idx: NoIndex, q: Query) returns (result: seq<nat>)
    ensures |result| <= |idx.rows|
    ensures forall k :: 0 <= k < |result| ==> result[k] < |idx.rows|
    ensures StrictlyAscending(result)
    ensures forall pos :: 0 <= pos < |idx.rows| ==>
              (pos in result <==> idx.rows[pos].data == q.equalTo)
  {
    result := [];
    for pos := 0 to |idx.rows|
      invariant |result| <= pos
      invariant forall k :: 0 <= k < |result| ==> result[k] < pos
      invariant StrictlyAscending(result)
      invariant forall j :: 0 <= j < pos ==>
                  (j in result <==> idx.rows[j].data == q.equalTo)
    {
      if idx.rows[pos].data == q.equalTo {
        result := result + [pos];
      }
    }
  }

  /** The program's own run: rows "foo" and "bar", the first overwritten
      with "quux" after the index was made, then a query for "bar". */
  method Scenario() returns (result: seq<nat>)
    ensures result == [1]
  {
    var foo := new Row("foo");
    var bar := new Row("bar");
    var v := [foo, bar];
    var idx := NoIndex(v);
    v[0].data := "quux";
    result := RunQuery(idx, Query("bar"));
    AscendingDetermined(result, [1]);
  }
}
