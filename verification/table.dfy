/** Primary-key look-ups shared by the session and model tables. A table is a
    sequence of rows in row order, and `key` projects a row onto its id. */
module Table {
  import opened Wrappers

  /** Position of the first row whose id is `id`: a look-up by primary key. */
  function IndexOf(ids: seq<nat>, id: int): (r: Option<nat>)
    ensures r.Some? ==> r.value < |ids| && ids[r.value] == id
    ensures r.None? <==> forall i :: 0 <= i < |ids| ==> ids[i] != id
  {
    if |ids| == 0 then None
    else if ids[0] == id then Some(0)
    else match IndexOf(ids[1..], id)
      case None => None
      case Some(k) => Some(k + 1)
  }

  /** The largest id in use, 0 for an empty table. */
  function MaxId(ids: seq<nat>): (r: nat)
    ensures forall i :: 0 <= i < |ids| ==> ids[i] <= r
  {
    if |ids| == 0 then 0
    else
      var m := MaxId(ids[..|ids| - 1]);
      if ids[|ids| - 1] > m then ids[|ids| - 1] else m
  }

  /** The id a new row receives: one more than the largest in use, so it is
      never the id of an existing row. */
  function NextId(ids: seq<nat>): (r: nat)
    ensures forall i :: 0 <= i < |ids| ==> ids[i] < r
  {
    MaxId(ids) + 1
  }

  /** The row ids, in row order. */
  function Keys<T>(rows: seq<T>, key: T -> nat): (r: seq<nat>)
    ensures |r| == |rows|
    ensures forall i :: 0 <= i < |rows| ==> r[i] == key(rows[i])
  {
    seq(|rows|, i requires 0 <= i < |rows| => key(rows[i]))
  }

  /** Position of the first row whose id is `id`. */
  function Lookup<T>(rows: seq<T>, key: T -> nat, id: int): (r: Option<nat>)
    ensures r.Some? ==> r.value < |rows| && key(rows[r.value]) == id
    ensures r.None? <==> forall i :: 0 <= i < |rows| ==> key(rows[i]) != id
  {
    IndexOf(Keys(rows, key), id)
  }

  /** The id the database assigns to a new row of the table. */
  function FreshId<T>(rows: seq<T>, key: T -> nat): (r: nat)
    ensures forall i :: 0 <= i < |rows| ==> key(rows[i]) < r
  {
    NextId(Keys(rows, key))
  }
}
