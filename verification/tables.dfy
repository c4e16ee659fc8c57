/** The database side of the REST server, abstracted: each table is a map from id to the
    row's column values, plus the next value of its SERIAL id sequence. The statements the
    handlers send become the operations below. */
module Tables {

  import opened Json

  /** The values of a row's columns, in the order of the table's configuration. */
  type Row = seq<Json>

  datatype Table = Table(rows: map<nat, Row>, next: nat)

  /** The largest value of a PostgreSQL `integer`: the last value a SERIAL sequence gives
      and the largest id an `integer` parameter accepts. */
  const Int4Max: nat := 2147483647

  /** Every id was drawn from the sequence, which starts at 1 and stops after `Int4Max`. */
  predicate Valid(t: Table) {
    1 <= t.next <= Int4Max + 1 && forall id :: id in t.rows ==> 1 <= id < t.next
  }

  /** `nextval` succeeds: the sequence has not yet given its last value. */
  predicate CanDraw(t: Table) {
    t.next <= Int4Max
  }

  /** A value whose text parameter would carry the character U+0000, which PostgreSQL
      refuses in text. `pg` sends a string as it is and an array as an array literal built
      from its elements; it sends an object as `JSON.stringify` text, which escapes U+0000. */
  predicate HasNul(v: Json) {
    match v
    case JStr(s) => '\0' in s
    case JArr(items) => exists i :: 0 <= i < |items| && HasNul(items[i])
    case _ => false
  }

  /** Every value of the row can be sent as a statement parameter. */
  predicate Sendable(vs: Row) {
    forall i :: 0 <= i < |vs| ==> !HasNul(vs[i])
  }

  /** A freshly created table. */
  const EmptyTable: Table := Table(map[], 1)

  /** Counting up from a lower bound `k` of `s` reaches its least element before `y`. */
  lemma {:induction false} MinimumFrom(s: set<nat>, k: nat, y: nat)
    requires y in s && forall x :: x in s ==> k <= x
    ensures exists m :: m in s && forall x :: x in s ==> m <= x
    decreases y - k
  {
    if k !in s {
      assert y != k;
      MinimumFrom(s, k + 1, y);
    }
  }

  lemma HasMinimum(s: set<nat>)
    requires s != {}
    ensures exists m :: m in s && forall x :: x in s ==> m <= x
  {
    var y :| y in s;
    MinimumFrom(s, 0, y);
  }

  /** The lowest id: what `ORDER BY id ASC LIMIT 1` selects. */
  function MinId(s: set<nat>): (m: nat)
    requires s != {}
    ensures m in s && forall x :: x in s ==> m <= x
  {
    HasMinimum(s);
    var m :| m in s && forall x :: x in s ==> m <= x;
    m
  }

  /** The ids in ascending order: `ORDER BY id ASC`. */
  function SortedIds(s: set<nat>): (r: seq<nat>)
    ensures |r| == |s|
    ensures forall i :: 0 <= i < |r| ==> r[i] in s
    ensures forall x :: x in s ==> x in r
    ensures forall i, j :: 0 <= i < j < |r| ==> r[i] < r[j]
    decreases |s|
  {
    if s == {} then []
    else
      var m := MinId(s);
      assert |s - {m}| < |s|;
      var rest := SortedIds(s - {m});
      PrependMin(s, m, rest);
      [m] + rest
  }

  /** Putting the least element in front of the sorted rest sorts the whole set. */
  lemma PrependMin(s: set<nat>, m: nat, rest: seq<nat>)
    requires m in s && forall x :: x in s ==> m <= x
    requires |rest| == |s - {m}|
    requires forall i :: 0 <= i < |rest| ==> rest[i] in s - {m}
    requires forall x :: x in s - {m} ==> x in rest
    requires forall i, j :: 0 <= i < j < |rest| ==> rest[i] < rest[j]
    ensures var r := [m] + rest;
            |r| == |s| && (forall i :: 0 <= i < |r| ==> r[i] in s) && (forall x :: x in s ==> x in r)
            && forall i, j :: 0 <= i < j < |r| ==> r[i] < r[j]
  {
    assert |s - {m}| == |s| - 1;
    assert forall i :: 0 <= i < |rest| ==> m < rest[i];
    assert forall x :: x in s ==> x == m || x in s - {m};
  }

  /** `SELECT * FROM t ORDER BY id ASC`: every row with its id, by ascending id. */
  function Listing(t: Table): (l: seq<(nat, Row)>)
    ensures forall i :: 0 <= i < |l| ==> l[i].0 in t.rows && l[i].1 == t.rows[l[i].0]
    ensures forall i, j :: 0 <= i < j < |l| ==> l[i].0 < l[j].0
  {
    var ids := SortedIds(t.rows.Keys);
    seq(|ids|, i requires 0 <= i < |ids| => (ids[i], t.rows[ids[i]]))
  }

  /** The listing leaves no row out. */
  lemma ListingCovers(t: Table, id: nat)
    requires id in t.rows
    ensures exists i :: 0 <= i < |Listing(t)| && Listing(t)[i] == (id, t.rows[id])
  {
    var ids := SortedIds(t.rows.Keys);
    var i :| 0 <= i < |ids| && ids[i] == id;
    assert Listing(t)[i] == (id, t.rows[id]);
  }

  /** `INSERT ... RETURNING *`: the row gets the next id of the sequence, and no other row
      changes. When the sequence can draw, that id is new and the result stays valid. */
  function Insert(t: Table, row: Row): (r: Table)
    ensures r.next == t.next + 1
    ensures r.rows.Keys == t.rows.Keys + {t.next} && r.rows[t.next] == row
    ensures forall k :: k in t.rows && k != t.next ==> r.rows[k] == t.rows[k]
    ensures Valid(t) && CanDraw(t) ==> t.next !in t.rows && Valid(r) && |r.rows| == |t.rows| + 1
  {
    var r := Table(t.rows[t.next := row], t.next + 1);
    assert r.rows.Keys == t.rows.Keys + {t.next};
    r
  }

  /** An INSERT that a constraint rejects after drawing its id still uses up a value of the
      sequence: no row changes, and the next id moves on. */
  function Burn(t: Table): (r: Table)
    ensures r.rows == t.rows && r.next == t.next + 1
    ensures Valid(t) && CanDraw(t) ==> Valid(r)
  {
    Table(t.rows, t.next + 1)
  }

  /** `UPDATE ... WHERE id=$n`: only the row `id` changes, and every id stays drawn. */
  function Update(t: Table, id: nat, row: Row): (r: Table)
    requires id in t.rows
    ensures r.next == t.next && r.rows.Keys == t.rows.Keys && r.rows[id] == row
    ensures forall k :: k in t.rows && k != id ==> r.rows[k] == t.rows[k]
    ensures Valid(t) ==> Valid(r)
  {
    Table(t.rows[id := row], t.next)
  }

  /** `DELETE ... WHERE id=$1`: the row `id` is gone (if it was there), the others stay. */
  function Delete(t: Table, id: nat): (r: Table)
    ensures r.next == t.next && r.rows.Keys == t.rows.Keys - {id}
    ensures forall k :: k in r.rows ==> r.rows[k] == t.rows[k]
    ensures Valid(t) ==> Valid(r)
  {
    Table(t.rows - {id}, t.next)
  }
}
