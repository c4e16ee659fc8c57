/** The personal-info endpoint's single record (backend/server-pg.ts:99-131): reading the
    first row, and the upsert behind POST and PUT, which inserts into an empty table and
    otherwise overwrites the row with the lowest id. */
module PersonalInfo {

  import opened Wrappers
  import opened Json
  import opened Tables
  import opened Resources

  /** `[data.fullName || null, ..., data.photoUrl || null]`; `None` when the body is `null`
      and reading a member throws. */
  function PersonalValues(data: Json): (vs: Option<Row>)
    ensures vs.None? <==> data == JNull
    ensures vs.Some? ==> |vs.value| == |PersonalKeys|
  {
    if data == JNull then None
    else Some(seq(|PersonalKeys|, i requires 0 <= i < |PersonalKeys| => TruthyOrNull(Member(data, PersonalKeys[i]))))
  }

  /** A field is stored as null exactly when the body lacks it or holds a falsy value;
      otherwise the body's value is stored as it is. */
  lemma FalsyStoredAsNull(data: Json, i: nat)
    requires data != JNull && i < |PersonalKeys|
    ensures var v := PersonalValues(data).value[i];
            var m := Member(data, PersonalKeys[i]);
            (v == JNull <==> m.Undefined? || Falsy(m.v)) && (v != JNull ==> m == Value(v))
  {
  }

  /** `SELECT * FROM personal_info ORDER BY id ASC LIMIT 1`: the row with the lowest id. */
  function FirstRow(t: Table): (r: Option<(nat, Row)>)
    ensures r.None? <==> |t.rows| == 0
    ensures r.Some? ==> r.value.0 in t.rows && r.value.1 == t.rows[r.value.0]
    ensures r.Some? ==> forall id :: id in t.rows ==> r.value.0 <= id
  {
    if |t.rows| == 0 then None
    else
      assert t.rows.Keys != {} by {
        var id :| id in t.rows;
      }
      var id := MinId(t.rows.Keys);
      Some((id, t.rows[id]))
  }

  /** The first statement of a write: `SELECT id ... ORDER BY id ASC LIMIT 1`. */
  function Check(t: Table): (seen: Option<nat>)
    ensures seen.None? <==> |t.rows| == 0
    ensures seen.Some? ==> seen.value in t.rows && forall id :: id in t.rows ==> seen.value <= id
  {
    var first := FirstRow(t);
    if first.None? then None else Some(first.value.0)
  }

  /** The second statement, run on the table as it is by then: INSERT when the check saw
      no row, otherwise UPDATE of the row it saw. `None` when the INSERT cannot draw an id,
      which the handler answers with 400. An UPDATE whose row is gone changes nothing. */
  function WriteAfterCheck(t: Table, seen: Option<nat>, vs: Row): (w: Option<(Table, nat)>)
    ensures w.None? <==> seen.None? && !CanDraw(t)
    ensures w.Some? && Valid(t) ==> Valid(w.value.0)
    ensures seen.None? && w.Some? ==>
              w.value.1 == t.next && w.value.0.rows.Keys == t.rows.Keys + {t.next}
              && w.value.0.rows[t.next] == vs
              && (Valid(t) ==> t.next !in t.rows)
              && (forall k :: k in t.rows && k != t.next ==> w.value.0.rows[k] == t.rows[k])
    ensures seen.Some? && seen.value in t.rows ==>
              w.Some? && w.value.1 == seen.value && w.value.0.rows.Keys == t.rows.Keys
              && w.value.0.rows[seen.value] == vs
              && (forall k :: k in t.rows && k != seen.value ==> w.value.0.rows[k] == t.rows[k])
    ensures seen.Some? && seen.value !in t.rows ==> w == Some((t, seen.value))
  {
    if seen.None? then
      if CanDraw(t) then Some((Insert(t, vs), t.next)) else None
    else if seen.value in t.rows then Some((Update(t, seen.value, vs), seen.value))
    else Some((t, seen.value))
  }

  /** One write with nothing in between its two statements: the new table and the id of
      the row written. It inserts only into an empty table, and fails only there, when the
      id sequence is used up; otherwise it overwrites the lowest-id row and leaves every
      other row and the set of ids alone. Either way the written row holds the new values. */
  function Upsert(t: Table, vs: Row): (w: Option<(Table, nat)>)
    ensures Valid(t) ==> (w.None? <==> |t.rows| == 0 && !CanDraw(t))
    ensures Valid(t) && w.Some? ==>
              Valid(w.value.0) && w.value.1 in w.value.0.rows && w.value.0.rows[w.value.1] == vs
    ensures Valid(t) && w.Some? && |t.rows| == 0 ==> w.value.0.rows == map[w.value.1 := vs]
    ensures |t.rows| > 0 ==>
              w.Some? && w.value.0.rows.Keys == t.rows.Keys
              && (forall k :: k in t.rows ==> w.value.1 <= k)
              && (forall k :: k in t.rows && k != w.value.1 ==> w.value.0.rows[k] == t.rows[k])
  {
    var seen := Check(t);
    assert |t.rows| == 0 ==> t.rows == map[];
    WriteAfterCheck(t, seen, vs)
  }

  /** Writes handled one at a time never grow the table past one row. */
  lemma UpsertKeepsOneRow(t: Table, vs: Row)
    requires Valid(t) && |t.rows| <= 1
    ensures Upsert(t, vs).Some? ==> |Upsert(t, vs).value.0.rows| == 1
  {
    if Upsert(t, vs).Some? {
      var u := Upsert(t, vs).value.0;
      if |t.rows| == 0 {
        assert u.rows.Keys == {t.next};
      } else {
        assert |u.rows.Keys| == |t.rows.Keys|;
      }
    }
  }

  /** The server runs the check and the write as separate awaited statements, so two first
      writes can interleave: both checks see an empty table, both writes insert, and the
      table ends with two rows. A later write then overwrites only the lower one and
      leaves the second row's values in place. */
  lemma InterleavedFirstWrites(t: Table, v1: Row, v2: Row, v3: Row)
    requires Valid(t) && |t.rows| == 0 && t.next < Int4Max
    ensures var seen1 := Check(t);
            var seen2 := Check(t);
            var w1 := WriteAfterCheck(t, seen1, v1);
            w1.Some?
            && var w2 := WriteAfterCheck(w1.value.0, seen2, v2);
            w2.Some?
            && |w2.value.0.rows| == 2
            && Upsert(w2.value.0, v3).Some?
            && Upsert(w2.value.0, v3).value.1 == t.next
            && Upsert(w2.value.0, v3).value.0.rows[t.next + 1] == v2
  {
    assert t.rows == map[];
    var t1 := Insert(t, v1);
    var t2 := Insert(t1, v2);
    assert t2.rows.Keys == {t.next, t.next + 1};
    assert |t2.rows.Keys| == 2;
  }
}
