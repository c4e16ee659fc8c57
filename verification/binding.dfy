/** How the generic POST and PUT handlers turn a parsed body into SQL parameters
    (backend/server-pg.ts:160-166 and 190-197): one value per configured column, read
    from the column's camelCase key, and the `$n` placeholder and `col=$n` assignment
    lists of the statement text. */
module Binding {

  import opened Wrappers
  import opened Numerals
  import opened Json
  import opened Resources
  import Text

  // ----- Values -----

  /** `Object.keys(cfg.map).find(k => cfg.map[k] === col)`: the first key mapped to `col`. */
  function FindKey(keyMap: seq<(string, string)>, col: string): Option<string> {
    if |keyMap| == 0 then None
    else if keyMap[0].1 == col then Some(keyMap[0].0)
    else FindKey(keyMap[1..], col)
  }

  /** `find` gives the key of the first pair whose value is `col`, and nothing when no
      pair has that value. */
  lemma {:induction false} FindKeyFirst(keyMap: seq<(string, string)>, col: string)
    ensures FindKey(keyMap, col).Some? ==>
              exists i :: 0 <= i < |keyMap| && keyMap[i] == (FindKey(keyMap, col).value, col)
                          && forall j :: 0 <= j < i ==> keyMap[j].1 != col
    ensures FindKey(keyMap, col).None? <==> forall i :: 0 <= i < |keyMap| ==> keyMap[i].1 != col
    decreases |keyMap|
  {
    if |keyMap| > 0 && keyMap[0].1 != col {
      var tail := keyMap[1..];
      FindKeyFirst(tail, col);
      assert forall i :: 1 <= i < |keyMap| ==> keyMap[i] == tail[i - 1];
      if FindKey(tail, col).Some? {
        var i :| 0 <= i < |tail| && tail[i] == (FindKey(tail, col).value, col)
                 && forall j :: 0 <= j < i ==> tail[j].1 != col;
        assert keyMap[i + 1] == tail[i];
        assert forall j :: 0 <= j < i + 1 ==> keyMap[j].1 != col by {
          forall j | 0 <= j < i + 1
            ensures keyMap[j].1 != col
          {
            if j > 0 {
              assert keyMap[j] == tail[j - 1];
            }
          }
        }
      }
    }
  }

  /** `... || col`: the payload key read for column `col`. */
  function CamelKey(cfg: Config, col: string): string {
    var k := FindKey(cfg.keyMap, col);
    if k.Some? && k.value != "" then k.value else col
  }

  /** `cols.map(col => data[camel] !== undefined ? data[camel] : null)`; `None` when the
      body is `null` and reading a member throws. */
  function BindValues(cfg: Config, data: Json): (vs: Option<seq<Json>>)
    ensures vs.None? <==> data == JNull && |cfg.columns| > 0
    ensures vs.Some? ==> |vs.value| == |cfg.columns|
  {
    if data == JNull && |cfg.columns| > 0 then None
    else Some(seq(|cfg.columns|, i requires 0 <= i < |cfg.columns| =>
                    OrNull(Member(data, CamelKey(cfg, cfg.columns[i])))))
  }

  /** The payload keys of each resource, column by column. */
  function PayloadKeys(r: Resource): seq<string> {
    match r
    case Projects => ["title", "description", "imageUrl", "demoUrl", "githubUrl"]
    case Experiences => ["title", "company", "location", "startDate", "endDate", "category", "description"]
    case Education => ["degree", "institution", "startYear", "endYear", "description"]
    case Languages => ["name", "level"]
    case Skills => ["name", "category"]
    case Interests => ["title", "description"]
  }

  /** The key read for each column, in column order. */
  function CamelKeys(cfg: Config): (ks: seq<string>)
    ensures |ks| == |cfg.columns|
  {
    seq(|cfg.columns|, i requires 0 <= i < |cfg.columns| => CamelKey(cfg, cfg.columns[i]))
  }

  /** The keys each route reads: the mapped camelCase name for the mapped columns, the
      column name itself for the others. */
  lemma CamelKeysOf(r: Resource)
    ensures CamelKeys(ConfigOf(r)) == PayloadKeys(r)
  {
    match r
    case Projects => CamelKeysProjects();
    case Experiences => CamelKeysExperiences();
    case Education => CamelKeysEducation();
    case Languages => CamelKeysUnmapped(ConfigOf(r));
    case Skills => CamelKeysUnmapped(ConfigOf(r));
    case Interests => CamelKeysUnmapped(ConfigOf(r));
  }

  /** With no mapped keys, every column is read under its own name. */
  lemma CamelKeysUnmapped(cfg: Config)
    requires |cfg.keyMap| == 0
    ensures CamelKeys(cfg) == cfg.columns
  {
  }

  lemma CamelKeysProjects()
    ensures CamelKeys(ConfigOf(Projects)) == PayloadKeys(Projects)
  {
    var ks := CamelKeys(ConfigOf(Projects));
    assert ks[0] == "title" && ks[1] == "description";
    assert ks[2] == "imageUrl" && ks[3] == "demoUrl" && ks[4] == "githubUrl";
  }

  lemma CamelKeysExperiences()
    ensures CamelKeys(ConfigOf(Experiences)) == PayloadKeys(Experiences)
  {
    var ks := CamelKeys(ConfigOf(Experiences));
    assert ks[0] == "title" && ks[1] == "company" && ks[2] == "location";
    assert ks[3] == "startDate" && ks[4] == "endDate";
    assert ks[5] == "category" && ks[6] == "description";
  }

  lemma CamelKeysEducation()
    ensures CamelKeys(ConfigOf(Education)) == PayloadKeys(Education)
  {
    var ks := CamelKeys(ConfigOf(Education));
    assert ks[0] == "degree" && ks[1] == "institution";
    assert ks[2] == "startYear" && ks[3] == "endYear" && ks[4] == "description";
  }

  /** The body each resource's POST and PUT expect: its payload keys bound to a row's values. */
  function Fields(keys: seq<string>, row: seq<Json>): map<string, Json>
    requires |keys| == |row|
  {
    if |keys| == 0 then map[]
    else Fields(keys[..|keys| - 1], row[..|row| - 1])[keys[|keys| - 1] := row[|row| - 1]]
  }

  predicate Distinct(keys: seq<string>) {
    forall i, j :: 0 <= i < j < |keys| ==> keys[i] != keys[j]
  }

  lemma {:induction false} FieldsLookup(keys: seq<string>, row: seq<Json>, i: nat)
    requires |keys| == |row| && Distinct(keys) && i < |keys|
    ensures keys[i] in Fields(keys, row) && Fields(keys, row)[keys[i]] == row[i]
    decreases |keys|
  {
    var n := |keys| - 1;
    if i < n {
      assert Distinct(keys[..n]);
      FieldsLookup(keys[..n], row[..n], i);
      assert keys[i] != keys[n];
    }
  }

  lemma PayloadKeysDistinct(r: Resource)
    ensures Distinct(PayloadKeys(r))
  {
  }

  /** Binding a body that carries a value under each payload key gives back exactly those
      values, in column order. */
  lemma BindRoundTrip(r: Resource, row: seq<Json>)
    requires |row| == |ConfigOf(r).columns|
    ensures BindValues(ConfigOf(r), JObj(Fields(PayloadKeys(r), row))) == Some(row)
  {
    CamelKeysOf(r);
    PayloadKeysDistinct(r);
    BindFields(ConfigOf(r), PayloadKeys(r), row);
  }

  lemma BindFields(cfg: Config, keys: seq<string>, row: seq<Json>)
    requires CamelKeys(cfg) == keys && Distinct(keys) && |row| == |keys|
    ensures BindValues(cfg, JObj(Fields(keys, row))) == Some(row)
  {
    var data := JObj(Fields(keys, row));
    var vs := BindValues(cfg, data).value;
    forall i | 0 <= i < |row|
      ensures vs[i] == row[i]
    {
      assert CamelKey(cfg, cfg.columns[i]) == keys[i];
      FieldsLookup(keys, row, i);
    }
    assert |vs| == |cfg.columns| == |keys|;
    assert vs == row;
  }

  /** Entry `i` is the body's member under the `i`-th payload key, or null when the body
      has no such member. */
  lemma BoundEntry(r: Resource, fields: map<string, Json>, i: nat)
    requires i < |ConfigOf(r).columns|
    ensures BindValues(ConfigOf(r), JObj(fields)).Some?
    ensures BindValues(ConfigOf(r), JObj(fields)).value[i]
         == if PayloadKeys(r)[i] in fields then fields[PayloadKeys(r)[i]] else JNull
  {
    CamelKeysOf(r);
    assert CamelKey(ConfigOf(r), ConfigOf(r).columns[i]) == CamelKeys(ConfigOf(r))[i];
  }

  // ----- Statement text -----

  /** `$n`: the `n`-th parameter of a statement. */
  function Param(n: nat): string {
    "$" + NatToString(n)
  }

  /** `array.join(sep)`. */
  function Join(xs: seq<string>, sep: string): string {
    if |xs| == 0 then "" else if |xs| == 1 then xs[0] else xs[0] + sep + Join(xs[1..], sep)
  }

  /** `values.map((_, idx) => `$${idx+1}`)`: one token per value, and token `i` names
      parameter `i + 1`. */
  function Placeholders(n: nat): (ps: seq<string>)
    ensures |ps| == n
    ensures forall i :: 0 <= i < n ==> Plain(ps[i]) && ParamNumber(ps[i]) == Some(i + 1)
  {
    ParamsRead(n);
    seq(n, i requires 0 <= i < n => Param(i + 1))
  }

  /** `cols.map((col, idx) => `${col}=$${idx+1}`)`: for column names, assignment `i` reads
      back as column `i` set from parameter `i + 1`. */
  function Assignments(cols: seq<string>): (as_: seq<string>)
    ensures |as_| == |cols|
    ensures (forall i :: 0 <= i < |cols| ==> ColumnName(cols[i])) ==>
              forall i :: 0 <= i < |cols| ==> Plain(as_[i]) && ReadAssignment(as_[i]) == (cols[i], Some(i + 1))
  {
    AssignmentsRead(cols);
    seq(|cols|, i requires 0 <= i < |cols| => cols[i] + "=" + Param(i + 1))
  }

  /** The INSERT statement: its column list reads back as the columns, and its value list
      as `$1` ... `$n`, one parameter per column, in column order. */
  function InsertSql(cfg: Config): (r: string)
    ensures |cfg.columns| > 0 && (forall i :: 0 <= i < |cfg.columns| ==> ColumnName(cfg.columns[i])) ==>
              exists cs, vs :: r == "INSERT INTO " + cfg.table + " (" + cs + ") VALUES (" + vs + ") RETURNING *"
                && Items(cs) == cfg.columns && |Items(vs)| == |cfg.columns|
                && forall i :: 0 <= i < |cfg.columns| ==> ParamNumber(Items(vs)[i]) == Some(i + 1)
  {
    var cs := Join(cfg.columns, ", ");
    var vs := Join(Placeholders(|cfg.columns|), ", ");
    if |cfg.columns| > 0 && (forall i :: 0 <= i < |cfg.columns| ==> ColumnName(cfg.columns[i])) then
      NamesArePlain(cfg.columns);
      ItemsOfJoin(cfg.columns);
      ItemsOfJoin(Placeholders(|cfg.columns|));
      "INSERT INTO " + cfg.table + " (" + cs + ") VALUES (" + vs + ") RETURNING *"
    else
      "INSERT INTO " + cfg.table + " (" + cs + ") VALUES (" + vs + ") RETURNING *"
  }

  /** The UPDATE statement: its SET list reads back as `col_i=$i` in column order, and its
      WHERE parameter is the one after them. */
  function UpdateSql(cfg: Config): (r: string)
    ensures |cfg.columns| > 0 && (forall i :: 0 <= i < |cfg.columns| ==> ColumnName(cfg.columns[i])) ==>
              exists sets, w :: r == "UPDATE " + cfg.table + " SET " + sets + " WHERE id=" + w + " RETURNING *"
                && |Items(sets)| == |cfg.columns|
                && (forall i :: 0 <= i < |cfg.columns| ==> ReadAssignment(Items(sets)[i]) == (cfg.columns[i], Some(i + 1)))
                && ParamNumber(w) == Some(|cfg.columns| + 1)
  {
    var sets := Join(Assignments(cfg.columns), ", ");
    var w := Param(|cfg.columns| + 1);
    ParamNumberOf(|cfg.columns| + 1);
    if |cfg.columns| > 0 && (forall i :: 0 <= i < |cfg.columns| ==> ColumnName(cfg.columns[i])) then
      ItemsOfJoin(Assignments(cfg.columns));
      "UPDATE " + cfg.table + " SET " + sets + " WHERE id=" + w + " RETURNING *"
    else
      "UPDATE " + cfg.table + " SET " + sets + " WHERE id=" + w + " RETURNING *"
  }

  /** `values.push(id)`: the UPDATE parameters, the id last. */
  function UpdateValues(vs: seq<Json>, id: nat): (ws: seq<Json>)
    ensures |ws| == |vs| + 1 && ws[..|vs|] == vs && ws[|vs|] == JNum(id)
  {
    vs + [JNum(id)]
  }

  // ----- Reading the text back -----

  /** The pieces between commas. */
  function SplitComma(s: string): (parts: seq<string>)
    ensures |parts| > 0
  {
    if |s| == 0 then [""]
    else
      var rest := SplitComma(s[1..]);
      if s[0] == ',' then [""] + rest else [[s[0]] + rest[0]] + rest[1..]
  }

  function DropBlank(p: string): string {
    if |p| > 0 && p[0] == ' ' then p[1..] else p
  }

  /** The items of a ", "-separated list. */
  function Items(s: string): seq<string> {
    var parts := SplitComma(s);
    seq(|parts|, i requires 0 <= i < |parts| => DropBlank(parts[i]))
  }

  /** An item that survives joining and splitting: no comma, no leading blank. */
  predicate Plain(x: string) {
    (forall k :: 0 <= k < |x| ==> x[k] != ',') && (|x| > 0 ==> x[0] != ' ')
  }

  lemma {:induction false} SplitAfter(a: string, b: string)
    requires forall k :: 0 <= k < |a| ==> a[k] != ','
    ensures SplitComma(a + "," + b) == [a] + SplitComma(b)
    decreases |a|
  {
    if |a| == 0 {
      assert a + "," + b == [','] + b;
      assert ([','] + b)[1..] == b;
    } else {
      assert (a + "," + b)[1..] == a[1..] + "," + b;
      SplitAfter(a[1..], b);
      assert [a[0]] + a[1..] == a;
    }
  }

  lemma {:induction false} SplitPlain(a: string)
    requires forall k :: 0 <= k < |a| ==> a[k] != ','
    ensures SplitComma(a) == [a]
    decreases |a|
  {
    if |a| > 0 {
      SplitPlain(a[1..]);
      assert [a[0]] + a[1..] == a;
    }
  }

  lemma {:induction false} SplitJoin(xs: seq<string>)
    requires |xs| > 0 && forall i :: 0 <= i < |xs| ==> Plain(xs[i])
    ensures |SplitComma(Join(xs, ", "))| == |xs| && SplitComma(Join(xs, ", "))[0] == xs[0]
    ensures forall i :: 1 <= i < |xs| ==> SplitComma(Join(xs, ", "))[i] == " " + xs[i]
    decreases |xs|
  {
    if |xs| == 1 {
      SplitPlain(xs[0]);
    } else {
      var tail := xs[1..];
      var j := Join(tail, ", ");
      SplitJoin(tail);
      assert Join(xs, ", ") == xs[0] + "," + (" " + j);
      SplitAfter(xs[0], " " + j);
      assert (" " + j)[1..] == j;
      var st := SplitComma(j);
      assert SplitComma(" " + j) == [" " + st[0]] + st[1..];
      var parts := SplitComma(Join(xs, ", "));
      assert parts == [xs[0]] + ([" " + st[0]] + st[1..]);
      forall i | 1 <= i < |xs|
        ensures parts[i] == " " + xs[i]
      {
        if i > 1 {
          assert parts[i] == st[i - 1] == " " + tail[i - 1];
        }
      }
    }
  }

  /** Splitting a joined list of plain items gives the items back. */
  lemma ItemsOfJoin(xs: seq<string>)
    requires |xs| > 0 && forall i :: 0 <= i < |xs| ==> Plain(xs[i])
    ensures Items(Join(xs, ", ")) == xs
  {
    SplitJoin(xs);
    var parts := SplitComma(Join(xs, ", "));
    var items := Items(Join(xs, ", "));
    forall i | 0 <= i < |xs|
      ensures items[i] == xs[i]
    {
      assert items[i] == DropBlank(parts[i]);
      if i > 0 {
        assert parts[i] == " " + xs[i];
        assert (" " + xs[i])[1..] == xs[i];
      }
    }
  }

  /** The number of a `$n` token. */
  function ParamNumber(t: string): Option<nat> {
    if |t| > 0 && t[0] == '$' then ParseInt(t[1..]) else None
  }

  lemma ParamNumberOf(n: nat)
    ensures ParamNumber(Param(n)) == Some(n)
    ensures Plain(Param(n)) && (forall k :: 0 <= k < |Param(n)| ==> Param(n)[k] != '=')
  {
    var d := NatToString(n);
    assert Param(n)[1..] == d;
    ParseIntOfDigits(d);
    assert forall k :: 1 <= k < |Param(n)| ==> Param(n)[k] == d[k - 1];
  }

  /** Every parameter token `$1` ... `$n` is plain and names its own number. */
  lemma ParamsRead(n: nat)
    ensures forall j :: 1 <= j <= n ==> Plain(Param(j)) && ParamNumber(Param(j)) == Some(j)
  {
    forall j | 1 <= j <= n
      ensures Plain(Param(j)) && ParamNumber(Param(j)) == Some(j)
    {
      ParamNumberOf(j);
    }
  }

  /** The INSERT's value list reads back as `$1`, `$2`, ... `$n`, in order. */
  lemma PlaceholdersReadBack(n: nat)
    requires n > 0
    ensures |Items(Join(Placeholders(n), ", "))| == n
    ensures forall i :: 0 <= i < n ==> ParamNumber(Items(Join(Placeholders(n), ", "))[i]) == Some(i + 1)
  {
    ItemsOfJoin(Placeholders(n));
  }

  /** A column name: lower-case letters and underscores. */
  predicate ColumnName(c: string) {
    |c| > 0 && forall k :: 0 <= k < |c| ==> 'a' <= c[k] <= 'z' || c[k] == '_'
  }

  lemma ColumnsAreNames(r: Resource)
    ensures |ConfigOf(r).columns| > 0
    ensures forall i :: 0 <= i < |ConfigOf(r).columns| ==> ColumnName(ConfigOf(r).columns[i])
  {
    if r.Projects? || r.Experiences? || r.Education? {
      MappedColumnsAreNames(r);
    } else {
      PlainColumnsAreNames(r);
    }
  }

  lemma MappedColumnsAreNames(r: Resource)
    requires r.Projects? || r.Experiences? || r.Education?
    ensures forall i :: 0 <= i < |ConfigOf(r).columns| ==> ColumnName(ConfigOf(r).columns[i])
  {
  }

  lemma PlainColumnsAreNames(r: Resource)
    requires r.Languages? || r.Skills? || r.Interests?
    ensures forall i :: 0 <= i < |ConfigOf(r).columns| ==> ColumnName(ConfigOf(r).columns[i])
  {
  }

  /** A column name has no comma and no leading blank. */
  lemma NamesArePlain(cols: seq<string>)
    requires forall i :: 0 <= i < |cols| ==> ColumnName(cols[i])
    ensures forall i :: 0 <= i < |cols| ==> Plain(cols[i])
  {
  }

  /** Each `col=$n` built from a column name is plain and reads back as the column and `n`. */
  lemma AssignmentsRead(cols: seq<string>)
    ensures (forall i :: 0 <= i < |cols| ==> ColumnName(cols[i])) ==>
              forall i :: 0 <= i < |cols| ==>
                (Plain(cols[i] + "=" + Param(i + 1))
                 && ReadAssignment(cols[i] + "=" + Param(i + 1)) == (cols[i], Some(i + 1)))
  {
    forall i | 0 <= i < |cols| && ColumnName(cols[i])
      ensures Plain(cols[i] + "=" + Param(i + 1))
      ensures ReadAssignment(cols[i] + "=" + Param(i + 1)) == (cols[i], Some(i + 1))
    {
      ReadAssignmentOf(cols[i], i + 1);
    }
  }

  /** An assignment `col=$n` read back: the column and the parameter number. */
  function ReadAssignment(t: string): (string, Option<nat>) {
    var k := Text.UpTo(t, '=');
    if k < |t| then (t[..k], ParamNumber(t[k + 1..])) else (t, None)
  }

  lemma ReadAssignmentOf(col: string, n: nat)
    requires ColumnName(col)
    ensures ReadAssignment(col + "=" + Param(n)) == (col, Some(n))
    ensures Plain(col + "=" + Param(n))
  {
    var t := col + "=" + Param(n);
    ParamNumberOf(n);
    assert forall j :: 0 <= j < |col| ==> t[j] == col[j];
    assert t[|col|] == '=';
    assert Text.UpTo(t, '=') == |col| by {
      Text.UpToAt(t, '=', |col|);
    }
    assert t[..|col|] == col;
    assert t[|col| + 1..] == Param(n);
    assert forall k :: |col| < k < |t| ==> t[k] == Param(n)[k - |col| - 1];
  }

  /** The UPDATE's SET list reads back as `col_i=$i`, in column order, and its WHERE
      parameter is the one after them, which is where the id sits in the value list. */
  lemma AssignmentsReadBack(cols: seq<string>, vs: seq<Json>, id: nat)
    requires |cols| > 0 && forall i :: 0 <= i < |cols| ==> ColumnName(cols[i])
    requires |vs| == |cols|
    ensures Items(Join(Assignments(cols), ", ")) == Assignments(cols)
    ensures forall i :: 0 <= i < |cols| ==> ReadAssignment(Assignments(cols)[i]) == (cols[i], Some(i + 1))
    ensures ParamNumber(Param(|cols| + 1)) == Some(|UpdateValues(vs, id)|)
    ensures UpdateValues(vs, id)[|cols|] == JNum(id)
  {
    ItemsOfJoin(Assignments(cols));
    ParamNumberOf(|cols| + 1);
  }
}
