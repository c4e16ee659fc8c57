/** `handleRequest` (backend/server-pg.ts:83-216) over the abstract tables: one request in,
    the new tables and the status and body out. The request body arrives already parsed;
    `None` stands for a body `JSON.parse` rejects. Each item id is a PostgreSQL `integer`
    parameter, so an id above 2147483647 makes its statement fail. The model handles one
    request at a time, from start to finish. */
module Server {

  import opened Wrappers
  import opened Numerals
  import opened Json
  import opened Resources
  import opened Binding
  import opened Tables
  import opened Routing
  import opened PersonalInfo

  /** The seven tables. */
  datatype Store = Store(tables: map<Resource, Table>, personal: Table)

  /** Every table exists (the server creates them before listening) and is valid. */
  predicate Ready(s: Store) {
    (forall r: Resource :: r in s.tables && Valid(s.tables[r])) && Valid(s.personal)
  }

  datatype Request = Request(verb: Method, path: string, body: Option<Json>)

  /** What `sendJson` sends, with the rows as (id, column values). */
  datatype Body =
    | NoBody
    | Rows(rows: seq<(nat, Row)>)
    | OneRow(id: nat, row: Row)
    | EmptyObject
    | Deleted(message: string, id: nat, row: Row)
    | Error(message: string)

  datatype Response = Response(status: nat, body: Body)

  const BadBody: string := "Invalid JSON or database error"

  function NotFoundMessage(r: Resource): string {
    Singular(r) + " not found"
  }

  /** Some NOT NULL column of `r` would receive null. */
  predicate ViolatesNotNull(r: Resource, vs: Row)
    requires |vs| == |ConfigOf(r).columns|
  {
    exists i :: 0 <= i < |vs| && ConfigOf(r).columns[i] in NotNullColumns(r) && vs[i] == JNull
  }

  /** The table of `r`; every table exists once the server is ready. */
  function TableOf(s: Store, r: Resource): Table {
    if r in s.tables then s.tables[r] else EmptyTable
  }

  /** The statuses the server sends. */
  const Statuses: set<nat> := {200, 201, 204, 400, 404, 405, 500}

  /** The action names the table of resource `r`. */
  predicate Targets(a: Action, r: Resource) {
    (a.List? || a.Create? || a.Read? || a.Replace? || a.Remove?) && a.res == r
  }

  /** The request changed no table but `r`'s. */
  predicate KeepsOthers(s: Store, u: Store, r: Resource) {
    (forall q :: q != r ==> TableOf(u, q) == TableOf(s, q)) && u.personal == s.personal
  }

  /** Puts `t` in place of the table of `r`: the others stay, and the store stays ready
      when `t` is valid. */
  function SetTable(s: Store, r: Resource, t: Table): (u: Store)
    ensures TableOf(u, r) == t && KeepsOthers(s, u, r)
    ensures Ready(s) && Valid(t) ==> Ready(u)
  {
    s.(tables := s.tables[r := t])
  }

  /** POST on a collection. The database refuses a value carrying U+0000 before running the
      INSERT, and refuses the INSERT when the id sequence is used up; a NOT NULL violation
      is found after the id is drawn. The row is stored exactly when none of these happens,
      and it is answered with the bound row under the next id. */
  function CreateItem(s: Store, r: Resource, body: Option<Json>): (out: (Store, Response))
    ensures out.1.status in {201, 400} && KeepsOthers(s, out.0, r)
    ensures Ready(s) ==> Ready(out.0)
    ensures out.1.status == 201 <==>
              body.Some? && var vs := BindValues(ConfigOf(r), body.value);
              vs.Some? && Sendable(vs.value) && CanDraw(TableOf(s, r)) && !ViolatesNotNull(r, vs.value)
    ensures out.1.status == 201 ==>
              var (t, vs) := (TableOf(s, r), BindValues(ConfigOf(r), body.value).value);
              out.1 == Response(201, OneRow(t.next, vs))
              && (Ready(s) ==> t.next !in t.rows)
              && TableOf(out.0, r).rows.Keys == t.rows.Keys + {t.next}
              && TableOf(out.0, r).rows[t.next] == vs
    ensures out.1.status != 201 ==> TableOf(out.0, r).rows == TableOf(s, r).rows
  {
    var t := TableOf(s, r);
    if body.None? then (s, Response(400, Error(BadBody)))
    else
      var vs := BindValues(ConfigOf(r), body.value);
      if vs.None? || !Sendable(vs.value) || !CanDraw(t) then (s, Response(400, Error(BadBody)))
      else if ViolatesNotNull(r, vs.value) then (SetTable(s, r, Burn(t)), Response(400, Error(BadBody)))
      else (SetTable(s, r, Insert(t, vs.value)), Response(201, OneRow(t.next, vs.value)))
  }

  /** PUT on an item: every failure inside the body callback is a 400, a missing row is a
      404, and a 200 overwrites only that row with the body's values. */
  function ReplaceItem(s: Store, r: Resource, id: nat, body: Option<Json>): (out: (Store, Response))
    ensures out.1.status in {200, 400, 404} && KeepsOthers(s, out.0, r)
    ensures Ready(s) ==> Ready(out.0)
    ensures out.1.status != 200 ==> out.0 == s
    ensures out.1.status == 404 <==>
              body.Some? && var vs := BindValues(ConfigOf(r), body.value);
              vs.Some? && id <= Int4Max && Sendable(vs.value) && id !in TableOf(s, r).rows
    ensures out.1.status == 200 <==>
              body.Some? && var vs := BindValues(ConfigOf(r), body.value);
              vs.Some? && id <= Int4Max && Sendable(vs.value) && id in TableOf(s, r).rows
              && !ViolatesNotNull(r, vs.value)
    ensures out.1.status == 200 ==>
              var (t, vs) := (TableOf(s, r), BindValues(ConfigOf(r), body.value).value);
              out.1 == Response(200, OneRow(id, vs))
              && TableOf(out.0, r).rows.Keys == t.rows.Keys && TableOf(out.0, r).rows[id] == vs
              && (forall k :: k in t.rows && k != id ==> TableOf(out.0, r).rows[k] == t.rows[k])
  {
    var t := TableOf(s, r);
    if body.None? then (s, Response(400, Error(BadBody)))
    else
      var vs := BindValues(ConfigOf(r), body.value);
      if vs.None? || id > Int4Max || !Sendable(vs.value) then (s, Response(400, Error(BadBody)))
      else if id !in t.rows then (s, Response(404, Error(NotFoundMessage(r))))
      else if ViolatesNotNull(r, vs.value) then (s, Response(400, Error(BadBody)))
      else (SetTable(s, r, Update(t, id, vs.value)), Response(200, OneRow(id, vs.value)))
  }

  /** POST or PUT on personal info: only the personal-info table can change, and a 200
      carries the body's values, stored under the id it names. */
  function WritePersonalInfo(s: Store, body: Option<Json>): (out: (Store, Response))
    ensures out.1.status in {200, 400} && out.0.tables == s.tables
    ensures Ready(s) ==> Ready(out.0)
    ensures out.1.status != 200 ==> out.0 == s
    ensures out.1.status == 200 ==>
              body.Some? && PersonalValues(body.value).Some? && out.1.body.OneRow?
              && out.1.body.row == PersonalValues(body.value).value
              && out.1.body.id in out.0.personal.rows
              && out.0.personal.rows[out.1.body.id] == out.1.body.row
  {
    if body.None? then (s, Response(400, Error(BadBody)))
    else
      var vs := PersonalValues(body.value);
      if vs.None? || !Sendable(vs.value) then (s, Response(400, Error(BadBody)))
      else
        var w := Upsert(s.personal, vs.value);
        if w.None? then (s, Response(400, Error(BadBody)))
        else (s.(personal := w.value.0), Response(200, OneRow(w.value.1, vs.value)))
  }

  /** GET on an item: the row under `id`, or 404. An id beyond the `integer` range makes the
      query fail, and the outer handler answers 500. Nothing changes. */
  function ReadItem(s: Store, r: Resource, id: nat): (out: (Store, Response))
    ensures out.0 == s && out.1.status in {200, 404, 500}
    ensures out.1.status == 500 <==> id > Int4Max
    ensures out.1.status == 200 <==> id <= Int4Max && id in TableOf(s, r).rows
    ensures out.1.status == 200 ==> out.1.body == OneRow(id, TableOf(s, r).rows[id])
    ensures out.1.status == 404 ==> out.1.body == Error(NotFoundMessage(r))
  {
    var t := TableOf(s, r);
    if id > Int4Max then (s, Response(500, Error("Internal server error")))
    else if id in t.rows then (s, Response(200, OneRow(id, t.rows[id])))
    else (s, Response(404, Error(NotFoundMessage(r))))
  }

  /** DELETE on an item: a 200 removes exactly that row and echoes it; otherwise nothing
      changes. */
  function RemoveItem(s: Store, r: Resource, id: nat): (out: (Store, Response))
    ensures out.1.status in {200, 404, 500} && KeepsOthers(s, out.0, r)
    ensures Ready(s) ==> Ready(out.0)
    ensures out.1.status == 500 <==> id > Int4Max
    ensures out.1.status == 200 <==> id <= Int4Max && id in TableOf(s, r).rows
    ensures out.1.status != 200 ==> out.0 == s
    ensures out.1.status == 200 ==>
              var t := TableOf(s, r);
              out.1.body == Deleted(Singular(r) + " deleted", id, t.rows[id])
              && TableOf(out.0, r).rows.Keys == t.rows.Keys - {id}
              && (forall k :: k in TableOf(out.0, r).rows ==> TableOf(out.0, r).rows[k] == t.rows[k])
  {
    var t := TableOf(s, r);
    if id > Int4Max then (s, Response(500, Error("Internal server error")))
    else if id in t.rows then
      (SetTable(s, r, Delete(t, id)), Response(200, Deleted(Singular(r) + " deleted", id, t.rows[id])))
    else (s, Response(404, Error(NotFoundMessage(r))))
  }

  /** GET on personal info: the lowest-id row, or `{}` exactly when there is none. */
  function ReadPersonalInfo(s: Store): (resp: Response)
    ensures resp.status == 200
    ensures |s.personal.rows| == 0 <==> resp.body == EmptyObject
    ensures resp.body.OneRow? ==>
              resp.body.id in s.personal.rows && resp.body.row == s.personal.rows[resp.body.id]
              && forall k :: k in s.personal.rows ==> resp.body.id <= k
  {
    var first := FirstRow(s.personal);
    Response(200, if first.Some? then OneRow(first.value.0, first.value.1) else EmptyObject)
  }

  /** The handler an action runs. Every handler leaves the tables valid, answers with one of
      the server's statuses, and changes at most the table its action names (personal info
      only for `WritePersonal`); the reading handlers change nothing, and only the
      invalid-id branch says "Invalid ID". */
  function Perform(s: Store, a: Action, body: Option<Json>): (out: (Store, Response))
    ensures Ready(s) ==> Ready(out.0)
    ensures out.1.status in Statuses
    ensures a != WritePersonal ==> out.0.personal == s.personal
    ensures forall q :: !Targets(a, q) ==> TableOf(out.0, q) == TableOf(s, q)
    ensures !(a.WritePersonal? || a.Create? || a.Replace? || a.Remove?) ==> out.0 == s
    ensures out.1.body == Error("Invalid ID") <==> a == InvalidId
  {
    match a
    case Preflight => (s, Response(204, NoBody))
    case ReadPersonal => (s, ReadPersonalInfo(s))
    case WritePersonal => WritePersonalInfo(s, body)
    case List(r) => (s, Response(200, Rows(Listing(TableOf(s, r)))))
    case Create(r) => CreateItem(s, r, body)
    case Read(r, id) => ReadItem(s, r, id)
    case Replace(r, id) => ReplaceItem(s, r, id, body)
    case Remove(r, id) => RemoveItem(s, r, id)
    case InvalidId => (s, Response(400, Error("Invalid ID")))
    case MethodNotAllowed => (s, Response(405, Error("Method not allowed")))
    case NotFound => (s, Response(404, Error("Not found")))
  }

  /** `handleRequest`: route, then run the handler. Every request keeps the tables valid and
      answers with one of the server's statuses, never "Invalid ID"; OPTIONS is answered
      with 204 on any path, and neither OPTIONS nor GET changes anything. */
  function Handle(s: Store, req: Request): (out: (Store, Response))
    ensures Ready(s) ==> Ready(out.0)
    ensures out.1.status in Statuses && out.1.body != Error("Invalid ID")
    ensures req.verb == OPTIONS ==> out == (s, Response(204, NoBody))
    ensures req.verb == GET ==> out.0 == s
  {
    Perform(s, Dispatch(req.verb, req.path), req.body)
  }

  // ----- Properties of the handlers -----

  /** A 201 from POST carries the row just bound from the body, under an id that was free;
      that row is then served by GET on its id. */
  lemma CreateThenReadItem(s: Store, r: Resource, data: Json)
    requires Ready(s)
    requires CreateItem(s, r, Some(data)).1.status == 201
    ensures var (u, resp) := CreateItem(s, r, Some(data));
            resp.body.OneRow? && resp.body.id !in TableOf(s, r).rows
            && Some(resp.body.row) == BindValues(ConfigOf(r), data)
            && ReadItem(u, r, resp.body.id).1 == Response(200, OneRow(resp.body.id, resp.body.row))
  {
  }

  /** After a 200 from DELETE the item is gone, and GET on it answers 404. */
  lemma DeleteThenReadItem(s: Store, r: Resource, id: nat)
    requires Ready(s)
    requires RemoveItem(s, r, id).1.status == 200
    ensures var u := RemoveItem(s, r, id).0;
            id !in TableOf(u, r).rows
            && ReadItem(u, r, id).1 == Response(404, Error(NotFoundMessage(r)))
  {
  }

  /** A PUT answered 200 stores the body's values under the same id. */
  lemma ReplaceThenReadItem(s: Store, r: Resource, id: nat, data: Json)
    requires Ready(s)
    requires ReplaceItem(s, r, id, Some(data)).1.status == 200
    ensures var u := ReplaceItem(s, r, id, Some(data)).0;
            id in TableOf(s, r).rows && BindValues(ConfigOf(r), data).Some?
            && ReadItem(u, r, id).1 == Response(200, OneRow(id, BindValues(ConfigOf(r), data).value))
  {
  }

  /** A POST that leaves a NOT NULL column null is refused with 400 and adds no row, though
      it uses up a value of the id sequence when it gets as far as drawing one. */
  lemma NotNullRefused(s: Store, r: Resource, data: Json)
    requires BindValues(ConfigOf(r), data).Some? && ViolatesNotNull(r, BindValues(ConfigOf(r), data).value)
    requires Sendable(BindValues(ConfigOf(r), data).value) && CanDraw(TableOf(s, r))
    ensures var (u, resp) := CreateItem(s, r, Some(data));
            resp.status == 400 && TableOf(u, r).rows == TableOf(s, r).rows
            && TableOf(u, r).next == TableOf(s, r).next + 1
  {
  }

  /** A value carrying U+0000, or a used-up id sequence, makes the database refuse the
      INSERT: 400, and nothing changes. */
  lemma DatabaseRefusesCreate(s: Store, r: Resource, data: Json)
    requires BindValues(ConfigOf(r), data).Some?
    requires !Sendable(BindValues(ConfigOf(r), data).value) || !CanDraw(TableOf(s, r))
    ensures CreateItem(s, r, Some(data)) == (s, Response(400, Error(BadBody)))
  {
  }

  /** With requests handled one at a time, the personal-info table never holds more than
      one row. */
  lemma PersonalInfoSingleRow(s: Store, a: Action, body: Option<Json>)
    requires Ready(s) && |s.personal.rows| <= 1
    ensures |Perform(s, a, body).0.personal.rows| <= 1
  {
    if a == WritePersonal && body.Some? && PersonalValues(body.value).Some? {
      UpsertKeepsOneRow(s.personal, PersonalValues(body.value).value);
    }
  }

  /** A personal-info write with a non-null body answers 200 unless the database refuses it
      (a value carrying U+0000, or an empty table whose id sequence is used up), in which
      case it answers 400 and changes nothing. A 200 carries the values read from the
      body, which the next GET serves. */
  lemma PersonalWriteThenRead(s: Store, data: Json)
    requires Ready(s) && |s.personal.rows| <= 1 && data != JNull
    ensures var (u, resp) := WritePersonalInfo(s, Some(data));
            resp.status == 200
            <==> Sendable(PersonalValues(data).value) && (|s.personal.rows| > 0 || CanDraw(s.personal))
    ensures var (u, resp) := WritePersonalInfo(s, Some(data));
            resp.status != 200 ==> resp.status == 400 && u == s
    ensures var (u, resp) := WritePersonalInfo(s, Some(data));
            resp.status == 200 ==> Some(resp.body.row) == PersonalValues(data) && ReadPersonalInfo(u) == resp
  {
    var vs := PersonalValues(data).value;
    if Sendable(vs) && Upsert(s.personal, vs).Some? {
      PersonalWriteServed(s, vs);
    }
  }

  lemma PersonalWriteServed(s: Store, vs: Row)
    requires Ready(s) && |s.personal.rows| <= 1 && Upsert(s.personal, vs).Some?
    ensures var (u, id) := Upsert(s.personal, vs).value;
            ReadPersonalInfo(s.(personal := u)) == Response(200, OneRow(id, vs))
  {
    UpsertKeepsOneRow(s.personal, vs);
  }

  // ----- Whole requests -----

  /** The collection path and an item path of a resource. */
  function CollectionPath(r: Resource): string {
    ApiPrefix + Name(r)
  }

  function ItemPath(r: Resource, id: nat): string {
    ApiPrefix + Name(r) + "/" + NatToString(id)
  }

  /** POST on a collection path runs the create handler. */
  lemma PostReachesCreate(s: Store, r: Resource, body: Option<Json>)
    ensures Handle(s, Request(POST, CollectionPath(r), body)) == CreateItem(s, r, body)
  {
    PostDispatch(r);
  }

  lemma PostDispatch(r: Resource)
    ensures Dispatch(POST, CollectionPath(r)) == Create(r)
  {
    CollectionPathIff(CollectionPath(r), r);
  }

  /** GET, PUT and DELETE on an item path select the item handler for the id written in
      the path. */
  lemma ItemPathDispatch(r: Resource, id: nat)
    ensures Dispatch(GET, ItemPath(r, id)) == Read(r, id)
    ensures Dispatch(PUT, ItemPath(r, id)) == Replace(r, id)
    ensures Dispatch(DELETE, ItemPath(r, id)) == Remove(r, id)
  {
    ItemIdRoundTrip(GET, r, id);
    ItemIdRoundTrip(PUT, r, id);
    ItemIdRoundTrip(DELETE, r, id);
  }

  lemma ItemPathReachesHandler(s: Store, r: Resource, id: nat, m: Method, body: Option<Json>)
    requires m == GET || m == PUT || m == DELETE
    ensures m == GET ==> Handle(s, Request(m, ItemPath(r, id), body)) == ReadItem(s, r, id)
    ensures m == PUT ==> Handle(s, Request(m, ItemPath(r, id), body)) == ReplaceItem(s, r, id, body)
    ensures m == DELETE ==> Handle(s, Request(m, ItemPath(r, id), body)) == RemoveItem(s, r, id)
  {
    ItemPathDispatch(r, id);
  }

  /** A row created through POST is then served by GET on its item path. */
  lemma CreateThenRead(s: Store, r: Resource, data: Json, body2: Option<Json>)
    requires Ready(s)
    requires Handle(s, Request(POST, CollectionPath(r), Some(data))).1.status == 201
    ensures var (u, resp) := Handle(s, Request(POST, CollectionPath(r), Some(data)));
            resp.body.OneRow? && Some(resp.body.row) == BindValues(ConfigOf(r), data)
            && Handle(u, Request(GET, ItemPath(r, resp.body.id), body2)).1
               == Response(200, OneRow(resp.body.id, resp.body.row))
  {
    PostReachesCreate(s, r, Some(data));
    CreateThenReadItem(s, r, data);
    var (u, resp) := CreateItem(s, r, Some(data));
    ItemPathReachesHandler(u, r, resp.body.id, GET, body2);
  }

  /** After a 200 from DELETE, GET on the same path answers 404. */
  lemma DeleteThenRead(s: Store, r: Resource, id: nat, b1: Option<Json>, b2: Option<Json>)
    requires Ready(s)
    requires Handle(s, Request(DELETE, ItemPath(r, id), b1)).1.status == 200
    ensures var u := Handle(s, Request(DELETE, ItemPath(r, id), b1)).0;
            Handle(u, Request(GET, ItemPath(r, id), b2)).1 == Response(404, Error(NotFoundMessage(r)))
  {
    ItemPathReachesHandler(s, r, id, DELETE, b1);
    DeleteThenReadItem(s, r, id);
    ItemPathReachesHandler(RemoveItem(s, r, id).0, r, id, GET, b2);
  }

  /** GET, PUT and DELETE on an id that is not in the table answer 404 (for PUT, once the
      body parses, is not `null` and its values can be sent). */
  lemma MissingItem(s: Store, r: Resource, id: nat, m: Method, body: Option<Json>)
    requires id <= Int4Max && id !in TableOf(s, r).rows
    requires m == GET || m == DELETE
          || (m == PUT && body.Some? && body.value != JNull && Sendable(BindValues(ConfigOf(r), body.value).value))
    ensures Handle(s, Request(m, ItemPath(r, id), body)) == (s, Response(404, Error(NotFoundMessage(r))))
  {
    ItemPathReachesHandler(s, r, id, m, body);
    ColumnsAreNames(r);
  }

  /** An id beyond the `integer` range fails in the database: GET and DELETE answer 500 from
      the outer handler, PUT answers 400 from its body callback. */
  lemma IdOutOfRange(s: Store, r: Resource, id: nat, m: Method, body: Option<Json>)
    requires id > Int4Max
    requires m == GET || m == DELETE || m == PUT
    ensures Handle(s, Request(m, ItemPath(r, id), body)).0 == s
    ensures Handle(s, Request(m, ItemPath(r, id), body)).1.status == if m == PUT then 400 else 500
  {
    ItemPathReachesHandler(s, r, id, m, body);
  }

  /** With requests handled one at a time, the personal-info table never holds more than
      one row. */
  lemma PersonalInfoStaysSingle(s: Store, req: Request)
    requires Ready(s) && |s.personal.rows| <= 1
    ensures |Handle(s, req).0.personal.rows| <= 1
  {
    PersonalInfoSingleRow(s, Dispatch(req.verb, req.path), req.body);
  }
}
