/** The routing of `handleRequest` (backend/server-pg.ts:83-212): which handler a method
    and a path select, before any database access. */
module Routing {

  import opened Wrappers
  import opened Numerals
  import opened Resources
  import Text

  /** A request method. `OtherMethod` stands for every name but the five the server tests
      for; `MethodOf` is how a method name becomes a `Method`, so it never carries one of
      those five. */
  datatype Method = GET | POST | PUT | DELETE | OPTIONS | OtherMethod(name: string)

  const KnownMethods: set<string> := {"GET", "POST", "PUT", "DELETE", "OPTIONS"}

  /** The name `req.method` holds for a method. */
  function MethodName(m: Method): string {
    match m
    case GET => "GET"
    case POST => "POST"
    case PUT => "PUT"
    case DELETE => "DELETE"
    case OPTIONS => "OPTIONS"
    case OtherMethod(name) => name
  }

  /** `req.method` as the server's `===` tests see it. */
  function MethodOf(name: string): (m: Method)
    ensures MethodName(m) == name
    ensures m.OtherMethod? <==> name !in KnownMethods
  {
    if name == "GET" then GET
    else if name == "POST" then POST
    else if name == "PUT" then PUT
    else if name == "DELETE" then DELETE
    else if name == "OPTIONS" then OPTIONS
    else OtherMethod(name)
  }

  /** Each method has one spelling: reading back the name of a method gives that method. */
  lemma MethodOfName(m: Method)
    requires m.OtherMethod? ==> m.name !in KnownMethods
    ensures MethodOf(MethodName(m)) == m
  {
  }

  /** What the path names: the personal-info record, a resource collection, one item of a
      resource (with the digits of its id), or nothing the server knows. */
  datatype Route =
    | PersonalInfoRoute
    | CollectionRoute(res: Resource)
    | ItemRoute(res: Resource, idPart: string)
    | NoRoute

  const ApiPrefix: string := "/api/"
  const PersonalInfoPath: string := "/api/personal-info"

  /** The path tests: `/api/personal-info` first, then
      `^\/api\/(projects|experiences|education|languages|skills|interests)(?:\/(\d+))?$`.
      A collection route is read off exactly `/api/<name>`, and an item route off
      `/api/<name>/<digits>`. */
  function RouteOf(path: string): (r: Route)
    ensures r == PersonalInfoRoute <==> path == PersonalInfoPath
    ensures r.CollectionRoute? ==> path == ApiPrefix + Name(r.res)
    ensures r.ItemRoute? ==> path == ApiPrefix + Name(r.res) + "/" + r.idPart
                             && |r.idPart| > 0 && AllDigits(r.idPart)
  {
    if path == PersonalInfoPath then PersonalInfoRoute
    else if |path| >= 5 && path[..5] == ApiPrefix then
      var rest := path[5..];
      assert path == ApiPrefix + rest;
      var k := Text.UpTo(rest, '/');
      var r := ResourceNamed(rest[..k]);
      if r.None? then NoRoute
      else if k == |rest| then
        assert rest[..k] == rest;
        CollectionRoute(r.value)
      else
        var idPart := rest[k + 1..];
        SplitAtSlash(rest, k);
        if |idPart| > 0 && AllDigits(idPart) then ItemRoute(r.value, idPart) else NoRoute
    else NoRoute
  }

  /** The handler a request reaches. */
  datatype Action =
    | Preflight
    | ReadPersonal
    | WritePersonal
    | List(res: Resource)
    | Create(res: Resource)
    | Read(res: Resource, id: nat)
    | Replace(res: Resource, id: nat)
    | Remove(res: Resource, id: nat)
    | InvalidId
    | MethodNotAllowed
    | NotFound

  /** `handleRequest`'s branching: OPTIONS first, whatever the path; then the route, then
      the method. Only the personal-info path and the resource paths are routed, and since
      an item route's id is all digits, `parseInt` never fails on it: the "Invalid ID"
      answer is never given. */
  function Dispatch(m: Method, path: string): (a: Action)
    ensures a == Preflight <==> m == OPTIONS
    ensures a == NotFound <==> m != OPTIONS && RouteOf(path) == NoRoute
    ensures a != InvalidId
  {
    if m == OPTIONS then Preflight
    else
      match RouteOf(path)
      case PersonalInfoRoute =>
        if m == GET then ReadPersonal
        else if m == POST || m == PUT then WritePersonal
        else MethodNotAllowed
      case CollectionRoute(r) =>
        if m == GET then List(r) else if m == POST then Create(r) else MethodNotAllowed
      case ItemRoute(r, idPart) =>
        ParseIntOfDigits(idPart);
        var id := ParseInt(idPart);
        if id.None? then InvalidId
        else if m == GET then Read(r, id.value)
        else if m == PUT then Replace(r, id.value)
        else if m == DELETE then Remove(r, id.value)
        else MethodNotAllowed
      case NoRoute => NotFound
  }

  // ----- Paths -----

  lemma NoSlashInNames(r: Resource)
    ensures forall j :: 0 <= j < |Name(r)| ==> Name(r)[j] != '/'
    ensures Name(r) != "personal-info"
  {
  }

  /** The collection path of a resource is routed to its collection, and only that path is. */
  lemma CollectionPathIff(path: string, r: Resource)
    ensures RouteOf(path) == CollectionRoute(r) <==> path == ApiPrefix + Name(r)
  {
    NoSlashInNames(r);
    if path == ApiPrefix + Name(r) {
      var rest := path[5..];
      assert rest == Name(r);
      assert Text.UpTo(rest, '/') == |rest| by {
        Text.UpToAt(rest, '/', |rest|);
      }
      assert rest[..|rest|] == rest;
      ResourceNamedIff(rest, r);
      assert path != PersonalInfoPath by {
        assert path[5..] != "personal-info";
      }
    }
  }

  /** An item path is the collection path, a slash and a non-empty run of digits; those
      paths, and only those, are routed to an item. */
  lemma ItemPathIff(path: string, r: Resource, idPart: string)
    ensures RouteOf(path) == ItemRoute(r, idPart)
        <==> path == ApiPrefix + Name(r) + "/" + idPart && |idPart| > 0 && AllDigits(idPart)
  {
    if path == ApiPrefix + Name(r) + "/" + idPart && |idPart| > 0 && AllDigits(idPart) {
      ItemPathRouted(r, idPart);
    }
  }

  lemma ItemPathRouted(r: Resource, idPart: string)
    requires |idPart| > 0 && AllDigits(idPart)
    ensures RouteOf(ApiPrefix + Name(r) + "/" + idPart) == ItemRoute(r, idPart)
  {
    ItemPathPieces(r, idPart);
    ItemRestSplits(r, idPart);
    ResourceNamedIff(Name(r), r);
  }

  /** An item path starts with the API prefix and is not the personal-info path. */
  lemma ItemPathPieces(r: Resource, idPart: string)
    ensures var path := ApiPrefix + Name(r) + "/" + idPart;
      |path| >= 5 && path[..5] == ApiPrefix && path[5..] == Name(r) + "/" + idPart
      && path != PersonalInfoPath
  {
    NoSlashInNames(r);
    var n := Name(r);
    var path := ApiPrefix + n + "/" + idPart;
    assert path[5..] == n + "/" + idPart;
    assert path[5..][|n|] == '/';
    assert path != PersonalInfoPath by {
      assert |path| != |PersonalInfoPath| || path[5..] != "personal-info";
    }
  }

  /** After the prefix, an item path splits at its first slash into the name and the id. */
  lemma ItemRestSplits(r: Resource, idPart: string)
    ensures var rest := Name(r) + "/" + idPart;
      Text.UpTo(rest, '/') == |Name(r)| && rest[..|Name(r)|] == Name(r)
      && rest[|Name(r)| + 1..] == idPart
  {
    NoSlashInNames(r);
    var n := Name(r);
    var rest := n + "/" + idPart;
    Text.UpToAt(rest, '/', |n|);
    assert rest[..|n|] == n;
    assert rest[|n| + 1..] == idPart;
  }

  lemma SplitAtSlash(s: string, k: nat)
    requires k < |s| && s[k] == '/'
    ensures s == s[..k] + "/" + s[k + 1..]
  {
  }

  // ----- Methods -----

  /** The methods each kind of route accepts: GET, POST and PUT on personal info, GET and POST
      on a collection, GET, PUT and DELETE on an item. Every other method is refused. */
  lemma MethodNotAllowedIff(m: Method, path: string)
    ensures Dispatch(m, path) == MethodNotAllowed <==>
      match RouteOf(path)
      case PersonalInfoRoute => m != GET && m != POST && m != PUT && m != OPTIONS
      case CollectionRoute(_) => m != GET && m != POST && m != OPTIONS
      case ItemRoute(_, _) => m != GET && m != PUT && m != DELETE && m != OPTIONS
      case NoRoute => false
  {
  }

  /** The item route reads the id written in the path. */
  lemma ItemIdRoundTrip(m: Method, r: Resource, id: nat)
    requires m == GET || m == PUT || m == DELETE
    ensures var a := Dispatch(m, ApiPrefix + Name(r) + "/" + NatToString(id));
            (a.Read? || a.Replace? || a.Remove?) && a.res == r && a.id == id
  {
    var d := NatToString(id);
    ItemPathIff(ApiPrefix + Name(r) + "/" + d, r, d);
    ParseIntOfDigits(d);
  }
}
