/**
 The route table: two ordered lists of (matcher, handler) pairs, one for GET
 and one for POST, filled by `get` and `post` during setup, and the
 first-match-wins scan that picks a route for a request.
 */
module Routing {
  import opened Wrappers
  import opened Http

  /** A compiled regular expression, known here only by its source text. */
  datatype Regex = Regex(pattern: string)

  /**
   The regex engine's unanchored `is_match`: whether the pattern matches
   somewhere in the text. The engine is outside the model, so every operation
   that needs it takes it as a parameter.
   */
  type RegexEngine = (Regex, string) -> bool

  /** A route handler; the server always passes it the parsed request. */
  type Handler = Option<Request> -> Response

  /** How a route decides whether it applies to a request path. */
  datatype Path = Str(literal: string) | Rex(regex: Regex)

  datatype Route = Route(path: Path, handler: Handler)

  /** The route lists, each in registration order. */
  datatype Routes = Routes(get: seq<Route>, post: seq<Route>)

  datatype Server = Server(routes: Routes)

  /** A server with no routes. */
  function NewServer(): (s: Server)
    ensures |s.routes.get| == 0 && |s.routes.post| == 0
  {
    Server(Routes([], []))
  }

  /** Registers a GET route after every GET route already registered. */
  function Get(s: Server, p: Path, h: Handler): (s': Server)
    ensures |s'.routes.get| == |s.routes.get| + 1
    ensures s'.routes.get[..|s.routes.get|] == s.routes.get
    ensures s'.routes.get[|s.routes.get|] == Route(p, h)
    ensures s'.routes.post == s.routes.post
  {
    Server(Routes(s.routes.get + [Route(p, h)], s.routes.post))
  }

  /** Registers a POST route after every POST route already registered. */
  function Post(s: Server, p: Path, h: Handler): (s': Server)
    ensures |s'.routes.post| == |s.routes.post| + 1
    ensures s'.routes.post[..|s.routes.post|] == s.routes.post
    ensures s'.routes.post[|s.routes.post|] == Route(p, h)
    ensures s'.routes.get == s.routes.get
  {
    Server(Routes(s.routes.get, s.routes.post + [Route(p, h)]))
  }

  /**
   The list a request method consults: POST requests use the POST list and
   every other method, `GET` or not, uses the GET list.
   */
  function SelectRoutes(routes: Routes, verb: string): (rs: seq<Route>)
    ensures verb == "POST" ==> rs == routes.post
    ensures verb != "POST" ==> rs == routes.get
  {
    match verb
    case "GET" => routes.get
    case "POST" => routes.post
    case _ => routes.get
  }

  /**
   Whether a matcher applies to a path: a literal on exact equality, a regex
   when the engine finds a match anywhere in the path.
   */
  function Accepts(p: Path, engine: RegexEngine, path: string): (b: bool)
    ensures p.Str? ==> (b <==> path == p.literal)
    ensures p.Rex? ==> (b <==> engine(p.regex, path))
  {
    match p
    case Str(x) => path == x
    case Rex(re) => engine(re, path)
  }

  /** Index `i` holds the first route of `rs` that accepts `path`. */
  predicate IsFirstMatch(rs: seq<Route>, engine: RegexEngine, path: string, i: nat) {
    && i < |rs|
    && Accepts(rs[i].path, engine, path)
    && forall j :: 0 <= j < i ==> !Accepts(rs[j].path, engine, path)
  }

  /** No route of `rs` accepts `path`. */
  predicate NoMatch(rs: seq<Route>, engine: RegexEngine, path: string) {
    forall j :: 0 <= j < |rs| ==> !Accepts(rs[j].path, engine, path)
  }

  /** The index of the first route of `rs` that accepts `path`, if any. */
  function FirstMatch(rs: seq<Route>, engine: RegexEngine, path: string): (r: Option<nat>)
    ensures r.Some? ==> IsFirstMatch(rs, engine, path, r.value)
    ensures r.None? <==> NoMatch(rs, engine, path)
  {
    if |rs| == 0 then None
    else if Accepts(rs[0].path, engine, path) then Some(0)
    else match FirstMatch(rs[1..], engine, path)
      case None => None
      case Some(i) => Some(i + 1)
  }

  /**
   The response of the first route of `rs` that accepts the request's path,
   or none when no route accepts it.
   */
  function Respond(rs: seq<Route>, engine: RegexEngine, req: Request): (res: Option<Response>)
    ensures res.None? <==> NoMatch(rs, engine, req.path)
    ensures forall i: nat :: IsFirstMatch(rs, engine, req.path, i) ==> res == Some(rs[i].handler(Some(req)))
  {
    match FirstMatch(rs, engine, req.path)
    case None => None
    case Some(i) => Some(rs[i].handler(Some(req)))
  }

  /**
   The scan of the request handler: walk the selected list in order, call the
   handler of the first route that accepts the path, and stop. `invoked`
   lists the routes whose handler was called.
   */
  method Dispatch(rs: seq<Route>, engine: RegexEngine, req: Request)
    returns (res: Option<Response>, invoked: seq<nat>)
    ensures |invoked| <= 1
    ensures res.None? <==> |invoked| == 0
    ensures |invoked| == 0 <==> NoMatch(rs, engine, req.path)
    ensures |invoked| == 1 ==> IsFirstMatch(rs, engine, req.path, invoked[0])
    ensures |invoked| == 1 ==> res == Some(rs[invoked[0]].handler(Some(req)))
    ensures res == Respond(rs, engine, req)
  {
    res := None;
    invoked := [];
    var i := 0;
    while i < |rs|
      invariant 0 <= i <= |rs|
      invariant res.None? && invoked == []
      invariant forall j :: 0 <= j < i ==> !Accepts(rs[j].path, engine, req.path)
    {
      var isMatch := Accepts(rs[i].path, engine, req.path);
      if isMatch {
        res := Some(rs[i].handler(Some(req)));
        invoked := invoked + [i];
        return;
      }
      i := i + 1;
    }
  }

  /**
   Registration order is priority order: a route added after others is chosen
   only when none of the earlier routes accepts the path.
   */
  lemma {:induction false} FirstMatchAppend(rs: seq<Route>, r: Route, engine: RegexEngine, path: string)
    ensures FirstMatch(rs + [r], engine, path) ==
            if FirstMatch(rs, engine, path).Some? then FirstMatch(rs, engine, path)
            else if Accepts(r.path, engine, path) then Some(|rs|)
            else None
  {
    if |rs| > 0 {
      assert (rs + [r])[1..] == rs[1..] + [r];
      FirstMatchAppend(rs[1..], r, engine, path);
    }
  }

  /** The GET-list match of the server after `Get(s, p, h)`. */
  lemma {:induction false} GetKeepsEarlierRoutesFirst(s: Server, p: Path, h: Handler, engine: RegexEngine, path: string)
    ensures var before := FirstMatch(s.routes.get, engine, path);
            var after := FirstMatch(Get(s, p, h).routes.get, engine, path);
            && (before.Some? ==> after == before)
            && (before.None? ==> (after.Some? <==> Accepts(p, engine, path)))
            && (after.Some? && before.None? ==> after.value == |s.routes.get|)
  {
    FirstMatchAppend(s.routes.get, Route(p, h), engine, path);
  }

  /** The POST-list match of the server after `Post(s, p, h)`. */
  lemma {:induction false} PostKeepsEarlierRoutesFirst(s: Server, p: Path, h: Handler, engine: RegexEngine, path: string)
    ensures var before := FirstMatch(s.routes.post, engine, path);
            var after := FirstMatch(Post(s, p, h).routes.post, engine, path);
            && (before.Some? ==> after == before)
            && (before.None? ==> (after.Some? <==> Accepts(p, engine, path)))
            && (after.Some? && before.None? ==> after.value == |s.routes.post|)
  {
    FirstMatchAppend(s.routes.post, Route(p, h), engine, path);
  }
}
