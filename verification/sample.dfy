/**
 The server the command-line program builds: a greeting at `GET /t1`, a
 directory listing behind a regex, and an echo at `POST /t1`. The lemmas
 follow a few requests through `Handle`.
 */
module Sample {
  import opened Wrappers
  import opened Text
  import opened Http
  import opened Routing
  import opened Handling

  const GreetingText: string := "Hey there, alligator"

  /** The GET `/t1` handler: a fixed greeting. */
  function Greeting(req: Option<Request>): Response {
    Response(GreetingText, 200)
  }

  /**
   The POST `/t1` handler: echoes the request body, or the empty string when
   there is none. The server always passes a request.
   */
  function EchoBody(req: Option<Request>): (r: Response)
    ensures r.status == 200
  {
    match req
    case Some(Request(_, _, Some(b))) => Response(b, 200)
    case _ => Response("", 200)
  }

  const DirPattern: Regex := Regex("/dir/?(?P<file>.*)?/?")

  /**
   The routes the command-line program registers, in its order. The directory
   handler reads the filesystem, so it is a parameter.
   */
  function SampleServer(dirHandler: Handler): (s: Server)
    ensures |s.routes.get| == 2 && |s.routes.post| == 1
  {
    var s := Get(NewServer(), Str("/t1"), Greeting);
    var s := Get(s, Rex(DirPattern), dirHandler);
    Post(s, Str("/t1"), EchoBody)
  }

  /** The route lists of the sample server. */
  lemma {:induction false} SampleRoutes(dirHandler: Handler)
    ensures SampleServer(dirHandler).routes
            == Routes([Route(Str("/t1"), Greeting), Route(Rex(DirPattern), dirHandler)],
                      [Route(Str("/t1"), EchoBody)])
  {
  }

  /** Every method but POST reaches the greeting at `/t1`. */
  lemma {:induction false} SampleGreets(dirHandler: Handler, engine: RegexEngine, req: Request)
    requires req.verb != "POST" && req.path == "/t1"
    ensures Respond(SelectRoutes(SampleServer(dirHandler).routes, req.verb), engine, req)
            == Some(Response(GreetingText, 200))
  {
    SampleRoutes(dirHandler);
    var rs := SampleServer(dirHandler).routes.get;
    assert IsFirstMatch(rs, engine, req.path, 0);
  }

  /** A POST to `/t1` reaches the echo handler. */
  lemma {:induction false} SampleEchoes(dirHandler: Handler, engine: RegexEngine, req: Request)
    requires req.verb == "POST" && req.path == "/t1" && req.body.Some?
    ensures Respond(SelectRoutes(SampleServer(dirHandler).routes, req.verb), engine, req)
            == Some(Response(req.body.value, 200))
  {
    SampleRoutes(dirHandler);
    var rs := SampleServer(dirHandler).routes.post;
    assert IsFirstMatch(rs, engine, req.path, 0);
  }

  /** `GET /t1` is answered with the greeting, whatever the regex engine does. */
  lemma {:induction false} SampleGetT1(dirHandler: Handler, engine: RegexEngine)
    ensures Handle(SampleServer(dirHandler), engine, RequestText("GET", "/t1", ""))
            == Written(StatusLine(200, "OK") + GreetingText)
  {
    NoBlankLineWithoutReturn("");
    HandleRequestText(SampleServer(dirHandler), engine, "GET", "/t1", "");
    SampleGreets(dirHandler, engine, Request("GET", "/t1", Some("")));
  }

  /** A method the server does not know falls back to the GET list. */
  lemma {:induction false} SamplePutT1(dirHandler: Handler, engine: RegexEngine)
    ensures Handle(SampleServer(dirHandler), engine, RequestText("PUT", "/t1", ""))
            == Written(StatusLine(200, "OK") + GreetingText)
  {
    NoBlankLineWithoutReturn("");
    HandleRequestText(SampleServer(dirHandler), engine, "PUT", "/t1", "");
    SampleGreets(dirHandler, engine, Request("PUT", "/t1", Some("")));
  }

  /** `POST /t1` echoes the body that follows the blank line. */
  lemma {:induction false} SamplePostT1(dirHandler: Handler, engine: RegexEngine)
    ensures Handle(SampleServer(dirHandler), engine, RequestText("POST", "/t1", "hello"))
            == Written(StatusLine(200, "OK") + "hello")
  {
    NoBlankLineWithoutReturn("hello");
    HandleRequestText(SampleServer(dirHandler), engine, "POST", "/t1", "hello");
    SampleEchoes(dirHandler, engine, Request("POST", "/t1", Some("hello")));
  }

  /** A POST to a path only a GET route accepts is a 404. */
  lemma {:induction false} SamplePostDir(dirHandler: Handler, engine: RegexEngine)
    ensures Handle(SampleServer(dirHandler), engine, RequestText("POST", "/dir/x", "")) == Written(NotFoundText)
  {
    NoBlankLineWithoutReturn("");
    HandleRequestText(SampleServer(dirHandler), engine, "POST", "/dir/x", "");
    SampleRoutes(dirHandler);
    assert NoMatch(SampleServer(dirHandler).routes.post, engine, "/dir/x");
  }

  /** A request line with a single token gets no reply. */
  lemma {:induction false} SampleMalformed(dirHandler: Handler, engine: RegexEngine)
    ensures Handle(SampleServer(dirHandler), engine, "GET\r\n\r\n") == Aborted
  {
    var raw := "GET\r\n\r\n";
    TokensSkipWhitespace("\r\n\r\n", "");
    assert raw == "GET" + "\r\n\r\n";
    TokensOfWord("GET", "\r\n\r\n");
  }
}
