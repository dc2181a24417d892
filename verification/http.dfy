/**
 The request and response records of the server and the parser that builds a
 request from the text the server read from a connection.
 */
module Http {
  import opened Wrappers
  import opened Text

  /** Rust's `u32`, the type of a response status. */
  newtype u32 = x: int | 0 <= x < 0x1_0000_0000

  /** What a handler produces: a body and a numeric status. */
  datatype Response = Response(body: string, status: u32)

  /**
   A parsed request. `verb` is the request method (`GET`, `POST`, ...) as
   received; `body` is absent when the text holds no blank line.
   */
  datatype Request = Request(verb: string, path: string, body: Option<string>)

  /**
   Why a text is not a request. The server unwraps the tokeniser's result, so
   this is a panic of the worker that handles the connection.
   */
  datatype ParseError = TooFewTokens

  /**
   The second piece of the text split on blank lines. It is present exactly
   when the text holds a blank line.
   */
  function BodyOf(raw: string): (b: Option<string>)
    ensures b.Some? <==> Contains(raw, BlankLine)
  {
    var parts := Split(raw, BlankLine);
    if |parts| >= 2 then Some(parts[1]) else None
  }

  /**
   The body is the text from the end of the first blank line up to the start
   of the next blank line, or up to the end of the text when there is no
   second blank line. It never holds a blank line itself.
   */
  lemma {:induction false} BodyBetweenBlankLines(raw: string, i: nat)
    requires OccursAt(raw, BlankLine, i)
    requires forall k: nat :: k < i ==> !OccursAt(raw, BlankLine, k)
    ensures BodyOf(raw).Some?
    ensures var start := i + |BlankLine|;
            var end := start + |BodyOf(raw).value|;
            && end <= |raw|
            && BodyOf(raw).value == raw[start..end]
            && (end == |raw| || OccursAt(raw, BlankLine, end))
            && !Contains(BodyOf(raw).value, BlankLine)
  {
    SecondPiece(raw, BlankLine, i);
  }

  /**
   A head with no carriage return, a blank line and a body with no blank line
   in it: the parsed body is exactly that body.
   */
  lemma {:induction false} BodyAfterHead(head: string, body: string)
    requires forall k :: 0 <= k < |head| ==> head[k] != '\r'
    requires !Contains(body, BlankLine)
    ensures BodyOf(head + BlankLine + body) == Some(body)
  {
    var raw := head + BlankLine + body;
    var i := |head|;
    FirstBlankLineAfter(head, body);
    SplitAtFirst(raw, BlankLine, i);
    assert raw[i + |BlankLine|..] == body;
    SplitWhenAbsent(body, BlankLine);
  }

  /**
   Builds a request from raw text: the method is the first whitespace-separated
   token, the path the second, the body the piece after the first blank line.
   Text with fewer than two tokens is not a request.
   */
  function ParseRequest(raw: string): (r: Result<Request, ParseError>)
    ensures r.Failure? <==> |Tokens(raw)| < 2
    ensures r.Success? ==> r.value.verb == Tokens(raw)[0] && r.value.path == Tokens(raw)[1]
    ensures r.Success? ==> IsWord(r.value.verb) && IsWord(r.value.path)
    ensures r.Success? ==> (r.value.body.Some? <==> Contains(raw, BlankLine))
    ensures r.Success? ==> r.value.body == BodyOf(raw)
  {
    var ts := Tokens(raw);
    if |ts| < 2 then Failure(TooFewTokens)
    else Success(Request(ts[0], ts[1], BodyOf(raw)))
  }

  /**
   A request line `<verb> <path>` followed by whitespace or nothing parses to
   that method and that path.
   */
  lemma {:induction false} ParseRequestLine(verb: string, path: string, rest: string)
    requires IsWord(verb) && IsWord(path)
    requires |rest| == 0 || IsWhitespace(rest[0])
    ensures var r := ParseRequest(verb + " " + path + rest);
            r.Success? && r.value.verb == verb && r.value.path == path
  {
    TokensOfWord(path, rest);
    TokensSkipWhitespace(" ", path + rest);
    assert verb + " " + path + rest == verb + (" " + (path + rest));
    TokensOfWord(verb, " " + (path + rest));
  }

  /** The text a client sends: a request line, a blank line and a body. */
  function RequestText(verb: string, path: string, body: string): string {
    verb + " " + path + " HTTP/1.1" + BlankLine + body
  }

  /**
   Parsing the text of a request whose verb and path are words without a
   carriage return, and whose body holds no blank line, gives that request back.
   */
  lemma {:induction false} ParseRequestText(verb: string, path: string, body: string)
    requires IsWord(verb) && IsWord(path)
    requires !Contains(body, BlankLine)
    ensures ParseRequest(RequestText(verb, path, body)) == Success(Request(verb, path, Some(body)))
  {
    var head := verb + " " + path + " HTTP/1.1";
    var raw := head + BlankLine + body;
    assert raw == RequestText(verb, path, body);
    assert raw == verb + " " + path + (" HTTP/1.1" + BlankLine + body);
    ParseRequestLine(verb, path, " HTTP/1.1" + BlankLine + body);
    forall k | 0 <= k < |head| ensures head[k] != '\r' {
      if k < |verb| {
        assert head[k] == verb[k];
      } else if |verb| < k <= |verb| + |path| {
        assert head[k] == path[k - |verb| - 1];
      }
    }
    BodyAfterHead(head, body);
  }
}
