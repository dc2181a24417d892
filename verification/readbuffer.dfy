/**
 The step between the connection and the parser: the server reads once into a
 zero-filled 512-byte buffer and decodes the buffer as text. A string here
 stands for the bytes on the wire, one character per byte, so every length is
 a count of bytes.
 */
module ReadBuffer {
  import opened Wrappers
  import opened Text
  import opened Http
  import opened Routing
  import opened Handling
  import opened Sample

  /** The size of the buffer a request is read into. */
  const BufferSize: nat := 512

  function Min(a: nat, b: nat): nat {
    if a <= b then a else b
  }

  /** `n` NUL characters: the zero bytes the buffer starts out with. */
  function Nuls(n: nat): (z: string)
    ensures |z| == n
    ensures forall i :: 0 <= i < n ==> z[i] == '\0'
  {
    seq(n, _ => '\0')
  }

  /**
   The text the server decodes after one read, as written: the bytes that
   arrived, cut to the buffer, followed by the NULs of the unused rest of the
   buffer, because the whole buffer is decoded rather than the part the read
   filled.
   */
  function PaddedText(sent: string): (t: string)
    ensures |t| == BufferSize
    ensures t[..Min(|sent|, BufferSize)] == sent[..Min(|sent|, BufferSize)]
    ensures forall i :: Min(|sent|, BufferSize) <= i < BufferSize ==> t[i] == '\0'
  {
    var n := Min(|sent|, BufferSize);
    sent[..n] + Nuls(BufferSize - n)
  }

  /**
   The text the server should decode after one read: only the bytes that
   arrived, cut to the buffer. A request that fits is received unchanged.
   */
  function ReceivedText(sent: string): (t: string)
    ensures |t| == Min(|sent|, BufferSize)
    ensures |t| <= |sent| && t == sent[..|t|]
    ensures |sent| <= BufferSize ==> t == sent
  {
    sent[..Min(|sent|, BufferSize)]
  }

  /**
   Padding a request text that fits in the buffer only lengthens its body, and
   a body free of carriage returns stays free of them.
   */
  lemma {:induction false} PaddedRequestText(verb: string, path: string, body: string)
    requires forall k :: 0 <= k < |body| ==> body[k] != '\r'
    requires |RequestText(verb, path, body)| <= BufferSize
    ensures var longBody := body + Nuls(BufferSize - |RequestText(verb, path, body)|);
            && PaddedText(RequestText(verb, path, body)) == RequestText(verb, path, longBody)
            && !Contains(longBody, BlankLine)
  {
    var sent := RequestText(verb, path, body);
    var pad := Nuls(BufferSize - |sent|);
    var longBody := body + pad;
    assert PaddedText(sent) == sent + pad;
    assert sent + pad == RequestText(verb, path, longBody);
    forall k | 0 <= k < |longBody| ensures longBody[k] != '\r' {
      if k < |body| {
        assert longBody[k] == body[k];
      } else {
        assert longBody[k] == pad[k - |body|];
      }
    }
    NoBlankLineWithoutReturn(longBody);
  }

  /**
   As written, a body that fits in the buffer reaches the handler with the
   buffer's unused NULs after it.
   */
  lemma {:induction false} PaddedBodyCarriesNuls(verb: string, path: string, body: string)
    requires IsWord(verb) && IsWord(path)
    requires forall k :: 0 <= k < |body| ==> body[k] != '\r'
    requires |RequestText(verb, path, body)| < BufferSize
    ensures var padded := PaddedText(RequestText(verb, path, body));
            var pad := Nuls(BufferSize - |RequestText(verb, path, body)|);
            && ParseRequest(padded).Success?
            && ParseRequest(padded).value.body == Some(body + pad)
            && ParseRequest(padded).value.body != Some(body)
  {
    var pad := Nuls(BufferSize - |RequestText(verb, path, body)|);
    PaddedRequestText(verb, path, body);
    ParseRequestText(verb, path, body + pad);
    assert |body + pad| > |body|;
  }

  /**
   As written, the sample server's reply to `POST /t1` echoes the body with
   the buffer's unused NULs after it, so a client that sent `hello` does not
   get `hello` back.
   */
  lemma {:induction false} PaddedEchoReply(dirHandler: Handler, engine: RegexEngine, body: string)
    requires forall k :: 0 <= k < |body| ==> body[k] != '\r'
    requires |RequestText("POST", "/t1", body)| < BufferSize
    ensures var reply := Handle(SampleServer(dirHandler), engine, PaddedText(RequestText("POST", "/t1", body)));
            var pad := Nuls(BufferSize - |RequestText("POST", "/t1", body)|);
            && reply == Written(StatusLine(200, "OK") + (body + pad))
            && reply != Written(StatusLine(200, "OK") + body)
  {
    var longBody := body + Nuls(BufferSize - |RequestText("POST", "/t1", body)|);
    PaddedRequestText("POST", "/t1", body);
    HandleRequestText(SampleServer(dirHandler), engine, "POST", "/t1", longBody);
    SampleEchoes(dirHandler, engine, Request("POST", "/t1", Some(longBody)));
    assert |StatusLine(200, "OK") + longBody| != |StatusLine(200, "OK") + body|;
  }

  /** The blank line is all whitespace, so it never becomes a token. */
  lemma BlankLineIsWhitespace()
    ensures forall i :: 0 <= i < |BlankLine| ==> IsWhitespace(BlankLine[i])
  {
  }

  /**
   As written, a lone method and a blank line are padded into two tokens: the
   method, and the run of NULs after the blank line, which is not whitespace.
   */
  lemma {:induction false} PaddedLoneMethodTokens(verb: string)
    requires IsWord(verb)
    requires |verb| + |BlankLine| < BufferSize
    ensures Tokens(PaddedText(verb + BlankLine)) == [verb, Nuls(BufferSize - |verb| - |BlankLine|)]
  {
    var sent := verb + BlankLine;
    var pad := Nuls(BufferSize - |sent|);
    assert PaddedText(sent) == verb + (BlankLine + pad);
    assert IsWord(pad);
    TokensOfWord(pad, "");
    assert pad + "" == pad;
    BlankLineIsWhitespace();
    TokensSkipWhitespace(BlankLine, pad);
    TokensOfWord(verb, BlankLine + pad);
  }

  /**
   As written, a lone method and a blank line is answered instead of
   aborted, with the NULs taken as the path.
   */
  lemma {:induction false} PaddedLoneMethodIsAnswered(s: Server, engine: RegexEngine, verb: string)
    requires IsWord(verb)
    requires |verb| + |BlankLine| < BufferSize
    ensures Handle(s, engine, PaddedText(verb + BlankLine)).Written?
    ensures ParseRequest(PaddedText(verb + BlankLine)).value.path == Nuls(BufferSize - |verb| - |BlankLine|)
  {
    PaddedLoneMethodTokens(verb);
  }

  /**
   The corrected pipeline for one connection: read once, decode only the bytes
   that arrived, then handle the text.
   */
  function Serve(s: Server, engine: RegexEngine, sent: string): (o: Outcome)
    ensures |sent| <= BufferSize ==> o == Handle(s, engine, sent)
  {
    Handle(s, engine, ReceivedText(sent))
  }

  /**
   With the corrected read, a request that fits is parsed with the body that
   was sent, and nothing after it.
   */
  lemma {:induction false} ReceivedBodyIsSent(verb: string, path: string, body: string)
    requires IsWord(verb) && IsWord(path)
    requires !Contains(body, BlankLine)
    requires |RequestText(verb, path, body)| <= BufferSize
    ensures ParseRequest(ReceivedText(RequestText(verb, path, body))) == Success(Request(verb, path, Some(body)))
  {
    ParseRequestText(verb, path, body);
  }

  /** With the corrected read, a request that fits reaches the handler with its own body. */
  lemma {:induction false} ServeKeepsBody(s: Server, engine: RegexEngine, verb: string, path: string, body: string)
    requires IsWord(verb) && IsWord(path)
    requires !Contains(body, BlankLine)
    requires |RequestText(verb, path, body)| <= BufferSize
    ensures var req := Request(verb, path, Some(body));
            Serve(s, engine, RequestText(verb, path, body))
            == Written(Serialize(Respond(SelectRoutes(s.routes, verb), engine, req)))
  {
    HandleRequestText(s, engine, verb, path, body);
  }

  /** With the corrected read, the sample server echoes the body and nothing more. */
  lemma {:induction false} ServeEchoReply(dirHandler: Handler, engine: RegexEngine, body: string)
    requires forall k :: 0 <= k < |body| ==> body[k] != '\r'
    requires |RequestText("POST", "/t1", body)| <= BufferSize
    ensures Serve(SampleServer(dirHandler), engine, RequestText("POST", "/t1", body))
            == Written(StatusLine(200, "OK") + body)
  {
    NoBlankLineWithoutReturn(body);
    ServeKeepsBody(SampleServer(dirHandler), engine, "POST", "/t1", body);
    SampleEchoes(dirHandler, engine, Request("POST", "/t1", Some(body)));
  }

  /** With the corrected read, a lone method and a blank line is the method alone. */
  lemma {:induction false} ReceivedLoneMethodTokens(verb: string)
    requires IsWord(verb)
    requires |verb| + |BlankLine| <= BufferSize
    ensures Tokens(ReceivedText(verb + BlankLine)) == [verb]
  {
    BlankLineIsWhitespace();
    TokensSkipWhitespace(BlankLine, "");
    assert BlankLine + "" == BlankLine;
    TokensOfWord(verb, BlankLine);
  }

  /** With the corrected read, a lone method and a blank line is aborted without a reply. */
  lemma {:induction false} ServeLoneMethodAborts(s: Server, engine: RegexEngine, verb: string)
    requires IsWord(verb)
    requires |verb| + |BlankLine| <= BufferSize
    ensures Serve(s, engine, verb + BlankLine) == Aborted
  {
    ReceivedLoneMethodTokens(verb);
  }
}
