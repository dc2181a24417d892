/**
 One connection's worth of work: parse the text read from the connection,
 pick the route list for the method, run the first route that accepts the
 path, and write the status line and body back.
 */
module Handling {
  import opened Wrappers
  import opened Text
  import opened Http
  import opened Routing

  /** What the server writes when no route accepts the path. */
  const NotFoundText: string := StatusLine(404, "Not Found") + "Not Found"

  /** The 404 reply spelled out. */
  lemma NotFoundTextSpelledOut()
    ensures NotFoundText == "HTTP/1.1 404 Not Found\r\n\r\nNot Found"
  {
    RenderThreeDigits(404);
  }

  /** The start of every status line the server writes. */
  const Version: string := "HTTP/1.1 "

  /** The status line and blank line the server writes before a body. */
  function StatusLine(status: nat, reason: string): string {
    Version + NatToString(status) + " " + reason + BlankLine
  }

  /** A response as a client reads it off the wire. */
  datatype Wire = Wire(status: nat, reason: string, body: string)

  /** The length of the longest prefix of `s` made of decimal digits. */
  function DigitRunLength(s: string): (n: nat)
    ensures n <= |s|
    ensures forall i :: 0 <= i < n ==> IsDigit(s[i])
    ensures n == |s| || !IsDigit(s[n])
  {
    if |s| == 0 || !IsDigit(s[0]) then 0 else 1 + DigitRunLength(s[1..])
  }

  /**
   Reads a status line `HTTP/1.1 <digits> <reason>` into its status and
   reason. None when the line does not have that shape.
   */
  function ReadStatusLine(head: string): Option<(nat, string)> {
    if |head| < |Version| || head[..|Version|] != Version then None
    else ReadCodeAndReason(head[|Version|..])
  }

  /**
   Reads `<digits> <reason>`, the part of a status line after the version.
   A status written with a leading zero is not one the server writes.
   */
  function ReadCodeAndReason(rest: string): Option<(nat, string)> {
    var n := DigitRunLength(rest);
    if n == 0 || n == |rest| || rest[n] != ' ' || (n > 1 && rest[0] == '0') then None
    else Some((ParseDigits(rest[..n]), rest[n + 1..]))
  }

  /**
   Reads the bytes a client receives: a status line, a blank line, and
   everything after it as the body. None when the bytes do not have that shape.
   */
  function ReadWire(bytes: string): Option<Wire> {
    match FindFirst(bytes, BlankLine)
    case None => None
    case Some(i) =>
      match ReadStatusLine(bytes[..i])
      case None => None
      case Some((status, reason)) => Some(Wire(status, reason, bytes[i + |BlankLine|..]))
  }

  /** The digit run of digits followed by a non-digit is exactly those digits. */
  lemma {:induction false} DigitRunOf(digits: string, tail: string)
    requires forall k :: 0 <= k < |digits| ==> IsDigit(digits[k])
    requires |tail| > 0 && !IsDigit(tail[0])
    ensures DigitRunLength(digits + tail) == |digits|
    decreases |digits|
  {
    if |digits| > 0 {
      assert (digits + tail)[1..] == digits[1..] + tail;
      DigitRunOf(digits[1..], tail);
    }
  }

  /** The status line the server writes reads back as its status and reason. */
  lemma {:induction false} ReadStatusLineOf(status: nat, reason: string)
    ensures ReadStatusLine(Version + NatToString(status) + " " + reason) == Some((status, reason))
  {
    var rest := NatToString(status) + " " + reason;
    assert Version + NatToString(status) + " " + reason == Version + rest;
    ReadCodeAndReasonOf(status, reason);
    ReadAfterVersion(rest);
  }

  /** A head that starts with the version is read by what follows the version. */
  lemma {:induction false} ReadAfterVersion(rest: string)
    ensures ReadStatusLine(Version + rest) == ReadCodeAndReason(rest)
  {
    assert (Version + rest)[..|Version|] == Version;
    assert (Version + rest)[|Version|..] == rest;
  }

  /** A rendered status, a space and a reason read back as that status and reason. */
  lemma {:induction false} ReadCodeAndReasonOf(status: nat, reason: string)
    ensures ReadCodeAndReason(NatToString(status) + " " + reason) == Some((status, reason))
  {
    var digits := NatToString(status);
    var rest := digits + (" " + reason);
    assert digits + " " + reason == rest;
    DigitRunOf(digits, " " + reason);
    assert rest[0] == digits[0];
    assert rest[..|digits|] == digits;
    assert rest[|digits| + 1..] == reason;
    ParseNatToString(status);
  }

  /** A status line with the given status and reason, then a blank line and the body. */
  lemma {:induction false} ReadWireOfStatusLine(status: nat, reason: string, body: string)
    requires forall k :: 0 <= k < |reason| ==> reason[k] != '\r'
    ensures ReadWire(StatusLine(status, reason) + body) == Some(Wire(status, reason, body))
  {
    var digits := NatToString(status);
    var head := Version + digits + " " + reason;
    var bytes := head + BlankLine + body;
    assert bytes == StatusLine(status, reason) + body;
    forall k | 0 <= k < |head| ensures head[k] != '\r' {
      if k >= |Version| + |digits| + 1 {
        assert head[k] == reason[k - |Version| - |digits| - 1];
      } else if k >= |Version| + |digits| {
        assert head[k] == ' ';
      } else if k >= |Version| {
        assert head[k] == digits[k - |Version|];
      }
    }
    FirstBlankLineAfter(head, body);
    assert bytes[..|head|] == head;
    assert bytes[|head| + |BlankLine|..] == body;
    ReadStatusLineOf(status, reason);
  }

  /** How `{}` prints a three-digit status such as 200 or 404. */
  lemma {:induction false} RenderThreeDigits(n: nat)
    requires 100 <= n < 1000
    ensures NatToString(n) == [DigitChar(n / 100), DigitChar(n / 10 % 10), DigitChar(n % 10)]
  {
    assert NatToString(n / 100) == [DigitChar(n / 100)];
    assert NatToString(n / 10) == [DigitChar(n / 100), DigitChar(n / 10 % 10)];
  }

  /** A client reads the 404 text as status 404 with reason and body `Not Found`. */
  lemma ReadNotFound()
    ensures ReadWire(NotFoundText) == Some(Wire(404, "Not Found", "Not Found"))
  {
    ReadWireOfStatusLine(404, "Not Found", "Not Found");
  }

  /** What the reader accepts after the version is a rendered status, a space and a reason. */
  lemma {:induction false} ReadCodeAndReasonBytes(rest: string)
    ensures ReadCodeAndReason(rest).Some? ==>
              rest == NatToString(ReadCodeAndReason(rest).value.0) + " " + ReadCodeAndReason(rest).value.1
  {
    var n := DigitRunLength(rest);
    if ReadCodeAndReason(rest).Some? {
      var digits := rest[..n];
      assert |digits| > 1 ==> digits[0] == rest[0];
      NatToStringOfDigits(digits);
      assert rest == digits + [' '] + rest[n + 1..];
    }
  }

  /** What the reader accepts as a head is a status line the server could write. */
  lemma {:induction false} ReadStatusLineBytes(head: string)
    ensures ReadStatusLine(head).Some? ==>
              head == Version + NatToString(ReadStatusLine(head).value.0) + " " + ReadStatusLine(head).value.1
  {
    if ReadStatusLine(head).Some? {
      var rest := head[|Version|..];
      var r := ReadStatusLine(head).value;
      assert ReadCodeAndReason(rest) == Some(r);
      ReadCodeAndReasonBytes(rest);
      assert head == Version + rest by {
        assert head[..|Version|] == Version;
        assert head == head[..|Version|] + rest;
      }
    }
  }

  /**
   The reader loses nothing: bytes it accepts are exactly the status line of
   what it read, followed by the body it read.
   */
  lemma {:induction false} ReadWireBytes(bytes: string)
    ensures ReadWire(bytes).Some? ==>
              var w := ReadWire(bytes).value;
              bytes == StatusLine(w.status, w.reason) + w.body
  {
    match FindFirst(bytes, BlankLine)
    case None =>
    case Some(i) =>
      var head := bytes[..i];
      ReadStatusLineBytes(head);
      if ReadWire(bytes).Some? {
        assert bytes[i..i + |BlankLine|] == BlankLine;
        assert bytes == head + BlankLine + bytes[i + |BlankLine|..];
      }
  }

  /**
   The bytes written for a dispatch result: the handler's status and body
   under the reason phrase `OK`, whatever the status, or the fixed 404 text
   when no route matched.
   */
  function Serialize(res: Option<Response>): (out: string)
    ensures res.Some? ==> ReadWire(out) == Some(Wire(res.value.status as nat, "OK", res.value.body))
    ensures res.None? ==> ReadWire(out) == Some(Wire(404, "Not Found", "Not Found"))
  {
    match res
    case Some(r) =>
      ReadWireOfStatusLine(r.status as nat, "OK", r.body);
      StatusLine(r.status as nat, "OK") + r.body
    case None =>
      ReadNotFound();
      NotFoundText
  }

  /**
   The reply is fixed byte for byte by what a client reads from it: any bytes
   a client reads the same way are the bytes the server writes.
   */
  lemma {:induction false} SerializeExact(res: Option<Response>, bytes: string)
    ensures ReadWire(bytes) == ReadWire(Serialize(res)) ==> bytes == Serialize(res)
  {
    ReadWireBytes(bytes);
    match res
    case Some(r) =>
      assert Serialize(res) == StatusLine(r.status as nat, "OK") + r.body;
    case None =>
      assert Serialize(res) == StatusLine(404, "Not Found") + "Not Found";
  }

  /** The end of one connection: nothing written (the worker panicked) or bytes written. */
  datatype Outcome = Aborted | Written(bytes: string)

  /**
   Handles the text read from one connection. Text with fewer than two
   whitespace-separated tokens aborts the connection without a reply;
   otherwise the reply carries `OK` exactly when some route of the selected
   list accepts the path, and the 404 text otherwise.
   */
  function Handle(s: Server, engine: RegexEngine, raw: string): (o: Outcome)
    ensures o.Aborted? <==> |Tokens(raw)| < 2
    ensures o.Written? ==>
              var rs := SelectRoutes(s.routes, Tokens(raw)[0]);
              var path := Tokens(raw)[1];
              && (NoMatch(rs, engine, path) ==> o.bytes == NotFoundText)
              && (!NoMatch(rs, engine, path) ==>
                    ReadWire(o.bytes).Some? && ReadWire(o.bytes).value.reason == "OK")
  {
    match ParseRequest(raw)
    case Failure(_) => Aborted
    case Success(req) =>
      Written(Serialize(Respond(SelectRoutes(s.routes, req.verb), engine, req)))
  }

  /**
   When route `i` of the selected list is the first to accept the path, the
   client reads that route's handler's status and body, under `OK`.
   */
  lemma {:induction false} HandleFirstMatch(s: Server, engine: RegexEngine, raw: string, i: nat)
    requires ParseRequest(raw).Success?
    requires var req := ParseRequest(raw).value;
             IsFirstMatch(SelectRoutes(s.routes, req.verb), engine, req.path, i)
    ensures var req := ParseRequest(raw).value;
            var r := SelectRoutes(s.routes, req.verb)[i].handler(Some(req));
            && Handle(s, engine, raw).Written?
            && ReadWire(Handle(s, engine, raw).bytes) == Some(Wire(r.status as nat, "OK", r.body))
  {
  }

  /** A POST request never consults the GET list. */
  lemma {:induction false} PostIgnoresGetRoutes(get1: seq<Route>, get2: seq<Route>, post: seq<Route>, engine: RegexEngine, raw: string)
    requires |Tokens(raw)| >= 2 && Tokens(raw)[0] == "POST"
    ensures Handle(Server(Routes(get1, post)), engine, raw) == Handle(Server(Routes(get2, post)), engine, raw)
  {
  }

  /** Any method other than POST, `GET` or not, never consults the POST list. */
  lemma {:induction false} OtherMethodsIgnorePostRoutes(get: seq<Route>, post1: seq<Route>, post2: seq<Route>, engine: RegexEngine, raw: string)
    requires |Tokens(raw)| >= 2 && Tokens(raw)[0] != "POST"
    ensures Handle(Server(Routes(get, post1)), engine, raw) == Handle(Server(Routes(get, post2)), engine, raw)
  {
  }

  /**
   A request line `<verb> <path> HTTP/1.1`, a blank line and a body without a
   blank line in it are handled as the request with that verb, path and body.
   */
  lemma {:induction false} HandleRequestText(s: Server, engine: RegexEngine, verb: string, path: string, body: string)
    requires IsWord(verb) && IsWord(path)
    requires !Contains(body, BlankLine)
    ensures var req := Request(verb, path, Some(body));
            Handle(s, engine, RequestText(verb, path, body))
            == Written(Serialize(Respond(SelectRoutes(s.routes, verb), engine, req)))
  {
    ParseRequestText(verb, path, body);
  }

  /** The status line of a 200 reply spelled out. */
  lemma OkStatusLineSpelledOut()
    ensures StatusLine(200, "OK") == "HTTP/1.1 200 OK\r\n\r\n"
  {
    RenderThreeDigits(200);
  }
}
