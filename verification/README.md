# rwebserver request dispatch, in Dafny

rwebserver is a small multi-threaded HTTP server library. A program builds a
`Server`, registers routes with `get` and `post`, and then listens. Each route
pairs a path matcher with a handler. A matcher is either a literal string or
a regular expression. For every connection, the server:

- reads the request text once;
- takes the method and the path from the whitespace-separated tokens;
- takes the body from the text after the first blank line;
- picks the GET or the POST route list by method;
- runs the handler of the first route whose matcher accepts the path;
- writes either `HTTP/1.1 <status> OK` with the handler's body, or a fixed 404 reply.

This project models that core as pure functions. It proves what the core
promises its users.

Modules:

- `Wrappers`: `Option` and `Result`.
- `Text`: the string operations the server relies on.
  - Rust's `str::split` on a delimiter, as `Split` built on `FindFirst`.
  - `str::split_whitespace`, as `Tokens` over Unicode White_Space.
  - The decimal rendering `{}` of a status, as `NatToString`.
- `Http`: `Request`, `Response` and `ParseRequest`, which models `Request::new`.
  - Text with fewer than two tokens is a `Failure`. The server panics on it and never replies.
  - The body is `Some` exactly when the text holds `\r\n\r\n`. It is the text from there up to the next `\r\n\r\n`, or up to the end.
- `Routing`: the route table (`NewServer`, `Get`, `Post`) and method selection (`SelectRoutes`).
  - The first-match-wins scan exists both as the function `Respond` and as the loop `Dispatch`. `Dispatch` records which handlers it invoked.
  - The regex engine is outside the model. It is a parameter `engine: (Regex, string) -> bool` standing for the engine's unanchored `is_match`.
- `Handling`: `Serialize`, which writes the reply, and `Handle`, which covers one connection from text to bytes.
  - `ReadWire` is a small reader for the reply bytes. It states what a client reads: status, reason and body.
- `Sample`: `SampleServer` holds the three routes the command-line program registers. Lemmas state how that server answers concrete requests.
- `ReadBuffer`: how the text reaches the parser. The request is read into a zero-filled 512-byte buffer. The model has the decoding as written (`PaddedText`) and a corrected decoding (`ReceivedText`, `Serve`); see Findings.

One might expect the body to be everything after the first blank line. The
code takes `split("\r\n\r\n").nth(1)`, which stops at a second blank line.
The model follows the code: see `Http.BodyBetweenBlankLines`.

The `Sample` lemmas apply `Handle` to the text the
server decodes. Under the read as written, that text is padded with NULs, and
the replies change accordingly; the `ReadBuffer` lemmas state how.

## Model

| member | source | states |
|---|---|---|
| Text.FindFirst | src/lib.rs:39 | The blank-line search finds the leftmost occurrence. It returns none exactly when the text has no occurrence, and no occurrence comes before the one it returns. |
| Text.Split | src/lib.rs:39 | A split always has at least one piece: when the delimiter does not occur, the one piece is the whole text. |
| Text.FirstPiece | src/lib.rs:39 | The first piece of a split is the whole text, or the text up to the leftmost delimiter. Either way it holds no delimiter. |
| Text.SplitPiecesAreFree | src/lib.rs:39 | No piece of a split contains the delimiter. |
| Text.JoinSplit | src/lib.rs:39 | Splitting loses nothing but the delimiters. Joining the pieces with the delimiter gives back the original text. |
| Text.SecondPiece | src/lib.rs:39 | With a leftmost delimiter at `i`, a split has a second piece. That piece runs from the end of that delimiter to the next delimiter or to the end of the text. |
| Text.Tokens | src/lib.rs:65 | Every token is a word: non-empty and free of whitespace. |
| Text.TokensOfWord | src/lib.rs:44-46 | A word followed by whitespace or by the end of the text is the next token. |
| Text.TokensSkipWhitespace | src/lib.rs:65 | Leading whitespace produces no token. |
| Text.TokensOfUnwords | src/lib.rs:65 | Splitting space-joined words on whitespace returns exactly those words. |
| Text.TokensKeepNonWhitespace | src/lib.rs:65 | Tokenising drops exactly the whitespace. The tokens, run together, are the text's non-whitespace characters in order. |
| Text.NatToString | src/lib.rs:95 | The rendering of a status is a non-empty digit string without leading zeros. |
| Text.ParseNatToString | src/lib.rs:95 | Reading the rendered digits back gives the status number. |
| Text.NatToStringOfDigits | src/lib.rs:95 | Conversely, a digit string without a leading zero is the rendering of the number it stands for. Each number has exactly one rendering. |
| Http.BodyOf | src/lib.rs:39-42 | The body is present exactly when the text holds a blank line. |
| Http.BodyBetweenBlankLines | src/lib.rs:39-42 | The body is the text between the first blank line and the next blank line, or the end of the text. It never holds a blank line itself. |
| Http.BodyAfterHead | src/lib.rs:39-42 | A head without a carriage return, then a blank line and a body with no blank line, yields exactly that body. |
| Http.ParseRequest | src/lib.rs:38-48 | Parsing fails exactly when the text has fewer than two whitespace tokens, which is where the source's `unwrap` panics. On success, the method and the path are tokens 0 and 1. Both are non-empty and free of whitespace. The body is present exactly when a blank line occurs, and it is the second blank-line piece (`Http.BodyOf`). |
| Http.ParseRequestLine | src/lib.rs:44-46 | A request line `<method> <path>`, followed by whitespace or nothing, parses to that method and that path. |
| Http.ParseRequestText | src/lib.rs:38-48 | Round trip: the text `<method> <path> HTTP/1.1`, a blank line and a body parses back to that request. |
| Routing.NewServer | src/lib.rs:101-108 | A new server has empty GET and POST lists. |
| Routing.Get | src/lib.rs:129-132 | `get` appends the route to the end of the GET list. Earlier GET routes and the whole POST list are unchanged. |
| Routing.Post | src/lib.rs:134-137 | `post` appends the route to the end of the POST list. Earlier POST routes and the whole GET list are unchanged. |
| Routing.SelectRoutes | src/lib.rs:75-79 | `POST` uses the POST list. Every other method, known or not, uses the GET list. |
| Routing.Accepts | src/lib.rs:82-85 | A literal matcher accepts exactly its own text, whatever the regex engine does. A regex matcher accepts exactly when the engine matches the regex somewhere in the path. |
| Routing.FirstMatch | src/lib.rs:81-90 | It finds the first route in list order whose matcher accepts the path, and is none exactly when no route accepts it. |
| Routing.Respond | src/lib.rs:81-90 | The result is none exactly when no route accepts the path. Otherwise it is the first accepting route's handler applied to the request. |
| Routing.Dispatch | src/lib.rs:81-90 | The loop invokes at most one handler. It invokes one exactly when some route accepts the path, and that handler belongs to the first accepting route. Its result is that handler's response, and it equals `Respond`. |
| Routing.FirstMatchAppend | src/lib.rs:81-90 | A route appended to a list is chosen only when no earlier route accepts the path. |
| Routing.GetKeepsEarlierRoutesFirst | src/lib.rs:129-132 | After `get`, a path an earlier GET route accepted keeps its route. The new route wins exactly when no earlier GET route accepted the path and its matcher accepts it. |
| Routing.PostKeepsEarlierRoutesFirst | src/lib.rs:134-137 | The same for `post` and the POST list. |
| Handling.ReadStatusLineOf | src/lib.rs:95 | A written status line `HTTP/1.1 <status> <reason>` reads back as that status and that reason. |
| Handling.ReadWireOfStatusLine | src/lib.rs:95-97 | A status line, a blank line and a body read back as that status, reason and body. |
| Handling.NotFoundTextSpelledOut | src/lib.rs:97 | The 404 reply is `HTTP/1.1 404 Not Found\r\n\r\nNot Found`. |
| Handling.ReadNotFound | src/lib.rs:97 | A client reads the 404 reply as status 404, reason `Not Found`, body `Not Found`. |
| Handling.OkStatusLineSpelledOut | src/lib.rs:95 | The status line of a 200 reply is `HTTP/1.1 200 OK\r\n\r\n`. |
| Handling.Serialize | src/lib.rs:94-98 | With a response, a client reads the handler's status and body under the reason `OK`, whatever the status. Without one, it reads the 404 reply. |
| Handling.ReadWireBytes | src/lib.rs:95-97 | The reader loses nothing. Bytes it accepts are exactly the status line it read, in the server's rendering without leading zeros, followed by the body it read. |
| Handling.SerializeExact | src/lib.rs:94-98 | The reply is fixed byte for byte. Any bytes a client reads the same way as the reply are the reply itself, so the reply is `HTTP/1.1 <status> OK\r\n\r\n<body>` or the 404 text exactly. |
| Handling.Handle | src/lib.rs:61-98 | A connection gets no reply exactly when the text has fewer than two tokens. Otherwise the reply is the 404 text exactly when no route of the selected list accepts the path. When some route does accept it, the reply reads back with the reason `OK`. |
| Handling.HandleFirstMatch | src/lib.rs:81-95 | When route `i` is the first to accept, the client reads route `i`'s handler's status and body. |
| Handling.PostIgnoresGetRoutes | src/lib.rs:75-79 | The reply to a POST does not depend on the GET list. |
| Handling.OtherMethodsIgnorePostRoutes | src/lib.rs:75-79 | The reply to any method other than POST does not depend on the POST list. |
| Handling.HandleRequestText | src/lib.rs:61-98 | A well-formed request text is answered with the serialised response that the selected list gives for that request. |
| Sample.EchoBody | src/bin/main.rs:76-84 | The echo handler always answers with status 200. |
| Sample.SampleServer | src/bin/main.rs:46-84 | The command-line program registers two GET routes and one POST route. |
| Sample.SampleRoutes | src/bin/main.rs:46-84 | Its GET list is `/t1` then the directory regex. Its POST list is `/t1`. |
| Sample.SampleGreets | src/bin/main.rs:48-50 | Every method other than POST, sent to `/t1`, reaches the greeting handler. |
| Sample.SampleEchoes | src/bin/main.rs:76-84 | A POST to `/t1` with a body is answered with that body and status 200. |
| Sample.SampleGetT1 | src/bin/main.rs:48-50 | `Handle` on the text `GET /t1 HTTP/1.1`, a blank line and no body gives `HTTP/1.1 200 OK`, a blank line and the greeting, whatever the regex engine does. |
| Sample.SamplePutT1 | src/lib.rs:75-79 | `Handle` on the same text with the unknown method `PUT` falls back to the GET list and gives the greeting. |
| Sample.SamplePostT1 | src/bin/main.rs:76-84 | `Handle` on the text of `POST /t1` with body `hello` gives back `hello` under `200 OK`. This is the reply with the corrected read; as written, the NULs are echoed too (`ReadBuffer.PaddedEchoReply`). |
| Sample.SamplePostDir | src/lib.rs:75-90 | `Handle` on a POST to a path that only a GET route accepts gives the 404 reply. |
| Sample.SampleMalformed | src/lib.rs:65-66 | `Handle` on the single-token text `GET\r\n\r\n` gives no reply. As written, the read pads that text into two tokens (`ReadBuffer.PaddedLoneMethodIsAnswered`). |
| ReadBuffer.PaddedText | src/lib.rs:62-64 | As written, the decoded text is always 512 characters long. It holds the bytes that arrived, then NULs up to the buffer's end. |
| ReadBuffer.ReceivedText | src/lib.rs:62-64 | Corrected: the decoded text is the first `min(n, 512)` characters of the `n` sent. A longer request is cut at 512, and a request that fits arrives unchanged. |
| ReadBuffer.PaddedRequestText | src/lib.rs:62-68 | As written, padding a request that fits only lengthens its body, with NULs. |
| ReadBuffer.PaddedBodyCarriesNuls | src/lib.rs:62-68 | As written, the parsed body is the sent body followed by NULs, so it differs from the sent body. |
| ReadBuffer.PaddedEchoReply | src/lib.rs:62-68 | As written, the sample server answers `POST /t1` by echoing the body plus the buffer's NULs, not the body alone. |
| ReadBuffer.PaddedLoneMethodTokens | src/lib.rs:62-66 | As written, a lone method and a blank line are padded into two tokens: the method, and the run of NULs. |
| ReadBuffer.PaddedLoneMethodIsAnswered | src/lib.rs:62-68 | As written, such a request is answered rather than aborted, and the NULs are taken as its path. |
| ReadBuffer.Serve | src/lib.rs:61-68 | Corrected: a request that fits in the buffer is handled as exactly the text sent. |
| ReadBuffer.ReceivedBodyIsSent | src/lib.rs:62-68 | Corrected: a request that fits is parsed with exactly the method, path and body that were sent. |
| ReadBuffer.ServeKeepsBody | src/lib.rs:61-68 | Corrected: a request that fits reaches the route scan with its own body. |
| ReadBuffer.ServeEchoReply | src/lib.rs:61-68 | Corrected: the sample server echoes exactly the sent body. |
| ReadBuffer.ReceivedLoneMethodTokens | src/lib.rs:62-66 | Corrected: a lone method and a blank line decode to the single token of the method. |
| ReadBuffer.ServeLoneMethodAborts | src/lib.rs:61-68 | Corrected: a lone method and a blank line has one token, so the connection is aborted without a reply. |

## Left out

- Networking and concurrency are left out: the TCP listener (`listen`), the thread pool, and the `Arc`/`Mutex` around the route table and the server. Each connection is modelled as one call of `Handle` on the text read from it, independent of earlier connections.
- Lock poisoning is left out. `handle_client` runs while the worker holds the server's lock. Any panic inside it poisons that lock, including the one the model calls `Aborted`. From then on, every later connection panics when it takes the lock, so the server stops replying. The model answers each connection as if no earlier one had panicked.
- A single `read` is assumed to return every byte sent, up to 512. A short read, where fewer bytes arrive, is not modelled.
- `String::from_utf8_lossy` is modelled as one character per byte. Replacement of invalid UTF-8 with U+FFFD is not modelled. In `ReadBuffer`, a string stands for the bytes sent, so its length, and the 512 bound in the lemmas' requires, count bytes. A character above U+007F would take several bytes in UTF-8, so a text with such characters is not the byte string it looks like; the buffer lemmas describe ASCII requests.
- Only one panic is modelled: text with fewer than two tokens, where `request_path[1]` and the `unwrap`s of `Request::new` panic, is `Aborted`. A failing `read` and a failing `write` are left out.
- A handler that panics is left out. `Handler` is a total function, so when a route matches, `Handle` always writes a reply.
- The timing (`Instant`) and the `println!` access log are left out. They do not affect the reply.
- The regex engine (`regex::Regex::is_match`) is a parameter. Every property holds for any engine. The sample lemmas depend on it only through the directory pattern, which they do not need.
- The directory handler of the command-line program reads the filesystem, so it is a parameter of `SampleServer`. `Request::get_param`, which that handler calls, is not defined in `src/lib.rs` and is not part of this model.
- Handlers receive `Option<Request>`, as in the source. The server always passes `Some`, so a handler's `None` case is never reached.
- Sample.EchoBody: answers `""` with status 200 when given `None`. The command-line program's handler would panic at `req.unwrap()` instead. The server never passes `None`, so no reply depends on this.
- A short `write` is not modelled. `Written(bytes)` is the reply handed to `write`; the source ignores how much of it was sent.
- `Response::new` is the datatype constructor `Response`.
- Integers are unbounded. The status is `u32`, and the model keeps that range in a `newtype`. No arithmetic is done on it, so nothing wraps.

## Findings

| source | as written | input that shows it | evidently intended | confidence | as-written member | corrected member |
|---|---|---|---|---|---|---|
| src/lib.rs:62-68 | `handle_client` decodes the whole zero-filled 512-byte buffer instead of the bytes `read` returned. The last token and the body therefore carry the unused NULs of the buffer. | `POST /t1 HTTP/1.1\r\n\r\nhello`: the parsed body is `hello` followed by 486 NUL characters, and the sample server's echo handler returns all of them | decode only `buf[..n]` for the `n` bytes read, so the body is `hello` and the echo is `hello` | not executed | ReadBuffer.PaddedBodyCarriesNuls | ReadBuffer.ReceivedBodyIsSent |
| src/lib.rs:62-66 | The same padding turns the NULs after a blank line into one more token. A request with only a method is then given a path made of NULs. | `GET\r\n\r\n`: the decoded text has the two tokens `GET` and 505 NULs, so the request is routed, and the connection is not aborted | decode only the bytes read, so the text has the single token `GET` and is treated like any other request without a path | not executed | ReadBuffer.PaddedLoneMethodIsAnswered | ReadBuffer.ReceivedLoneMethodTokens |
