/**
 * What the proxy sends and observes: header maps, the client's request, the
 * request issued to the upstream proxy, the upstream's answer, and the
 * effects a handler has, recorded as a trace of events.
 */
module Wire {
  import opened Wrappers
  import opened Text

  newtype byte = x: int | 0 <= x < 256

  /** Header objects keyed by exact name; Node lowercases the names it receives. */
  type Headers = map<string, string>

  /** `req.method`, `req.url` and `req.headers` of the incoming request. */
  datatype ClientRequest = ClientRequest(verb: string, url: string, headers: Headers)

  /** The options handed to `http.request`. */
  datatype UpstreamRequest = UpstreamRequest(
    hostname: string, port: Option<nat>, verb: string, path: string, headers: Headers)

  /** How one upstream attempt ends: a response, or an `error` event. */
  datatype Reply =
    | Response(status: nat, message: string, headers: Headers)
    | Error(msg: string)

  /** One observable effect of a handler. */
  datatype Event =
    | Issued(request: UpstreamRequest)           // http.request(...) to the upstream proxy
    | Wrote(data: string)                        // socket.write on the CONNECT client socket
    | Ended                                      // socket.end()
    | Spliced                                    // proxySocket.pipe(socket); socket.pipe(proxySocket)
    | HeadWritten(status: nat, headers: Headers) // res.writeHead(status, headers)
    | Piped                                      // proxyRes.pipe(res): upstream body relayed, res ended
    | EndedWith(body: string)                    // res.end(body)
    | Thrown(message: string)                    // an exception nothing catches

  /** Events after which the handler does nothing more for this request. */
  predicate IsFinal(e: Event) {
    e.Ended? || e.Spliced? || e.Piped? || e.EndedWith? || e.Thrown?
  }

  const Established := "HTTP/1.1 200 Connection Established\r\n\r\n"
  const ConnectionErrorLine := "HTTP/1.1 500 Connection Error\r\n\r\n"
  const AuthenticationErrorLine := "HTTP/1.1 500 Authentication Error\r\n\r\n"

  const PlainText: Headers := map["Content-Type" := "text/plain"]

  /** `HTTP/1.1 ${statusCode} ${statusMessage}` followed by the blank line. */
  function StatusLine(status: nat, message: string): string {
    "HTTP/1.1 " + Decimal(status) + " " + message + "\r\n\r\n"
  }

  /** The literal lines are the status lines of their codes and reasons. */
  lemma EstablishedStatusLine()
    ensures StatusLine(200, "Connection Established") == Established
  {
    StatusCodeText();
    StatusLineOf(200, "200", "Connection Established");
    EstablishedText();
  }

  lemma EstablishedText()
    ensures "HTTP/1.1 " + "200" + " " + "Connection Established" + "\r\n\r\n" == Established
  {
    assert "HTTP/1.1 " + "200" + " " == "HTTP/1.1 200 ";
    assert "HTTP/1.1 200 " + "Connection Established" == "HTTP/1.1 200 Connection Established";
    assert "HTTP/1.1 200 Connection Established" + "\r\n\r\n" == "HTTP/1.1 200 Connection Established\r\n\r\n";
  }

  lemma ConnectionErrorStatusLine()
    ensures StatusLine(500, "Connection Error") == ConnectionErrorLine
  {
    StatusCodeText();
    StatusLineOf(500, "500", "Connection Error");
    ConnectionErrorText();
  }

  lemma ConnectionErrorText()
    ensures "HTTP/1.1 " + "500" + " " + "Connection Error" + "\r\n\r\n" == ConnectionErrorLine
  {
    assert "HTTP/1.1 " + "500" + " " == "HTTP/1.1 500 ";
    assert "HTTP/1.1 500 " + "Connection Error" == "HTTP/1.1 500 Connection Error";
    assert "HTTP/1.1 500 Connection Error" + "\r\n\r\n" == "HTTP/1.1 500 Connection Error\r\n\r\n";
  }

  lemma AuthenticationErrorStatusLine()
    ensures StatusLine(500, "Authentication Error") == AuthenticationErrorLine
  {
    StatusCodeText();
    StatusLineOf(500, "500", "Authentication Error");
    AuthenticationErrorText();
  }

  lemma AuthenticationErrorText()
    ensures "HTTP/1.1 " + "500" + " " + "Authentication Error" + "\r\n\r\n" == AuthenticationErrorLine
  {
    assert "HTTP/1.1 " + "500" + " " == "HTTP/1.1 500 ";
    assert "HTTP/1.1 500 " + "Authentication Error" == "HTTP/1.1 500 Authentication Error";
    assert "HTTP/1.1 500 Authentication Error" + "\r\n\r\n" == "HTTP/1.1 500 Authentication Error\r\n\r\n";
  }

  lemma StatusLineOf(status: nat, digits: string, message: string)
    requires Decimal(status) == digits
    ensures StatusLine(status, message) == "HTTP/1.1 " + digits + " " + message + "\r\n\r\n"
  {
  }

  /** `${200}` and `${500}`, the two codes the proxy writes itself. */
  lemma StatusCodeText()
    ensures Decimal(200) == "200" && Decimal(500) == "500"
  {
    assert DigitChar(0) == '0' && DigitChar(2) == '2' && DigitChar(5) == '5';
    assert Decimal(20) == Decimal(2) + "0";
    assert Decimal(50) == Decimal(5) + "0";
  }

  /** A relayed status line carries the upstream's code: it can be read back after "HTTP/1.1 ". */
  lemma StatusLineCarriesCode(status: nat, message: string)
    ensures var line := StatusLine(status, message);
      |line| > 9 && line[..9] == "HTTP/1.1 " && ParseInt(line[9..]) == Some(status)
  {
    var line := StatusLine(status, message);
    var rest := " " + message + "\r\n\r\n";
    assert line == "HTTP/1.1 " + (Decimal(status) + rest);
    assert line[9..] == Decimal(status) + rest;
    ParseIntDecimal(status, rest);
  }
}
