# NTLM proxy: the `NTLMProxy` core in Dafny

This project models the decision logic of `NTLMProxy` (src/index.js). That is a
local forward proxy that answers an upstream proxy's NTLM challenge on behalf
of its clients. The model covers five parts:

- **Configuration.** Each option is resolved from the explicit option bag, then
  from the environment, then from its default. `validateConfig` then rejects the
  result in a fixed order: target, credentials, TLS files (`config.dfy`).
- **JavaScript string operations** the handlers rely on: `${n}`, `parseInt`,
  `split(':')`/`join` and `includes` (`text.dfy`).
- **NTLM header exchange** (`ntlm_auth.dfy`):
  - the negotiate header from `createNTLMHeaders`;
  - the pattern `/NTLM\s+(.+)/`, as a backtracking search proved against a
    declarative leftmost-longest match;
  - the authenticate header from `handleNTLMChallenge`;
  - the object-spread header merge.
- **The per-request handshake** (`handshake.dfy`). It is a state machine
  `NegotiateSent → AuthenticateSent → Resolved | Aborted`, fed the upstream's
  replies in order. A reply is a response (status, reason, headers) or an
  `error` event. Running out of replies means the handler is still waiting:
  nothing in the source puts a deadline on the upstream. A run produces a trace
  of events: each upstream request issued, each write to the client's socket or
  response, the tunnel splice, the piped body and the uncaught exception.
- **The `NTLMProxy` class** (`proxy.dfy`):
  - its constructor, and `new NTLMProxy(...)` as a whole, with `validateConfig`'s
    exception, and the message it carries, as an error result;
  - the four handlers as methods that append to a `Trace` object, each proved to
    produce exactly the trace of the state machine.

The `ntlm` library's message builders and Node's base64 conversions are
parameters (`NtlmCodec`). They are modelled as total functions: nothing is
assumed about their results, but every call is taken to return. The environment is the
one seen after the configuration file has been loaded into `process.env`.

Two behaviours of the handlers are worth stating on their own:

- A challenge that does not match the pattern throws inside the `connect`
  listener or the response callback (src/index.js:83, called from 149 and 227).
  No `error` handler catches it, so the thrown error never reaches the client:
  the model records `Thrown` and the phase `Aborted` (`BareNtlmOfferAborts`).
- A 407 without an NTLM offer is relayed like any other status.

## Model

| member | source | states |
|---|---|---|
| Config.Or | src/index.js:17-27 | JavaScript's logical or on optional strings: the result is truthy iff either side is; a truthy left side is the result, and otherwise the right side is |
| Config.Defaults | src/index.js:16-28 | with no options and an empty environment: port 8080, host and workstation "localhost", domain "", TLS and verbose off, no target or credentials |
| Config.ExplicitOptionsWin | src/index.js:16-28 | every truthy explicit option is taken as is (the port through `parseInt`; `tls` and `verbose` become true), whatever the environment holds |
| Config.ResolveOptions | src/index.js:16-28 | the resolved host and workstation are never empty, and the port is NaN only when a port text was given |
| Config.EnvironmentThenDefault | src/index.js:16-28 | for each option that is absent or empty, whatever the others hold: its environment variable when that is non-empty, else its default; `tls`/`verbose` are then on iff the variable is exactly "true" |
| Config.CommandLineWithEnvironment | bin/ntlm-proxy.js:13-30 | the executable's always-set port, host and config options win, while the target and credentials come from the environment |
| Config.TlsTruthiness | src/index.js:24 | any non-empty `tls` option, even "false", enables TLS; `TLS_ENABLED` enables it only when it is exactly "true" |
| Config.ValidateConfig | src/index.js:45-57 | passes iff target, username and password are non-empty and TLS has both files; each error is reported exactly when every earlier check passed and its own check fails |
| Config.MessageIdentifiesCheck | src/index.js:45-57 | the three texts `validateConfig` throws are pairwise different, so the message names the check that failed |
| Config.TargetCheckedFirst | src/index.js:45-51 | a configuration missing both target and credentials reports the missing target |
| Config.UsageExampleValid | src/index.js:16-57 | the usage example's options validate unless the environment turns TLS on without both files |
| Text.Decimal | src/index.js:130 | the decimal text of a status code is a non-empty run of digits, one digit exactly for codes below 10, starting with '0' only for 0 |
| Text.ParseInt | src/index.js:17 | `parseInt` gives a number exactly when the text starts with a digit |
| Text.ParseIntDigits | src/index.js:103 | `parseInt` of a non-empty digit run followed by a non-digit or nothing is the value of the whole run, leading zeros included |
| Text.ParseIntLeadingZero | src/index.js:103 | `parseInt("08080")` is 8080 |
| Text.ParseIntDecimal | src/index.js:103 | `parseInt` of a number's decimal text, followed by a non-digit or nothing, gives the number back |
| Text.Split | src/index.js:100 | `split(':')` returns at least one piece, no piece contains ':', and joining the pieces with ':' gives the text back |
| Text.SplitJoin | src/index.js:100 | splitting a ':'-join of ':'-free pieces gives the pieces back |
| Text.Contains | src/index.js:118 | `includes` holds iff the text occurs at some index |
| Wire.EstablishedStatusLine | src/index.js:125 | the tunnel's literal success line is the status line of 200 "Connection Established" |
| Wire.ConnectionErrorStatusLine | src/index.js:138 | the first leg's literal error line is the status line of 500 "Connection Error" |
| Wire.AuthenticationErrorStatusLine | src/index.js:179 | the second leg's literal error line is the status line of 500 "Authentication Error" |
| Wire.StatusLineCarriesCode | src/index.js:130 | a relayed status line starts with "HTTP/1.1 " and the upstream's code can be parsed back from it |
| NtlmAuth.Spread | src/index.js:106-109 | object spread: the keys of both maps; the overlay's value wins on a shared key, and every other key keeps the base value |
| NtlmAuth.AuthorizedHeaders | src/index.js:156-159 | the merged headers are the client's plus `Proxy-Authorization`, which holds the given value; every other client header is unchanged |
| NtlmAuth.LowercaseClientCredentialsSurvive | src/index.js:106-109 | keys match exactly: a client `proxy-authorization` header is kept, unchanged, in the headers object handed to `http.request`, beside the proxy's `Proxy-Authorization` |
| NtlmAuth.CreateNTLMHeaders | src/index.js:69-78 | exactly one header, `Proxy-Authorization`, whose value is "NTLM " and the base64 of the Type 1 message of domain and workstation |
| NtlmAuth.NegotiateDependsOnDomainAndWorkstation | src/index.js:70-73 | two configurations with the same domain and workstation produce the same negotiate header |
| NtlmAuth.Capture | src/index.js:81 | `match` returns null iff no "NTLM", one or more `\s` and a non-line-terminator follow one another; otherwise the capture runs from the end of the longest space run of the leftmost match to the end of its line |
| NtlmAuth.CaptureShape | src/index.js:81 | a captured payload is non-empty and contains no line terminator |
| NtlmAuth.BareSchemeHasNoChallenge | src/index.js:81-84 | the bare token "NTLM" does not match the pattern |
| NtlmAuth.SimpleChallengeCapture | src/index.js:81 | "NTLM " followed by a one-line payload that does not start with a space captures exactly that payload |
| NtlmAuth.HandleNTLMChallenge | src/index.js:80-95 | fails, with "Invalid NTLM challenge response", iff the header has no match; otherwise the result starts with "NTLM " and is the Type 3 answer to the leftmost match's capture |
| NtlmAuth.ChallengeAnswerDeterministic | src/index.js:86-94 | the answer depends only on the captured payload, username, password, domain and workstation |
| Handshake.TargetOf | src/index.js:100-103 | the host is the ':'-free text before the first ':' of the target; a target without ':' is all host and has no port |
| Handshake.TargetHostAndPortText | src/index.js:100-103 | with exactly one ':', the port is `parseInt` of the text after it, so "host:" and "host:80x" give no port and 80 respectively |
| Handshake.TargetRoundTrip | src/index.js:100-103 | a "host:port" target gives back that host and that port |
| Handshake.TargetIgnoresAfterSecondColon | src/index.js:100-103 | text after a second ':' is ignored; the port is parsed from the text between the first two |
| Handshake.FirstLeg | src/index.js:100-110 | the negotiate request: the target's host and port, the client's path, CONNECT or the client's verb, and the client's headers plus `Proxy-Authorization` holding the negotiate value, every other client header unchanged |
| Handshake.SecondLeg | src/index.js:148-160 | the authenticate request equals the negotiate request with only `Proxy-Authorization` replaced |
| Handshake.OffersNtlm | src/index.js:115-118 | a 407's `proxy-authenticate` header is present and "NTLM" occurs in it at some index |
| Handshake.Deliver | src/index.js:124-139 | the client's answer, here and at lines 165-180, 210-217 and 241-248, is one write followed by the end of the exchange; the tunnel is spliced iff it is a CONNECT whose reply is a 200 |
| Handshake.Challenged | src/index.js:145-160 | answering a challenge aborts iff the header has no match, with the thrown error; otherwise it issues exactly one request and moves to the authenticate leg |
| Handshake.Step | src/index.js:114-181 | a reply never returns the handshake to the negotiate leg, and a reply on the authenticate leg always resolves it |
| Handshake.Drive | src/index.js:114-249 | never reads more replies than it is given |
| Handshake.DriveStopsOnlyWhenSettled | src/index.js:114-249 | the handler stops reading replies before they run out only once the request has settled |
| Handshake.Run | src/index.js:97-252 | a handler's trace starts with the negotiate request, and it reads no more replies than arrive |
| Handshake.FirstLegRequest | src/index.js:100-110 | the first request goes to the target's host and port with the client's path, with the client's verb (CONNECT for a tunnel) and the client's headers plus the negotiate value under `Proxy-Authorization` |
| Handshake.SecondLegRequest | src/index.js:148-160 | after a parsable challenge, the second request is the first one with only `Proxy-Authorization` replaced by the challenge's answer, which starts with "NTLM " |
| Handshake.TraceShape | src/index.js:114-181 | every run is one or two upstream requests, then the client's answer, the thrown error, or nothing while waiting; at most two replies are read, two always settle the request, and a second request is issued iff the first reply was a 407 offering NTLM with a parsable challenge |
| Handshake.OneFinalAction | src/index.js:114-181 | no event but the last is final; a request is settled iff its last event is final, and aborted iff that event is the thrown error |
| Handshake.LateRepliesIgnored | src/index.js:164-181 | once a request has settled, further replies change nothing: there is no third request |
| Handshake.TunnelFirstLeg | src/index.js:114-140 | CONNECT without an NTLM challenge: a 200 writes the established line and splices, another status is relayed as a status line and closes, and an error writes the 500 Connection Error line and closes |
| Handshake.TunnelSecondLeg | src/index.js:164-181 | the authenticate CONNECT: a 200 writes the established line and splices, another status is relayed and closes, and an error writes the 500 Authentication Error line and closes |
| Handshake.ForwardFirstLeg | src/index.js:201-218 | a plain request without an NTLM challenge relays the reply's status and headers and pipes the body; an error gives a plain-text 500 with "Proxy Error: " and the message |
| Handshake.ForwardSecondLeg | src/index.js:240-249 | the authenticate leg relays whatever status comes back; an error gives a plain-text 500 with "Authentication Error: " and the message |
| Handshake.BareNtlmOfferAborts | src/index.js:115-119 | a 407 offering the bare token "NTLM" passes the `includes` test, then the parse throws: one request, the thrown error, and nothing written to the client |
| Handshake.TunnelOpensAfterTwoLegs | src/index.js:145-169 | a challenged CONNECT whose authenticate leg gets a 200: the two requests, the established line and the splice, nothing else |
| Handshake.CorporateProxyScenario | src/index.js:97-184 | an upstream at "host:port" answering 407 with a challenge and then 200: exactly two requests, both to that host and port, then the established line and the splice |
| Proxy.Trace.constructor | src/index.js:97-98 | a handler invocation starts with nothing done |
| Proxy.Trace.Record | src/index.js:112-142 | each request issued and each write to the client's socket or response is appended, in order, to what was done before |
| Proxy.NTLMProxy.constructor | src/index.js:12-32 | called only once the resolved options are acceptable, it keeps exactly those options, so every proxy it builds is valid |
| Proxy.NTLMProxy.Create | src/index.js:12-32 | a proxy is built iff its resolved options pass validation; otherwise the error is the message text of the first failing check |
| Proxy.NTLMProxy.HandleConnect | src/index.js:97-143 | appends exactly the tunnel handshake's trace for the given replies |
| Proxy.NTLMProxy.HandleNTLMAuthentication | src/index.js:145-184 | appends the thrown error for an unparsable challenge; otherwise appends the authenticate request and the delivery of its reply |
| Proxy.NTLMProxy.HandleHttpRequest | src/index.js:186-221 | appends exactly the forwarding handshake's trace for the given replies |
| Proxy.NTLMProxy.HandleHttpNTLMAuthentication | src/index.js:223-252 | appends the thrown error for an unparsable challenge; otherwise appends the authenticate request and the delivery of its reply |
| Proxy.AnswerTunnel | src/index.js:124-139 | the client's side of a CONNECT leg that is not retried, per reply: the established line and the splice, the relayed status line and the close, or the leg's 500 line and the close |
| Proxy.AnswerForward | src/index.js:210-218 | the client's side of a forwarded leg that is not retried: the relayed head and the piped body, or a plain-text 500 carrying the leg's error prefix |

## Left out

- Sockets and streams: `http.request`, `proxyReq.end()`, `req.pipe(proxyReq)`, `proxyRes.pipe(res)` and the two-way tunnel `pipe`. Each appears only as one trace event (`Issued`, `Piped`, `Spliced`), and bytes are not modelled.
- Replaying the request body on the second plain-HTTP leg (src/index.js:251). This is stream consumption, not a decision.
- `loadConfig`, dotenv and the `config` option (src/index.js:14, 34-43). They are file-system and environment effects; the environment passed to the model is the one after loading.
- `log`, its timestamps and colours, and the start-up banner. They are console output only.
- `start()`, the listener, `this.server`, reading the TLS files and the SIGINT shutdown (src/index.js:254-294). They are server and process I/O.
- The NTLM Type 1/Type 3 message construction and Node's lenient base64. They are foreign code, and appear as the uninterpreted total functions of `NtlmCodec`.
- NtlmAuth.HandleNTLMChallenge: a `createType3Message` (src/index.js:87) that throws on a payload it cannot use is not modelled, nor is a throwing `createType1Message` (src/index.js:70). Such a throw would escape uncaught like the one at src/index.js:83, with no second request. In the model the codec always returns, so a challenge is "parsable" exactly when `/NTLM\s+(.+)/` matches: `HandleNTLMChallenge`, `Challenged` and `TraceShape` state their if-and-only-if facts under that reading.
- Text.ParseInt: models only a leading run of decimal digits. Leading whitespace, signs and "0x" prefixes are not modelled. NaN is `None`. The value is an exact integer; JavaScript rounds digit runs beyond 2^53 to the nearest double. Ports and status codes never reach that range.
- The order of keys in header objects, and option values that are not strings, such as a numeric `port` passed programmatically.
- The `req` argument of `createNTLMHeaders` and the `head` buffer of CONNECT. The source never reads them.
- Proxy.NTLMProxy.HandleNTLMAuthentication: does not model the fact that an uncaught exception in Node also terminates the whole process. The model ends only the request, with `Thrown`.
- Proxy.NTLMProxy.HandleHttpNTLMAuthentication: the same uncaught throw (src/index.js:227, reached from the response callback at 205) also terminates the process in Node. The model ends only the request, with `Thrown`.
- Node's case-insensitive handling of outgoing header names in `http.request`. The model keeps the headers object as built, so a client `proxy-authorization` and the proxy's `Proxy-Authorization` are two keys; on the wire only the later one, the proxy's, would be sent.
- Boolean command-line flags: `--tls` and `--verbose` of bin/ntlm-proxy.js arrive as `true`, not as strings. Like any non-empty string, they turn the option on.
- Concurrency between requests and timing. Each handler invocation is modelled on its own, with the upstream's replies in arrival order.
