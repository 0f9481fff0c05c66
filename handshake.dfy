/**
 * The per-request handshake of src/index.js as a state machine.
 *
 * A handler issues the negotiate leg, then reads the upstream's replies in
 * order, one per request it has issued. A 407 carrying an NTLM challenge on the
 * negotiate leg moves it to the authenticate leg; any other reply, and any
 * reply on the authenticate leg, is delivered to the client and settles the
 * request. When the replies run out before that, the handler is still
 * waiting: nothing in the source puts a deadline on the upstream.
 */
module Handshake {
  import opened Wrappers
  import opened Text
  import opened Config
  import opened Wire
  import opened NtlmAuth

  /** `handleConnect` (a CONNECT, tunnelled) or `handleHttpRequest` (any other request, forwarded). */
  datatype Kind = Tunnel | Forward

  /** What one handler invocation reads: which handler, `this.options`, the codec and the client request. */
  datatype Exchange = Exchange(kind: Kind, options: ValidOptions, codec: NtlmCodec, req: ClientRequest)

  datatype Phase = NegotiateSent | AuthenticateSent | Resolved | Aborted

  /** The handler has done all it will do for this request. */
  predicate Settled(p: Phase) {
    p.Resolved? || p.Aborted?
  }

  datatype Leg = Negotiate | Authenticate

  datatype Transition = Transition(next: Phase, emitted: seq<Event>)

  /** Where the handler stands, what it has done, and how many replies it has read. */
  datatype HandshakeState = HandshakeState(phase: Phase, events: seq<Event>, consumed: nat)

  // ---------------------------------------------------------------------
  // The upstream target

  /** `const [targetHost, targetPort] = target.split(':')`, the port through `parseInt`. */
  function TargetOf(target: string): (r: (string, Option<nat>))
    ensures ':' !in r.0 && r.0 <= target
    ensures r.0 == target || target[|r.0|] == ':'
    ensures ':' !in target ==> r == (target, None)
  {
    var parts := Split(target, ':');
    assert parts[0] <= Join(parts, ':');
    assert ':' !in target ==> parts == [target] by {
      if ':' !in target {
        SplitFree(target, ':');
      }
    }
    (parts[0], if |parts| >= 2 then ParseInt(parts[1]) else None)
  }

  /** A "host:port" target splits back into its host and numeric port. */
  lemma TargetRoundTrip(host: string, port: nat)
    requires ':' !in host
    ensures TargetOf(host + ":" + Decimal(port)) == (host, Some(port))
  {
    var d := Decimal(port);
    assert ':' !in d;
    SplitFree(d, ':');
    SplitAfterPiece(host, d, ':');
    assert host + ":" + d == host + [':'] + d;
    ParseIntDecimal(port, []);
    assert d + [] == d;
  }

  /** Text after a second ':' is ignored; the port comes from the text between the first two. */
  lemma TargetIgnoresAfterSecondColon(host: string, portText: string, rest: string)
    requires ':' !in host && ':' !in portText
    ensures TargetOf(host + ":" + portText + ":" + rest) == (host, ParseInt(portText))
  {
    SplitAfterPiece(portText, rest, ':');
    assert host + ":" + portText + ":" + rest == host + [':'] + (portText + [':'] + rest);
    SplitAfterPiece(host, portText + [':'] + rest, ':');
  }

  /** A target with exactly one ':' splits there; the port is `parseInt` of the rest, even when empty or not numeric. */
  lemma TargetHostAndPortText(host: string, portText: string)
    requires ':' !in host && ':' !in portText
    ensures TargetOf(host + ":" + portText) == (host, ParseInt(portText))
  {
    SplitFree(portText, ':');
    assert host + ":" + portText == host + [':'] + portText;
    SplitAfterPiece(host, portText, ':');
  }

  // ---------------------------------------------------------------------
  // The two legs

  /** The options of one `http.request` to the upstream proxy. */
  function LegRequest(x: Exchange, headers: Headers): UpstreamRequest {
    var (host, port) := TargetOf(x.options.target.value);
    UpstreamRequest(host, port, if x.kind == Tunnel then "CONNECT" else x.req.verb, x.req.url, headers)
  }

  /** `{ ...req.headers, ...this.createNTLMHeaders(req) }` */
  function FirstLeg(x: Exchange): (r: UpstreamRequest)
    ensures r.headers.Keys == x.req.headers.Keys + {ProxyAuthorization}
    ensures r.headers[ProxyAuthorization] == NegotiateValue(x.options, x.codec)
    ensures forall k :: k in x.req.headers && k != ProxyAuthorization ==> r.headers[k] == x.req.headers[k]
    ensures (r.hostname, r.port) == TargetOf(x.options.target.value) && r.path == x.req.url
    ensures r.verb == (if x.kind == Tunnel then "CONNECT" else x.req.verb)
  {
    LegRequest(x, Spread(x.req.headers, CreateNTLMHeaders(x.options, x.codec)))
  }

  /** `{ ...req.headers, 'Proxy-Authorization': authHeader }` */
  function SecondLeg(x: Exchange, authorization: string): (r: UpstreamRequest)
    ensures r == FirstLeg(x).(headers := FirstLeg(x).headers[ProxyAuthorization := authorization])
  {
    var f := Spread(x.req.headers, CreateNTLMHeaders(x.options, x.codec));
    assert f[ProxyAuthorization := authorization] == Spread(x.req.headers, map[ProxyAuthorization := authorization]);
    LegRequest(x, Spread(x.req.headers, map[ProxyAuthorization := authorization]))
  }

  /** `proxyRes.headers['proxy-authenticate']` is truthy and includes "NTLM". */
  predicate OffersNtlm(h: Headers): (b: bool)
    ensures b <==> ProxyAuthenticate in h && exists i: nat :: OccursAt(h[ProxyAuthenticate], "NTLM", i)
  {
    ProxyAuthenticate in h && h[ProxyAuthenticate] != "" && Contains(h[ProxyAuthenticate], "NTLM")
  }

  predicate IsNtlmChallenge(reply: Reply) {
    reply.Response? && reply.status == 407 && OffersNtlm(reply.headers)
  }

  /** What the client gets when `reply` ends the request on `leg`. */
  function Deliver(kind: Kind, leg: Leg, reply: Reply): (r: seq<Event>)
    ensures ClientAnswer(kind, r)
    ensures r[1] == Spliced <==> kind == Tunnel && reply.Response? && reply.status == 200
  {
    match kind
    case Tunnel =>
      (match reply
       case Error(_) => [Wrote(if leg == Negotiate then ConnectionErrorLine else AuthenticationErrorLine), Ended]
       case Response(status, message, _) =>
         if status == 200 then [Wrote(Established), Spliced]
         else [Wrote(StatusLine(status, message)), Ended])
    case Forward =>
      (match reply
       case Error(msg) =>
         [HeadWritten(500, PlainText),
          EndedWith((if leg == Negotiate then "Proxy Error: " else "Authentication Error: ") + msg)]
       case Response(status, _, headers) => [HeadWritten(status, headers), Piped])
  }

  /** `handleNTLMAuthentication` / `handleHttpNTLMAuthentication` up to issuing the second leg. */
  function Challenged(x: Exchange, header: string): (r: Transition)
    ensures r.next == Aborted <==> !HasChallenge(header)
    ensures r.next == Aborted || r.next == AuthenticateSent
    ensures |r.emitted| == 1
    ensures r.next == Aborted ==> r.emitted[0] == Thrown(InvalidChallenge)
    ensures r.next == AuthenticateSent ==> r.emitted[0].Issued?
  {
    match HandleNTLMChallenge(x.options, x.codec, header)
    case Failure(message) => Transition(Aborted, [Thrown(message)])
    case Success(authorization) => Transition(AuthenticateSent, [Issued(SecondLeg(x, authorization))])
  }

  /** One upstream reply read in an unsettled phase. */
  function Step(x: Exchange, phase: Phase, reply: Reply): (r: Transition)
    requires !Settled(phase)
    ensures r.next != NegotiateSent
    ensures phase == AuthenticateSent ==> r.next == Resolved
  {
    if phase == NegotiateSent && IsNtlmChallenge(reply) then Challenged(x, reply.headers[ProxyAuthenticate])
    else Transition(Resolved, Deliver(x.kind, if phase == NegotiateSent then Negotiate else Authenticate, reply))
  }

  /** Feeds replies from `phase` until the request settles or the replies run out. */
  function Drive(x: Exchange, phase: Phase, replies: seq<Reply>): (r: HandshakeState)
    ensures r.consumed <= |replies|
    decreases |replies|
  {
    if Settled(phase) || replies == [] then HandshakeState(phase, [], 0)
    else
      var t := Step(x, phase, replies[0]);
      var rest := Drive(x, t.next, replies[1..]);
      HandshakeState(rest.phase, t.emitted + rest.events, rest.consumed + 1)
  }

  /** One handler invocation: the negotiate leg is issued, then the upstream's replies are read. */
  function Run(x: Exchange, replies: seq<Reply>): (r: HandshakeState)
    ensures |r.events| >= 1 && r.events[0] == Issued(FirstLeg(x))
    ensures r.consumed <= |replies|
  {
    var h := Drive(x, NegotiateSent, replies);
    HandshakeState(h.phase, [Issued(FirstLeg(x))] + h.events, h.consumed)
  }

  // ---------------------------------------------------------------------
  // Properties of every run

  /** The number of upstream requests in a trace. */
  function Legs(events: seq<Event>): nat {
    if events == [] then 0 else (if events[0].Issued? then 1 else 0) + Legs(events[1..])
  }

  /** The client's part of a settled request: one write, then the end of the exchange. */
  predicate ClientAnswer(kind: Kind, tail: seq<Event>) {
    && |tail| == 2
    && match kind
       case Tunnel => tail[0].Wrote? && (tail[1].Ended? || tail[1].Spliced?)
       case Forward => tail[0].HeadWritten? && (tail[1].Piped? || tail[1].EndedWith?)
  }

  /** The shape of what a handler leaves behind in each phase, after the upstream requests. */
  predicate Completed(kind: Kind, phase: Phase, tail: seq<Event>) {
    match phase
    case NegotiateSent => tail == []
    case AuthenticateSent => tail == []
    case Resolved => ClientAnswer(kind, tail)
    case Aborted => tail == [Thrown(InvalidChallenge)]
  }

  /** The negotiate leg goes on to an authenticate leg. */
  ghost predicate Authenticates(replies: seq<Reply>) {
    && |replies| >= 1
    && IsNtlmChallenge(replies[0])
    && HasChallenge(replies[0].headers[ProxyAuthenticate])
  }

  lemma {:induction false} LegsAppend(a: seq<Event>, b: seq<Event>)
    ensures Legs(a + b) == Legs(a) + Legs(b)
  {
    if a == [] {
      assert a + b == b;
    } else {
      assert (a + b)[0] == a[0];
      assert (a + b)[1..] == a[1..] + b;
      LegsAppend(a[1..], b);
    }
  }

  lemma {:induction false} NoLegs(events: seq<Event>)
    requires forall j :: 0 <= j < |events| ==> !events[j].Issued?
    ensures Legs(events) == 0
  {
    if events != [] {
      NoLegs(events[1..]);
    }
  }

  lemma {:induction false} AllLegs(events: seq<Event>)
    requires forall j :: 0 <= j < |events| ==> events[j].Issued?
    ensures Legs(events) == |events|
  {
    if events != [] {
      AllLegs(events[1..]);
    }
  }

  /** A trace made of upstream requests followed by a completed client part. */
  lemma FromParts(kind: Kind, phase: Phase, issued: seq<Event>, tail: seq<Event>)
    requires forall j :: 0 <= j < |issued| ==> issued[j].Issued?
    requires Completed(kind, phase, tail)
    ensures var e := issued + tail;
      && Legs(e) == |issued|
      && e[|issued|..] == tail
      && (forall j :: 0 <= j < |issued| ==> e[j].Issued?)
  {
    AllLegs(issued);
    NoLegs(tail);
    LegsAppend(issued, tail);
    assert (issued + tail)[|issued|..] == tail;
  }

  /** A run that settles on its first reply, or has read its only reply. */
  lemma RunOneReply(x: Exchange, replies: seq<Reply>)
    requires replies != []
    requires Settled(Step(x, NegotiateSent, replies[0]).next) || |replies| == 1
    ensures var t := Step(x, NegotiateSent, replies[0]);
      Run(x, replies) == HandshakeState(t.next, [Issued(FirstLeg(x))] + t.emitted, 1)
  {
    var t := Step(x, NegotiateSent, replies[0]);
    assert Drive(x, t.next, replies[1..]) == HandshakeState(t.next, [], 0);
    assert t.emitted + [] == t.emitted;
  }

  /** A run that goes on to the authenticate leg and reads its reply. */
  lemma RunTwoReplies(x: Exchange, replies: seq<Reply>)
    requires |replies| >= 2 && !Settled(Step(x, NegotiateSent, replies[0]).next)
    ensures var t := Step(x, NegotiateSent, replies[0]);
      var u := Step(x, t.next, replies[1]);
      && u.next == Resolved
      && Run(x, replies) == HandshakeState(Resolved, [Issued(FirstLeg(x))] + (t.emitted + u.emitted), 2)
  {
    var t := Step(x, NegotiateSent, replies[0]);
    var u := Step(x, t.next, replies[1]);
    assert replies[1..][0] == replies[1];
    assert Drive(x, u.next, replies[1..][1..]) == HandshakeState(Resolved, [], 0);
    assert u.emitted + [] == u.emitted;
    assert Drive(x, t.next, replies[1..]) == HandshakeState(Resolved, u.emitted, 1);
  }

  /** A negotiate leg that was challenged with a parsable challenge goes on to the authenticate leg. */
  lemma ChallengeAnswered(x: Exchange, replies: seq<Reply>)
    requires Authenticates(replies)
    ensures var answer := HandleNTLMChallenge(x.options, x.codec, replies[0].headers[ProxyAuthenticate]);
      && answer.Success?
      && Step(x, NegotiateSent, replies[0]) == Transition(AuthenticateSent, [Issued(SecondLeg(x, answer.value))])
  {
  }

  /** An authenticated run that has read both replies: two requests, then the second reply delivered. */
  lemma RunAuthenticated(x: Exchange, replies: seq<Reply>)
    requires |replies| >= 2 && Authenticates(replies)
    ensures var answer := HandleNTLMChallenge(x.options, x.codec, replies[0].headers[ProxyAuthenticate]).value;
      var h := Run(x, replies);
      && h.phase == Resolved && h.consumed == 2
      && h.events == [Issued(FirstLeg(x)), Issued(SecondLeg(x, answer))] + Deliver(x.kind, Authenticate, replies[1])
  {
    ChallengeAnswered(x, replies);
    RunTwoReplies(x, replies);
    var second := Issued(SecondLeg(x, HandleNTLMChallenge(x.options, x.codec, replies[0].headers[ProxyAuthenticate]).value));
    var answer := Deliver(x.kind, Authenticate, replies[1]);
    assert Step(x, AuthenticateSent, replies[1]).emitted == answer;
    assert [Issued(FirstLeg(x))] + ([second] + answer) == [Issued(FirstLeg(x)), second] + answer;
  }

  /** Before any reply, a run has issued the negotiate leg and nothing else. */
  lemma RunNoReply(x: Exchange)
    ensures Run(x, []).events == [Issued(FirstLeg(x))]
  {
  }

  /** A challenged negotiate leg hands the rest of the replies to the authenticate step. */
  lemma RunChallenged(x: Exchange, replies: seq<Reply>)
    requires replies != [] && IsNtlmChallenge(replies[0])
    ensures var t := Challenged(x, replies[0].headers[ProxyAuthenticate]);
      Run(x, replies).events == [Issued(FirstLeg(x))] + (t.emitted + Drive(x, t.next, replies[1..]).events)
  {
    var t := Challenged(x, replies[0].headers[ProxyAuthenticate]);
    assert Step(x, NegotiateSent, replies[0]) == t;
    assert Drive(x, NegotiateSent, replies).events == t.emitted + Drive(x, t.next, replies[1..]).events;
  }

  /** Any other first reply is delivered to the client at once. */
  lemma RunDelivered(x: Exchange, replies: seq<Reply>)
    requires replies != [] && !IsNtlmChallenge(replies[0])
    ensures Run(x, replies).events == [Issued(FirstLeg(x))] + Deliver(x.kind, Negotiate, replies[0])
  {
    RunOneReply(x, replies);
  }

  /** After a challenge is answered, the reply to the authenticate leg, if any, is delivered. */
  lemma AuthenticateStep(x: Exchange, replies: seq<Reply>)
    ensures replies == [] ==> Drive(x, AuthenticateSent, replies).events == []
    ensures replies != [] ==> Drive(x, AuthenticateSent, replies).events == Deliver(x.kind, Authenticate, replies[0])
  {
    if replies != [] {
      assert Drive(x, Resolved, replies[1..]).events == [];
    }
  }

  /** Regrouping a four-part trace; the handlers use it to join their own events to `Drive`'s. */
  lemma ConcatAssoc<T>(a: seq<T>, b: seq<T>, c: seq<T>, d: seq<T>)
    ensures a + b + c + d == a + (b + (c + d))
  {
  }

  /** The negotiate leg's reply: on to the second leg, aborted, or resolved. */
  lemma FirstStep(x: Exchange, reply: Reply)
    ensures var t := Step(x, NegotiateSent, reply);
      && (IsNtlmChallenge(reply) && HasChallenge(reply.headers[ProxyAuthenticate]) ==>
            t.next == AuthenticateSent && |t.emitted| == 1 && t.emitted[0].Issued?)
      && (IsNtlmChallenge(reply) && !HasChallenge(reply.headers[ProxyAuthenticate]) ==>
            t.next == Aborted && t.emitted == [Thrown(InvalidChallenge)])
      && (!IsNtlmChallenge(reply) ==> t.next == Resolved && ClientAnswer(x.kind, t.emitted))
  {
  }

  /** The authenticate leg's reply always resolves the request. */
  lemma SecondStep(x: Exchange, reply: Reply)
    ensures Step(x, AuthenticateSent, reply).next == Resolved
    ensures ClientAnswer(x.kind, Step(x, AuthenticateSent, reply).emitted)
  {
  }

  /**
   * `issued` and `tail` split a run's trace: one or two upstream requests,
   * then the client's answer, the uncaught challenge error, or nothing while
   * still waiting. The second request exists exactly when the negotiate leg
   * was challenged with a parsable challenge.
   */
  ghost predicate SplitsRun(x: Exchange, replies: seq<Reply>, issued: seq<Event>, tail: seq<Event>) {
    var h := Run(x, replies);
    && h.events == issued + tail
    && (|issued| == 1 || |issued| == 2)
    && issued[0].Issued? && issued[|issued| - 1].Issued?
    && Completed(x.kind, h.phase, tail)
    && (|issued| == 2 <==> Authenticates(replies))
    && h.consumed <= 2 && h.consumed <= |replies|
    && (|replies| >= 2 ==> Settled(h.phase))
  }

  /** One or two events, the first and the last upstream requests, are all upstream requests. */
  lemma OnlyRequests(issued: seq<Event>)
    requires (|issued| == 1 || |issued| == 2) && issued[0].Issued? && issued[|issued| - 1].Issued?
    ensures forall j :: 0 <= j < |issued| ==> issued[j].Issued?
  {
  }

  lemma RunParts(x: Exchange, replies: seq<Reply>) returns (issued: seq<Event>, tail: seq<Event>)
    ensures SplitsRun(x, replies, issued, tail)
  {
    if replies == [] {
      issued, tail := WaitingParts(x);
    } else if !Authenticates(replies) {
      issued, tail := DeliveredParts(x, replies);
    } else if |replies| == 1 {
      issued, tail := AwaitingSecondReplyParts(x, replies);
    } else {
      issued, tail := AuthenticatedParts(x, replies);
    }
  }

  lemma WaitingParts(x: Exchange) returns (issued: seq<Event>, tail: seq<Event>)
    ensures SplitsRun(x, [], issued, tail)
  {
    RunNoReply(x);
    assert [Issued(FirstLeg(x))] + [] == [Issued(FirstLeg(x))];
    issued, tail := [Issued(FirstLeg(x))], [];
  }

  lemma DeliveredParts(x: Exchange, replies: seq<Reply>) returns (issued: seq<Event>, tail: seq<Event>)
    requires replies != [] && !Authenticates(replies)
    ensures SplitsRun(x, replies, issued, tail)
  {
    FirstStep(x, replies[0]);
    RunOneReply(x, replies);
    issued, tail := [Issued(FirstLeg(x))], Step(x, NegotiateSent, replies[0]).emitted;
  }

  lemma AwaitingSecondReplyParts(x: Exchange, replies: seq<Reply>) returns (issued: seq<Event>, tail: seq<Event>)
    requires |replies| == 1 && Authenticates(replies)
    ensures SplitsRun(x, replies, issued, tail)
  {
    FirstStep(x, replies[0]);
    RunOneReply(x, replies);
    issued, tail := [Issued(FirstLeg(x))] + Step(x, NegotiateSent, replies[0]).emitted, [];
    assert issued + [] == issued;
  }

  lemma AuthenticatedParts(x: Exchange, replies: seq<Reply>) returns (issued: seq<Event>, tail: seq<Event>)
    requires |replies| >= 2 && Authenticates(replies)
    ensures SplitsRun(x, replies, issued, tail)
  {
    FirstStep(x, replies[0]);
    RunTwoReplies(x, replies);
    var t := Step(x, NegotiateSent, replies[0]);
    var u := Step(x, t.next, replies[1]);
    SecondStep(x, replies[1]);
    assert [Issued(FirstLeg(x))] + (t.emitted + u.emitted) == [Issued(FirstLeg(x))] + t.emitted + u.emitted;
    issued, tail := [Issued(FirstLeg(x))] + t.emitted, u.emitted;
  }

  /**
   * Every run: one or two upstream requests come first, and after them the
   * client's answer, the uncaught challenge error, or nothing while waiting.
   * At most two replies are read; two always settle the request.
   */
  lemma TraceShape(x: Exchange, replies: seq<Reply>)
    ensures var h := Run(x, replies);
      var n := Legs(h.events);
      && (n == 1 || n == 2) && n <= |h.events|
      && (forall j :: 0 <= j < n ==> h.events[j].Issued?)
      && Completed(x.kind, h.phase, h.events[n..])
      && h.consumed <= 2 && h.consumed <= |replies|
      && (|replies| >= 2 ==> Settled(h.phase))
      && (n == 2 <==> Authenticates(replies))
  {
    var issued, tail := RunParts(x, replies);
    OnlyRequests(issued);
    FromParts(x.kind, Run(x, replies).phase, issued, tail);
  }

  /**
   * Each settled request ends in exactly one final action, its last event;
   * an unsettled one has none. The client receives an answer exactly when the
   * request resolved; an aborted one ends in the uncaught error instead.
   */
  lemma OneFinalAction(x: Exchange, replies: seq<Reply>)
    ensures var e := Run(x, replies).events;
      && (forall j :: 0 <= j < |e| - 1 ==> !IsFinal(e[j]))
      && (Settled(Run(x, replies).phase) <==> IsFinal(e[|e| - 1]))
      && (Run(x, replies).phase == Aborted <==> e[|e| - 1].Thrown?)
  {
    var issued, tail := RunParts(x, replies);
    OnlyRequests(issued);
    FinalFromParts(x.kind, Run(x, replies).phase, issued, tail);
  }

  lemma FinalFromParts(kind: Kind, phase: Phase, issued: seq<Event>, tail: seq<Event>)
    requires |issued| >= 1 && forall j :: 0 <= j < |issued| ==> issued[j].Issued?
    requires Completed(kind, phase, tail)
    ensures var e := issued + tail;
      && (forall j :: 0 <= j < |e| - 1 ==> !IsFinal(e[j]))
      && (Settled(phase) <==> IsFinal(e[|e| - 1]))
      && (phase == Aborted <==> e[|e| - 1].Thrown?)
  {
    var e := issued + tail;
    assert forall j :: 0 <= j < |issued| ==> e[j] == issued[j];
    assert forall j :: |issued| <= j < |e| ==> e[j] == tail[j - |issued|];
  }

  /** Driving stops before the replies run out only once the request has settled. */
  lemma {:induction false} DriveStopsOnlyWhenSettled(x: Exchange, phase: Phase, replies: seq<Reply>)
    ensures var h := Drive(x, phase, replies);
      Settled(h.phase) || h.consumed == |replies|
    decreases |replies|
  {
    if !Settled(phase) && replies != [] {
      DriveStopsOnlyWhenSettled(x, Step(x, phase, replies[0]).next, replies[1..]);
    }
  }

  /** Replies after the request has settled are never read: there is no third leg. */
  lemma {:induction false} DriveIgnoresLateReplies(x: Exchange, phase: Phase, replies: seq<Reply>, extra: seq<Reply>)
    requires Settled(Drive(x, phase, replies).phase)
    ensures Drive(x, phase, replies + extra) == Drive(x, phase, replies)
    decreases |replies|
  {
    if !Settled(phase) {
      assert replies != [];
      var all := replies + extra;
      assert all[0] == replies[0] && all[1..] == replies[1..] + extra;
      var t := Step(x, phase, replies[0]);
      DriveIgnoresLateReplies(x, t.next, replies[1..], extra);
      assert Drive(x, phase, all).events == t.emitted + Drive(x, t.next, all[1..]).events;
    }
  }

  lemma LateRepliesIgnored(x: Exchange, replies: seq<Reply>, extra: seq<Reply>)
    requires Settled(Run(x, replies).phase)
    ensures Run(x, replies + extra) == Run(x, replies)
  {
    DriveIgnoresLateReplies(x, NegotiateSent, replies, extra);
  }

  /** The first request carries the client's headers with the negotiate value under `Proxy-Authorization`. */
  lemma FirstLegRequest(x: Exchange, replies: seq<Reply>)
    ensures Run(x, replies).events[0] == Issued(FirstLeg(x))
    ensures var r := FirstLeg(x);
      && r.headers == Spread(x.req.headers, map[ProxyAuthorization := NegotiateValue(x.options, x.codec)])
      && r.path == x.req.url
      && r.verb == (if x.kind == Tunnel then "CONNECT" else x.req.verb)
      && (r.hostname, r.port) == TargetOf(x.options.target.value)
  {
  }

  /**
   * The second request differs from the first only in `Proxy-Authorization`,
   * which holds the answer to the challenge.
   */
  lemma SecondLegRequest(x: Exchange, replies: seq<Reply>)
    requires Authenticates(replies)
    ensures var answer := HandleNTLMChallenge(x.options, x.codec, replies[0].headers[ProxyAuthenticate]);
      && answer.Success?
      && |Run(x, replies).events| >= 2
      && Run(x, replies).events[1] == Issued(SecondLeg(x, answer.value))
      && SecondLeg(x, answer.value) == FirstLeg(x).(headers := FirstLeg(x).headers[ProxyAuthorization := answer.value])
      && "NTLM " <= SecondLeg(x, answer.value).headers[ProxyAuthorization]
  {
    ChallengeAnswered(x, replies);
    if |replies| == 1 { RunOneReply(x, replies); } else { RunTwoReplies(x, replies); }
    var answer := HandleNTLMChallenge(x.options, x.codec, replies[0].headers[ProxyAuthenticate]);
  }

  // ---------------------------------------------------------------------
  // The handlers' observable behaviour, case by case

  /** `handleConnect` when the first reply is not an NTLM challenge. */
  lemma TunnelFirstLeg(x: Exchange, replies: seq<Reply>)
    requires x.kind == Tunnel && |replies| >= 1 && !IsNtlmChallenge(replies[0])
    ensures var h := Run(x, replies); var first := Issued(FirstLeg(x)); var r := replies[0];
      && h.phase == Resolved && h.consumed == 1
      && (r.Error? ==> h.events == [first, Wrote("HTTP/1.1 500 Connection Error\r\n\r\n"), Ended])
      && (r.Response? && r.status == 200 ==>
            h.events == [first, Wrote("HTTP/1.1 200 Connection Established\r\n\r\n"), Spliced])
      && (r.Response? && r.status != 200 ==> h.events == [first, Wrote(StatusLine(r.status, r.message)), Ended])
  {
    RunOneReply(x, replies);
  }

  /** `handleNTLMAuthentication`: whatever the second reply, no third request follows. */
  lemma TunnelSecondLeg(x: Exchange, replies: seq<Reply>)
    requires x.kind == Tunnel && |replies| >= 2 && Authenticates(replies)
    ensures var h := Run(x, replies);
      var answer := HandleNTLMChallenge(x.options, x.codec, replies[0].headers[ProxyAuthenticate]).value;
      var legs := [Issued(FirstLeg(x)), Issued(SecondLeg(x, answer))];
      var r := replies[1];
      && h.phase == Resolved && h.consumed == 2
      && (r.Error? ==> h.events == legs + [Wrote("HTTP/1.1 500 Authentication Error\r\n\r\n"), Ended])
      && (r.Response? && r.status == 200 ==>
            h.events == legs + [Wrote("HTTP/1.1 200 Connection Established\r\n\r\n"), Spliced])
      && (r.Response? && r.status != 200 ==> h.events == legs + [Wrote(StatusLine(r.status, r.message)), Ended])
  {
    RunAuthenticated(x, replies);
  }

  /** `handleHttpRequest` when the first reply is not an NTLM challenge: relayed as it is. */
  lemma ForwardFirstLeg(x: Exchange, replies: seq<Reply>)
    requires x.kind == Forward && |replies| >= 1 && !IsNtlmChallenge(replies[0])
    ensures var h := Run(x, replies); var first := Issued(FirstLeg(x)); var r := replies[0];
      && h.phase == Resolved && h.consumed == 1
      && (r.Error? ==> h.events == [first, HeadWritten(500, map["Content-Type" := "text/plain"]),
                                    EndedWith("Proxy Error: " + r.msg)])
      && (r.Response? ==> h.events == [first, HeadWritten(r.status, r.headers), Piped])
  {
    RunOneReply(x, replies);
  }

  /** `handleHttpNTLMAuthentication`: the second reply is relayed as it is, whatever its status. */
  lemma ForwardSecondLeg(x: Exchange, replies: seq<Reply>)
    requires x.kind == Forward && |replies| >= 2 && Authenticates(replies)
    ensures var h := Run(x, replies);
      var answer := HandleNTLMChallenge(x.options, x.codec, replies[0].headers[ProxyAuthenticate]).value;
      var legs := [Issued(FirstLeg(x)), Issued(SecondLeg(x, answer))];
      var r := replies[1];
      && h.phase == Resolved && h.consumed == 2
      && (r.Error? ==> h.events == legs + [HeadWritten(500, map["Content-Type" := "text/plain"]),
                                           EndedWith("Authentication Error: " + r.msg)])
      && (r.Response? ==> h.events == legs + [HeadWritten(r.status, r.headers), Piped])
  {
    RunAuthenticated(x, replies);
  }

  /**
   * A 407 whose `proxy-authenticate` is the bare token "NTLM" passes the
   * `includes` test but not the pattern: the error is thrown inside the
   * response callback, no handler catches it, and the client gets nothing.
   */
  lemma BareNtlmOfferAborts(x: Exchange, replies: seq<Reply>, message: string)
    requires |replies| >= 1
    requires replies[0] == Response(407, message, map[ProxyAuthenticate := "NTLM"])
    ensures var h := Run(x, replies);
      && h.phase == Aborted
      && h.events == [Issued(FirstLeg(x)), Thrown("Invalid NTLM challenge response")]
      && (forall e :: e in h.events ==> !e.Wrote? && !e.HeadWritten?)
  {
    assert Contains("NTLM", "NTLM") by {
      assert OccursAt("NTLM", "NTLM", 0);
    }
    BareSchemeHasNoChallenge();
    RunOneReply(x, replies);
  }

  /**
   * A CONNECT through an upstream proxy at "host:port" that answers a 407 with a
   * challenge and then a 200: the tunnel opens after exactly two upstream
   * requests, both to that host and port, and one "Connection Established".
   */
  lemma CorporateProxyScenario(x: Exchange, host: string, port: nat, payload: string, replies: seq<Reply>)
    requires x.kind == Tunnel && ':' !in host
    requires x.options.target == Some(host + ":" + Decimal(port))
    requires |payload| >= 1 && !IsSpace(payload[0])
    requires forall k :: 0 <= k < |payload| ==> !IsLineTerminator(payload[k])
    requires |replies| == 2
    requires replies[0] == Response(407, "Proxy Authentication Required", map[ProxyAuthenticate := "NTLM " + payload])
    requires replies[1].Response? && replies[1].status == 200
    ensures var e := Run(x, replies).events;
      && |e| == 4 && e[0].Issued? && e[1].Issued? && e[2] == Wrote(Established) && e[3] == Spliced
      && e[0].request.hostname == e[1].request.hostname == host
      && e[0].request.port == e[1].request.port == Some(port)
  {
    SimpleChallengeOffered(payload);
    assert Authenticates(replies);
    TunnelOpensAfterTwoLegs(x, replies);
    TargetRoundTrip(host, port);
  }

  /** A challenged CONNECT whose authenticate leg gets a 200: two requests, then the tunnel opens. */
  lemma TunnelOpensAfterTwoLegs(x: Exchange, replies: seq<Reply>)
    requires x.kind == Tunnel && |replies| >= 2 && Authenticates(replies)
    requires replies[1].Response? && replies[1].status == 200
    ensures var e := Run(x, replies).events;
      var answer := HandleNTLMChallenge(x.options, x.codec, replies[0].headers[ProxyAuthenticate]).value;
      e == [Issued(FirstLeg(x)), Issued(SecondLeg(x, answer)), Wrote(Established), Spliced]
  {
    RunAuthenticated(x, replies);
    var answer := HandleNTLMChallenge(x.options, x.codec, replies[0].headers[ProxyAuthenticate]).value;
    assert [Issued(FirstLeg(x)), Issued(SecondLeg(x, answer))] + [Wrote(Established), Spliced]
      == [Issued(FirstLeg(x)), Issued(SecondLeg(x, answer)), Wrote(Established), Spliced];
  }

  /** "NTLM <payload>" both offers NTLM and carries a challenge. */
  lemma SimpleChallengeOffered(payload: string)
    requires |payload| >= 1 && !IsSpace(payload[0])
    requires forall k :: 0 <= k < |payload| ==> !IsLineTerminator(payload[k])
    ensures Contains("NTLM " + payload, "NTLM") && HasChallenge("NTLM " + payload)
  {
    var header := "NTLM " + payload;
    SimpleChallengeCapture(payload);
    assert OccursAt(header, "NTLM", 0);
  }
}
