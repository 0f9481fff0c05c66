/**
 * The `NTLMProxy` object of src/index.js: its options, set once by the
 * constructor, and its four request handlers.
 *
 * A handler's effects on the outside world are recorded in a `Trace`: the
 * requests it issues to the upstream proxy and what it does to the client's
 * socket or response. The upstream's answers are given to the handler in the
 * order they arrive, one per request issued; a handler that runs out of them
 * stops where the source would wait for its callback.
 */
module Proxy {
  import opened Wrappers
  import opened Text
  import opened Config
  import opened Wire
  import opened NtlmAuth
  import opened Handshake

  /** What one handler invocation has done so far, as seen from outside the proxy. */
  class Trace {
    var events: seq<Event>

    constructor()
      ensures events == []
    {
      events := [];
    }

    method Record(e: Event)
      modifies this
      ensures events == old(events) + [e]
    {
      events := events + [e];
    }
  }

  class NTLMProxy {
    /** The `ntlm` module and base64, as the constructor's caller provides them. */
    const codec: NtlmCodec
    const options: ProxyOptions

    /**
     * `new NTLMProxy(options)` once `validateConfig` has passed: every option is
     * resolved from the explicit options, then the environment, then the
     * defaults.
     */
    constructor(explicit: Bag, env: Bag, codec: NtlmCodec)
      requires Acceptable(ResolveOptions(explicit, env))
      ensures options == ResolveOptions(explicit, env) && this.codec == codec
      ensures Valid()
    {
      this.codec := codec;
      options := ResolveOptions(explicit, env);
    }

    /**
     * `new NTLMProxy(options)` as a whole: a proxy exists exactly when
     * `validateConfig` does not throw, and otherwise the error carries the
     * message of the first failing check.
     */
    static method Create(explicit: Bag, env: Bag, codec: NtlmCodec) returns (r: Result<NTLMProxy, string>)
      ensures r.Success? <==> Acceptable(ResolveOptions(explicit, env))
      ensures r.Failure? ==>
        var outcome := ValidateConfig(ResolveOptions(explicit, env));
        outcome.Fail? && r.error == Message(outcome.error)
      ensures r.Success? ==>
        && fresh(r.value) && r.value.Valid() && r.value.codec == codec
        && r.value.options == ResolveOptions(explicit, env)
    {
      var outcome := ValidateConfig(ResolveOptions(explicit, env));
      if outcome.Fail? {
        return Failure(Message(outcome.error));
      }
      var proxy := new NTLMProxy(explicit, env, codec);
      return Success(proxy);
    }

    /** The proxy was built without `validateConfig` throwing. */
    predicate Valid()
      reads this
    {
      Validated(options)
    }

    /**
     * `handleConnect`: sends the negotiate leg as a CONNECT, then either moves on
     * to `handleNTLMAuthentication` or answers the client from the first reply.
     */
    method HandleConnect(req: ClientRequest, replies: seq<Reply>, trace: Trace)
      requires Valid()
      modifies trace
      ensures trace.events == old(trace.events) + Run(Exchange(Tunnel, options, codec, req), replies).events
    {
      var x := Exchange(Tunnel, options, codec, req);
      trace.Record(Issued(FirstLeg(x)));
      if replies == [] {
        RunNoReply(x);
        return;
      }
      var reply := replies[0];
      // a 407 whose `proxy-authenticate` is present and includes "NTLM"
      if reply.Response? && reply.status == 407 && OffersNtlm(reply.headers) {
        HandleNTLMAuthentication(req, reply.headers[ProxyAuthenticate], replies[1..], trace);
        RunChallenged(x, replies);
        ghost var t := Challenged(x, reply.headers[ProxyAuthenticate]);
        ConcatAssoc(old(trace.events), [Issued(FirstLeg(x))], t.emitted, Drive(x, t.next, replies[1..]).events);
        return;
      }
      AnswerTunnel(Negotiate, reply, trace);
      RunDelivered(x, replies);
    }

    /**
     * `handleNTLMAuthentication`: answers the challenge with a second CONNECT and
     * relays its outcome; a challenge that does not parse throws before any
     * request is sent.
     */
    method HandleNTLMAuthentication(req: ClientRequest, challenge: string, replies: seq<Reply>, trace: Trace)
      requires Valid()
      modifies trace
      ensures var x := Exchange(Tunnel, options, codec, req);
        var t := Challenged(x, challenge);
        trace.events == old(trace.events) + t.emitted + Drive(x, t.next, replies).events
    {
      var x := Exchange(Tunnel, options, codec, req);
      var authorization := HandleNTLMChallenge(options, codec, challenge);
      if authorization.Failure? {
        trace.Record(Thrown(authorization.error));
        return;
      }
      trace.Record(Issued(SecondLeg(x, authorization.value)));
      if replies != [] {
        AnswerTunnel(Authenticate, replies[0], trace);
      }
      AuthenticateStep(x, replies);
    }

    /**
     * `handleHttpRequest`: forwards the request with the negotiate header, then
     * either moves on to `handleHttpNTLMAuthentication` or relays the first reply.
     */
    method HandleHttpRequest(req: ClientRequest, replies: seq<Reply>, trace: Trace)
      requires Valid()
      modifies trace
      ensures trace.events == old(trace.events) + Run(Exchange(Forward, options, codec, req), replies).events
    {
      var x := Exchange(Forward, options, codec, req);
      trace.Record(Issued(FirstLeg(x)));
      if replies == [] {
        RunNoReply(x);
        return;
      }
      var reply := replies[0];
      // a 407 whose `proxy-authenticate` is present and includes "NTLM"
      if reply.Response? && reply.status == 407 && OffersNtlm(reply.headers) {
        HandleHttpNTLMAuthentication(req, reply.headers[ProxyAuthenticate], replies[1..], trace);
        RunChallenged(x, replies);
        ghost var t := Challenged(x, reply.headers[ProxyAuthenticate]);
        ConcatAssoc(old(trace.events), [Issued(FirstLeg(x))], t.emitted, Drive(x, t.next, replies[1..]).events);
        return;
      }
      AnswerForward(Negotiate, reply, trace);
      RunDelivered(x, replies);
    }

    /**
     * `handleHttpNTLMAuthentication`: forwards the request again with the answer
     * to the challenge and relays whatever comes back.
     */
    method HandleHttpNTLMAuthentication(req: ClientRequest, challenge: string, replies: seq<Reply>, trace: Trace)
      requires Valid()
      modifies trace
      ensures var x := Exchange(Forward, options, codec, req);
        var t := Challenged(x, challenge);
        trace.events == old(trace.events) + t.emitted + Drive(x, t.next, replies).events
    {
      var x := Exchange(Forward, options, codec, req);
      var authorization := HandleNTLMChallenge(options, codec, challenge);
      if authorization.Failure? {
        trace.Record(Thrown(authorization.error));
        return;
      }
      trace.Record(Issued(SecondLeg(x, authorization.value)));
      if replies != [] {
        AnswerForward(Authenticate, replies[0], trace);
      }
      AuthenticateStep(x, replies);
    }
  }

  /**
   * The `connect` callback and `error` handler of a CONNECT leg that is not
   * challenged: a 200 opens the tunnel, any other status is relayed as a
   * status line and closes the socket, and an error closes it with a 500 line.
   */
  method AnswerTunnel(leg: Leg, reply: Reply, trace: Trace)
    modifies trace
    ensures trace.events == old(trace.events) + Deliver(Tunnel, leg, reply)
  {
    match reply {
      case Response(status, message, _) =>
        if status == 200 {
          trace.Record(Wrote(Established));
          trace.Record(Spliced);
        } else {
          trace.Record(Wrote(StatusLine(status, message)));
          trace.Record(Ended);
        }
      case Error(_) =>
        trace.Record(Wrote(if leg == Negotiate then ConnectionErrorLine else AuthenticationErrorLine));
        trace.Record(Ended);
    }
  }

  /**
   * The response callback and `error` handler of a forwarded request that is
   * not challenged: the reply's status and headers are relayed and its body
   * piped, and an error becomes a plain-text 500.
   */
  method AnswerForward(leg: Leg, reply: Reply, trace: Trace)
    modifies trace
    ensures trace.events == old(trace.events) + Deliver(Forward, leg, reply)
  {
    match reply {
      case Response(status, _, relayed) =>
        trace.Record(HeadWritten(status, relayed));
        trace.Record(Piped);
      case Error(msg) =>
        trace.Record(HeadWritten(500, PlainText));
        trace.Record(EndedWith((if leg == Negotiate then "Proxy Error: " else "Authentication Error: ") + msg));
    }
  }
}
