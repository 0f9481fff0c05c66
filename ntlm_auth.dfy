/**
 * The proxy's side of the NTLM header exchange (src/index.js
 * `createNTLMHeaders`, `handleNTLMChallenge`) and the object-spread merge that
 * puts the resulting `Proxy-Authorization` value into the client's headers.
 *
 * The `ntlm` library's message builders and Node's base64 conversions are
 * foreign code: they are the function values of an `NtlmCodec`, about whose
 * results nothing is assumed. They are total: every call returns.
 */
module NtlmAuth {
  import opened Wrappers
  import opened Text
  import opened Config
  import opened Wire

  datatype NtlmCodec = NtlmCodec(
    /** ntlm.createType1Message({ domain, workstation }) */
    type1: (string, string) -> seq<byte>,
    /** ntlm.createType3Message(type2, { username, password, domain, workstation }) */
    type3: (seq<byte>, string, string, string, string) -> seq<byte>,
    /** buffer.toString('base64') */
    encode: seq<byte> -> string,
    /** Buffer.from(text, 'base64') */
    decode: string -> seq<byte>)

  const ProxyAuthorization := "Proxy-Authorization"
  const ProxyAuthenticate := "proxy-authenticate"
  const InvalidChallenge := "Invalid NTLM challenge response"

  // ---------------------------------------------------------------------
  // Object spread

  /** `{ ...base, ...overlay }`: the overlay's entries replace equal keys. */
  function Spread(base: Headers, overlay: Headers): (r: Headers)
    ensures r.Keys == base.Keys + overlay.Keys
    ensures forall k :: k in overlay ==> r[k] == overlay[k]
    ensures forall k :: k in base && k !in overlay ==> r[k] == base[k]
  {
    base + overlay
  }

  /**
   * The client's headers with `Proxy-Authorization` set: every other client
   * header is kept, and only the exact key is overridden.
   */
  lemma AuthorizedHeaders(client: Headers, value: string)
    ensures var r := Spread(client, map[ProxyAuthorization := value]);
      && r.Keys == client.Keys + {ProxyAuthorization}
      && r[ProxyAuthorization] == value
      && (forall k :: k in client && k != ProxyAuthorization ==> r[k] == client[k])
  {
  }

  /**
   * Keys match exactly: a client `proxy-authorization` header (the name as
   * Node delivers it) is kept, unchanged, in the headers object handed to
   * `http.request`, beside the proxy's own value.
   */
  lemma LowercaseClientCredentialsSurvive(client: Headers, value: string)
    requires "proxy-authorization" in client
    ensures var r := Spread(client, map[ProxyAuthorization := value]);
      && r["proxy-authorization"] == client["proxy-authorization"]
      && r[ProxyAuthorization] == value
  {
  }

  // ---------------------------------------------------------------------
  // Negotiate leg

  /** "NTLM " and the base64 of the Type 1 message. */
  function NegotiateValue(o: ProxyOptions, codec: NtlmCodec): string {
    "NTLM " + codec.encode(codec.type1(o.domain, o.workstation))
  }

  /** `createNTLMHeaders(req)`; the request argument is not used. */
  function CreateNTLMHeaders(o: ProxyOptions, codec: NtlmCodec): (h: Headers)
    ensures h.Keys == {ProxyAuthorization}
    ensures "NTLM " <= h[ProxyAuthorization]
    ensures h[ProxyAuthorization] == NegotiateValue(o, codec)
  {
    map[ProxyAuthorization := NegotiateValue(o, codec)]
  }

  /** Only the domain and workstation reach the Type 1 message. */
  lemma NegotiateDependsOnDomainAndWorkstation(o1: ProxyOptions, o2: ProxyOptions, codec: NtlmCodec)
    requires o1.domain == o2.domain && o1.workstation == o2.workstation
    ensures CreateNTLMHeaders(o1, codec) == CreateNTLMHeaders(o2, codec)
  {
  }

  // ---------------------------------------------------------------------
  // The pattern /NTLM\s+(.+)/

  /** JavaScript's `\s`. */
  predicate IsSpace(c: char) {
    || c == '\t' || c == '\n' || c == '\U{000B}' || c == '\U{000C}' || c == '\r' || c == ' '
    || c == '\U{00A0}' || c == '\U{1680}' || ('\U{2000}' <= c <= '\U{200A}')
    || c == '\U{2028}' || c == '\U{2029}' || c == '\U{202F}' || c == '\U{205F}'
    || c == '\U{3000}' || c == '\U{FEFF}'
  }

  /** The characters `.` does not match. */
  predicate IsLineTerminator(c: char) {
    c == '\n' || c == '\r' || c == '\U{2028}' || c == '\U{2029}'
  }

  /** "NTLM", one or more `\s`, and the first character of `(.+)` at index `p`. */
  ghost predicate MatchesAt(s: string, i: nat, p: nat) {
    && i + 4 < p < |s|
    && s[i..i + 4] == "NTLM"
    && (forall k :: i + 4 <= k < p ==> IsSpace(s[k]))
    && !IsLineTerminator(s[p])
  }

  /** The pattern matches somewhere in `s`. */
  ghost predicate HasChallenge(s: string) {
    exists i: nat, p: nat :: MatchesAt(s, i, p)
  }

  /**
   * The match JavaScript reports: the leftmost start, and there the longest
   * run of `\s` that still leaves a character for `.+`.
   */
  ghost predicate FirstMatch(s: string, i: nat, p: nat) {
    && MatchesAt(s, i, p)
    && (forall i': nat, p': nat :: i' < i ==> !MatchesAt(s, i', p'))
    && (forall p': nat :: MatchesAt(s, i, p') ==> p' <= p)
  }

  /** End of the run of `\s` starting at `k`. */
  function SpaceRunEnd(s: string, k: nat): (e: nat)
    requires k <= |s|
    ensures k <= e <= |s|
    ensures forall j :: k <= j < e ==> IsSpace(s[j])
    ensures e < |s| ==> !IsSpace(s[e])
    decreases |s| - k
  {
    if k < |s| && IsSpace(s[k]) then SpaceRunEnd(s, k + 1) else k
  }

  /** End of the greedy `.+` (or `.*`) starting at `p`. */
  function LineEnd(s: string, p: nat): (q: nat)
    requires p <= |s|
    ensures p <= q <= |s|
    ensures forall j :: p <= j < q ==> !IsLineTerminator(s[j])
    ensures q < |s| ==> IsLineTerminator(s[q])
    decreases |s| - p
  {
    if p < |s| && !IsLineTerminator(s[p]) then LineEnd(s, p + 1) else p
  }

  /**
   * Backtracking `\s+` from its longest extent `hi` down to one character
   * after `lo`: the first split at which `.` can match.
   */
  function GiveBack(s: string, lo: nat, hi: nat): (r: Option<nat>)
    ensures r.Some? ==> lo < r.value <= hi && r.value < |s| && !IsLineTerminator(s[r.value])
    ensures forall q: nat :: lo < q <= hi && q < |s| && (r.Some? ==> r.value < q) ==> IsLineTerminator(s[q])
    decreases hi
  {
    if hi <= lo then None
    else if hi < |s| && !IsLineTerminator(s[hi]) then Some(hi)
    else GiveBack(s, lo, hi - 1)
  }

  /** Matching at one start index. */
  function MatchAt(s: string, i: nat): (r: Option<nat>)
    ensures r.Some? ==> MatchesAt(s, i, r.value)
    ensures r.Some? ==> forall p: nat :: MatchesAt(s, i, p) ==> p <= r.value
    ensures r.None? ==> forall p: nat :: !MatchesAt(s, i, p)
  {
    if i + 4 <= |s| && s[i..i + 4] == "NTLM" then
      var e := SpaceRunEnd(s, i + 4);
      var r := GiveBack(s, i + 4, e);
      assert forall p: nat :: MatchesAt(s, i, p) ==> p <= e;
      r
    else
      None
  }

  /** The regular-expression search from index `from` on. */
  function Search(s: string, from: nat): (r: Option<(nat, nat)>)
    ensures r.Some? ==> from <= r.value.0 && MatchesAt(s, r.value.0, r.value.1)
    ensures r.Some? ==> forall i: nat, p: nat :: from <= i < r.value.0 ==> !MatchesAt(s, i, p)
    ensures r.Some? ==> forall p: nat :: MatchesAt(s, r.value.0, p) ==> p <= r.value.1
    ensures r.None? ==> forall i: nat, p: nat :: from <= i ==> !MatchesAt(s, i, p)
    decreases |s| - from
  {
    if from + 4 >= |s| then None
    else
      match MatchAt(s, from)
      case Some(p) => Some((from, p))
      case None => Search(s, from + 1)
  }

  /** `s.match(/NTLM\s+(.+)/)[1]`, or None where `match` returns null. */
  function Capture(s: string): (r: Option<string>)
    ensures r.None? <==> !HasChallenge(s)
    ensures r.Some? ==> exists i: nat, p: nat ::
      FirstMatch(s, i, p) && r.value == s[p..LineEnd(s, p)]
  {
    match Search(s, 0)
    case None => None
    case Some((i, p)) =>
      assert FirstMatch(s, i, p);
      Some(s[p..LineEnd(s, p)])
  }

  /** The captured payload is one or more characters and stops before any line break. */
  lemma CaptureShape(s: string)
    requires HasChallenge(s)
    ensures Capture(s).Some?
    ensures var c := Capture(s).value;
      |c| >= 1 && forall k :: 0 <= k < |c| ==> !IsLineTerminator(c[k])
  {
    var r := Capture(s);
    assert r.Some?;
    var i: nat, p: nat :| FirstMatch(s, i, p) && r.value == s[p..LineEnd(s, p)];
    var c := r.value;
    forall k | 0 <= k < |c| ensures !IsLineTerminator(c[k]) {
      assert c[k] == s[p + k];
    }
  }

  /** A bare scheme token, as sent by a proxy that offers NTLM without a challenge, does not match. */
  lemma BareSchemeHasNoChallenge()
    ensures !HasChallenge("NTLM")
  {
  }

  /** A scheme token, a space and a payload on one line capture exactly the payload. */
  lemma {:induction false} SimpleChallengeCapture(payload: string)
    requires |payload| >= 1 && !IsSpace(payload[0])
    requires forall k :: 0 <= k < |payload| ==> !IsLineTerminator(payload[k])
    ensures Capture("NTLM " + payload) == Some(payload)
  {
    var s := "NTLM " + payload;
    assert s[0..4] == "NTLM" && s[4] == ' ' && s[5] == payload[0];
    assert SpaceRunEnd(s, 5) == 5 && SpaceRunEnd(s, 4) == 5;
    assert GiveBack(s, 4, 5) == Some(5);
    assert Search(s, 0) == Some((0, 5));
    assert forall k :: 5 <= k < |s| ==> s[k] == payload[k - 5];
    assert LineEnd(s, 5) == |s|;
    assert s[5..LineEnd(s, 5)] == payload;
    assert Capture(s) == Some(s[5..LineEnd(s, 5)]);
  }

  // ---------------------------------------------------------------------
  // Authenticate leg

  /** "NTLM " and the base64 of the Type 3 message built from the captured payload. */
  function AuthenticateValue(o: ValidOptions, codec: NtlmCodec, payload: string): string {
    "NTLM " + codec.encode(codec.type3(codec.decode(payload),
                                       o.username.value, o.password.value, o.domain, o.workstation))
  }

  /** `handleNTLMChallenge(challengeHeader)`: the header value for the second leg, or the error it throws. */
  function HandleNTLMChallenge(o: ValidOptions, codec: NtlmCodec, header: string): (r: Result<string, string>)
    ensures r.Failure? <==> !HasChallenge(header)
    ensures r.Failure? ==> r.error == InvalidChallenge
    ensures r.Success? ==> "NTLM " <= r.value
    ensures r.Success? ==> exists i: nat, p: nat ::
      FirstMatch(header, i, p) && r.value == AuthenticateValue(o, codec, header[p..LineEnd(header, p)])
  {
    match Capture(header)
    case None => Failure(InvalidChallenge)
    case Some(payload) => Success(AuthenticateValue(o, codec, payload))
  }

  /**
   * The answer is a function of the captured payload and the configured
   * username, password, domain and workstation only: the same challenge and
   * credentials always give the same header value.
   */
  lemma ChallengeAnswerDeterministic(o1: ValidOptions, o2: ValidOptions, codec: NtlmCodec, h1: string, h2: string)
    requires o1.username == o2.username && o1.password == o2.password
    requires o1.domain == o2.domain && o1.workstation == o2.workstation
    requires Capture(h1) == Capture(h2)
    ensures HandleNTLMChallenge(o1, codec, h1) == HandleNTLMChallenge(o2, codec, h2)
  {
  }
}
