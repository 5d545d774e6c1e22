/**
 * Retry and fallback engines of `crates/beacon/src/client.rs`. The network is an
 * arbitrary function from the attempt number to what that attempt yields; JSON decoding
 * and fork-name parsing are parameters.
 */
module BeaconClient {
  import opened Common
  import opened LittleEndian
  import opened Quotients
  import opened Retry
  import opened HttpCaps

  datatype Header = Absent | Unreadable | Text(value: string)

  datatype Headers = Headers(
    consensusVersion: Header, payloadIncluded: Header, contentType: Header,
    builderUrl: Header, blockValue: Header, retryAfter: Option<nat>)

  datatype Response = Response(status: nat, headers: Headers, body: Body)

  datatype Attempt = Got(response: Response) | TimedOut | ConnectFailed | OtherFailure

  datatype Error =
    | HttpError
    | ParseError
    | ApiError(status: nat)
    | Timeout
    | BodyTooLarge(expected: nat, gotSoFar: nat)

  type Network = nat -> Attempt

  predicate IsSuccess(status: nat) {
    200 <= status < 300
  }

  predicate IsServerError(status: nat) {
    500 <= status < 600
  }

  // ----- the shared engine -----

  /** 429, 5xx, timeouts and connection failures are tried again. */
  predicate Retryable(a: Attempt) {
    match a
    case Got(r) => r.status == 429 || IsServerError(r.status)
    case TimedOut => true
    case ConnectFailed => true
    case OtherFailure => false
  }

  function ErrorOf(a: Attempt): Error {
    match a
    case Got(r) => ApiError(r.status)
    case TimedOut => Timeout
    case ConnectFailed => HttpError
    case OtherFailure => HttpError
  }

  /** An attempt nothing is tried after: an answer that is neither a 429 nor a 5xx, or a
      failure that is neither a time-out nor a refused connection. */
  predicate Decides(a: Attempt) {
    a.OtherFailure? || (a.Got? && a.response.status != 429 && !(500 <= a.response.status <= 599))
  }

  /** Attempt `k` is the first that decides. */
  ghost predicate FirstToDecide(net: Network, k: nat) {
    Decides(net(k)) && forall j: nat :: j < k ==> !Decides(net(j))
  }

  predicate TwoHundreds(a: Attempt) {
    a.Got? && 200 <= a.response.status <= 299
  }

  /** What the engine sleeps at most until retry `n` is issued: `backoffs(k)` before
      attempt `k`, and after a 429 the header's delay or `fallbacks(k)`. */
  function SleepSum(backoffs: nat -> nat, fallbacks: nat -> nat, n: nat): nat {
    if n == 0 then 0
    else SleepSum(backoffs, fallbacks, n - 1) + backoffs(n) + Max(MAX_RETRY_AFTER, fallbacks(n - 1))
  }

  /** The extra sleep a 429 at attempt `k` asks for. */
  function RateLimitSleep(net: Network, fallbacks: nat -> nat, k: nat): nat {
    if net(k).Got? && net(k).response.status == 429
    then RetryAfterDelay(net(k).response.headers.retryAfter, fallbacks(k)) else 0
  }

  /** What the engine has slept when it issues attempt `n`. */
  function SleptBefore(net: Network, backoffs: nat -> nat, fallbacks: nat -> nat, n: nat): nat {
    if n == 0 then 0
    else SleptBefore(net, backoffs, fallbacks, n - 1) + RateLimitSleep(net, fallbacks, n - 1) + backoffs(n)
  }

  lemma RateLimitSleepBound(net: Network, fallbacks: nat -> nat, k: nat)
    ensures RateLimitSleep(net, fallbacks, k) <= Max(MAX_RETRY_AFTER, fallbacks(k))
  {
  }

  lemma {:induction false} SleptWithinSum(net: Network, backoffs: nat -> nat, fallbacks: nat -> nat, n: nat)
    ensures SleptBefore(net, backoffs, fallbacks, n) <= SleepSum(backoffs, fallbacks, n)
    decreases n
  {
    if n != 0 {
      SleptWithinSum(net, backoffs, fallbacks, n - 1);
      RateLimitSleepBound(net, fallbacks, n - 1);
    }
  }

  /** Delays the policy can draw: `calculate_backoff(k)` for retry `k`. */
  ghost predicate DrawnFrom(p: Policy, backoffs: nat -> nat, fallbacks: nat -> nat) {
    && (forall k: nat :: Least(p, k) <= backoffs(k + 1) <= Top(p, k))
    && (forall k: nat :: Least(p, k) <= fallbacks(k) <= Top(p, k))
  }

  /** The sleep budget of the policy, for every network and every draw. */
  lemma {:induction false} SleptWithinBudget(p: Policy, net: Network, backoffs: nat -> nat, fallbacks: nat -> nat, n: nat)
    requires DrawnFrom(p, backoffs, fallbacks)
    ensures SleptBefore(net, backoffs, fallbacks, n) <= SleepBound(p, n)
  {
    SleptWithinSum(net, backoffs, fallbacks, n);
    SleepWithinBudget(p, backoffs, fallbacks, n);
  }

  lemma {:induction false} SleepWithinBudget(p: Policy, backoffs: nat -> nat, fallbacks: nat -> nat, n: nat)
    requires DrawnFrom(p, backoffs, fallbacks)
    ensures SleepSum(backoffs, fallbacks, n) <= SleepBound(p, n)
    decreases n
  {
    if n != 0 {
      SleepWithinBudget(p, backoffs, fallbacks, n - 1);
      assert backoffs(n) == backoffs((n - 1) + 1) <= Top(p, n - 1);
      assert fallbacks(n - 1) <= Top(p, n - 1);
    }
  }

  /** The attempt loop. `Ok` is the response handed to the caller's handler. */
  method ExecuteWithRetry(maxRetries: nat, net: Network, backoffs: nat -> nat, fallbacks: nat -> nat)
    returns (r: Result<Response, Error>, requests: nat, slept: nat)
    ensures 1 <= requests <= maxRetries + 1
    ensures forall i :: 0 <= i < requests - 1 ==> !Decides(net(i))
    ensures requests <= maxRetries ==> Decides(net(requests - 1))
    ensures forall k :: 0 <= k <= maxRetries && FirstToDecide(net, k) ==> requests == k + 1
    ensures match net(requests - 1)
            case Got(response) => r == if Decides(Got(response)) then Ok(response) else Err(ApiError(response.status))
            case TimedOut => r == Err(Timeout)
            case ConnectFailed => r == Err(HttpError)
            case OtherFailure => r == Err(HttpError)
    ensures slept == SleptBefore(net, backoffs, fallbacks, requests - 1)
  {
    var lastError := HttpError;
    slept, requests := 0, 0;
    for attempt := 0 to maxRetries + 1
      invariant requests == attempt
      invariant forall i :: 0 <= i < attempt ==> Retryable(net(i))
      invariant 0 < attempt ==> lastError == ErrorOf(net(attempt - 1))
      invariant attempt == 0 ==> slept == 0
      invariant 0 < attempt <= maxRetries ==> slept + backoffs(attempt) == SleptBefore(net, backoffs, fallbacks, attempt)
      invariant attempt == maxRetries + 1 ==> slept == SleptBefore(net, backoffs, fallbacks, maxRetries)
    {
      if 0 < attempt {
        slept := slept + backoffs(attempt);
      }
      requests := attempt + 1;
      var a := net(attempt);
      match a
      case Got(response) =>
        if response.status == 429 {
          lastError := ApiError(429);
          if maxRetries <= attempt { break; }
          slept := slept + RetryAfterDelay(response.headers.retryAfter, fallbacks(attempt));
        } else if IsServerError(response.status) {
          lastError := ApiError(response.status);
        } else {
          return Ok(response), requests, slept;
        }
      case TimedOut => lastError := Timeout;
      case ConnectFailed => lastError := HttpError;
      case OtherFailure => return Err(HttpError), requests, slept;
    }
    r := Err(lastError);
  }

  lemma {:induction false} SleepBoundGrows(p: Policy, m: nat, n: nat)
    requires m <= n
    ensures SleepBound(p, m) <= SleepBound(p, n)
    decreases n
  {
    if m < n { SleepBoundGrows(p, m, n - 1); }
  }

  /** The engine under a policy: whatever the network does and the jitter draws, it sleeps
      no longer than the policy's budget. */
  method ExecuteWithPolicy(p: Policy, net: Network, backoffs: nat -> nat, fallbacks: nat -> nat)
    returns (r: Result<Response, Error>, requests: nat, slept: nat)
    requires DrawnFrom(p, backoffs, fallbacks)
    ensures 1 <= requests <= p.maxRetries + 1
    ensures slept == SleptBefore(net, backoffs, fallbacks, requests - 1)
    ensures slept <= SleepBound(p, p.maxRetries)
  {
    r, requests, slept := ExecuteWithRetry(p.maxRetries, net, backoffs, fallbacks);
    SleptWithinBudget(p, net, backoffs, fallbacks, requests - 1);
    SleepBoundGrows(p, requests - 1, p.maxRetries);
  }

  // ----- block production, version 4 -----

  datatype ForkName = Phase0 | Altair | Bellatrix | Capella | Deneb | Electra | Fulu | Gloas

  type ForkParser = string -> Option<ForkName>

  const MAX_SSZ_BLOCK_BYTES: nat := 16 * 1024 * 1024

  function RequiredVersion(forkOf: ForkParser, h: Header): Result<ForkName, Error> {
    if !h.Text? || forkOf(h.value).None? then Err(ParseError) else Ok(forkOf(h.value).value)
  }

  function RequiredFlag(h: Header): Result<bool, Error> {
    if h == Text("true") then Ok(true) else if h == Text("false") then Ok(false) else Err(ParseError)
  }

  function OptionalText(h: Header): Result<Option<string>, Error> {
    match h
    case Absent => Ok(None)
    case Unreadable => Err(ParseError)
    case Text(value) => Ok(Some(value))
  }

  /** Every produce-block header the fourth version needs is present and readable. */
  predicate HeadersUsable(forkOf: ForkParser, h: Headers) {
    && h.consensusVersion.Text? && forkOf(h.consensusVersion.value).Some?
    && h.payloadIncluded in {Text("true"), Text("false")}
    && !h.builderUrl.Unreadable? && !h.blockValue.Unreadable?
  }

  predicate IsSsz(h: Headers) {
    h.contentType.Text? && "application/octet-stream" <= h.contentType.value
  }

  /** Parameters after the media type do not matter. */
  lemma SszContentTypes(h: Headers)
    ensures IsSsz(h) <==> exists rest :: h.contentType == Text("application/octet-stream" + rest)
  {
    if IsSsz(h) {
      assert h.contentType == Text("application/octet-stream" + h.contentType.value[24..]);
    }
  }

  datatype Produced = Produced(
    version: ForkName, payloadIncluded: bool, builderUrl: Option<string>, blockValue: Option<string>,
    ssz: Option<seq<byte>>, data: Option<string>)

  /** Failures that stop failover to another node. */
  predicate StopsFailover(e: Error) {
    e.ParseError? || e.BodyTooLarge?
  }

  function FromBodyError(e: BodyError): Error {
    match e
    case TooLarge(expected, got) => BodyTooLarge(expected, got)
    case ChunkUnreadable => ParseError
  }

  /** Whether a response can be decoded: usable headers and a body within its cap that
      is a non-empty block, or JSON with a `data` field. */
  ghost predicate Decodable(forkOf: ForkParser, dataField: seq<byte> -> Option<string>, maxBody: nat, r: Response) {
    && HeadersUsable(forkOf, r.headers)
    && (if IsSsz(r.headers)
        then Fits(r.body, MAX_SSZ_BLOCK_BYTES) && Concat(r.body.chunks) != []
        else Fits(r.body, maxBody) && dataField(Concat(r.body.chunks)).Some?)
  }

  /** The optional header's text, or nothing where it is absent. */
  predicate CarriesText(h: Header, v: Option<string>) {
    h == if v.Some? then Text(v.value) else Absent
  }

  /** Every field of the result is the response's own. */
  ghost predicate ProducedFrom(forkOf: ForkParser, dataField: seq<byte> -> Option<string>, r: Response, p: Produced) {
    && r.headers.consensusVersion.Text? && forkOf(r.headers.consensusVersion.value) == Some(p.version)
    && r.headers.payloadIncluded == Text(if p.payloadIncluded then "true" else "false")
    && CarriesText(r.headers.builderUrl, p.builderUrl)
    && CarriesText(r.headers.blockValue, p.blockValue)
    && (if IsSsz(r.headers) then p.ssz == Some(Concat(r.body.chunks)) && p.data == None
        else p.ssz == None && p.data == dataField(Concat(r.body.chunks)))
  }

  /** The body does not fit its cap: the block's for SSZ, the configured one for JSON. */
  ghost predicate BodyOver(maxBody: nat, r: Response, e: Error) {
    e.BodyTooLarge? && Reports(r.body, if IsSsz(r.headers) then 16_777_216 else maxBody, TooLarge(e.expected, e.gotSoFar))
  }

  method DecodeProduceBlockV4(response: Response, forkOf: ForkParser, dataField: seq<byte> -> Option<string>, maxBody: nat)
    returns (r: Result<Produced, Error>)
    ensures r.Ok? <==> Decodable(forkOf, dataField, maxBody, response)
    ensures r.Err? ==> r.error.ParseError? || BodyOver(maxBody, response, r.error)
    ensures r.Ok? ==> ProducedFrom(forkOf, dataField, response, r.value)
  {
    var h := response.headers;
    var version := RequiredVersion(forkOf, h.consensusVersion);
    if version.Err? { return Err(version.error); }
    var included := RequiredFlag(h.payloadIncluded);
    if included.Err? { return Err(included.error); }
    var url := OptionalText(h.builderUrl);
    if url.Err? { return Err(url.error); }
    var value := OptionalText(h.blockValue);
    if value.Err? { return Err(value.error); }
    var body := ReadBodyCapped(response.body, if IsSsz(h) then MAX_SSZ_BLOCK_BYTES else maxBody);
    if body.Err? { return Err(FromBodyError(body.error)); }
    if IsSsz(h) {
      if body.value == [] { return Err(ParseError); }
      return Ok(Produced(version.value, included.value, url.value, value.value, Some(body.value), None));
    }
    var data := dataField(body.value);
    if data.None? { return Err(ParseError); }
    r := Ok(Produced(version.value, included.value, url.value, value.value, None, data));
  }

  /** After a 2xx no failure may look retryable. */
  function CommitV4Error(e: Error): (c: Error)
    ensures (c.ParseError? || c.BodyTooLarge?) && (e.ParseError? || e.BodyTooLarge? ==> c == e)
  {
    if StopsFailover(e) then e else ParseError
  }

  /** A 2xx commits this node: it is the last request of the call, and the call then
      either succeeds or fails in a way that stops failover. Every other error means no
      2xx was ever received. */
  method ProduceBlockV4(maxRetries: nat, net: Network, backoffs: nat -> nat, fallbacks: nat -> nat,
                        forkOf: ForkParser, dataField: seq<byte> -> Option<string>, maxBody: nat)
    returns (r: Result<Produced, Error>, requests: nat, slept: nat)
    ensures 1 <= requests <= maxRetries + 1
    ensures slept == SleptBefore(net, backoffs, fallbacks, requests - 1)
    ensures forall i :: 0 <= i < requests - 1 ==> !TwoHundreds(net(i))
    ensures TwoHundreds(net(requests - 1)) <==> r.Ok? || r.error.ParseError? || r.error.BodyTooLarge?
    ensures r.Ok? <==> TwoHundreds(net(requests - 1)) && Decodable(forkOf, dataField, maxBody, net(requests - 1).response)
    ensures r.Ok? ==> ProducedFrom(forkOf, dataField, net(requests - 1).response, r.value)
    ensures r.Err? && r.error.BodyTooLarge? ==> BodyOver(maxBody, net(requests - 1).response, r.error)
  {
    var response, n, s := ExecuteWithRetry(maxRetries, net, backoffs, fallbacks);
    requests, slept := n, s;
    if response.Err? { return Err(response.error), requests, slept; }
    if !IsSuccess(response.value.status) { return Err(ApiError(response.value.status)), requests, slept; }
    var decoded := DecodeProduceBlockV4(response.value, forkOf, dataField, maxBody);
    r := if decoded.Ok? then decoded else Err(CommitV4Error(decoded.error));
  }

  // ----- aggregate attestations -----

  datatype ElectraAtt = ElectraAtt(committeeBits: seq<byte>)

  datatype Aggregate =
    | PreElectraAggregate
    | ElectraAggregate(att: ElectraAtt)
    | FuluAggregate(att: ElectraAtt)
    | GloasAggregate(att: ElectraAtt)

  /** A parsed version-2 body: the `version` text, and `data` if it decodes. */
  datatype V2Body = V2Body(version: string, att: Option<ElectraAtt>)

  function DecodeVersioned(requested: ForkName, header: ForkName, body: Option<ForkName>, att: Option<ElectraAtt>)
    : Result<Aggregate, Error>
  {
    if body.None? || header != requested || body.value != requested then Err(ParseError)
    else if att.None? then Err(ParseError)
    else
      match requested
      case Electra => Ok(ElectraAggregate(att.value))
      case Fulu => Ok(FuluAggregate(att.value))
      case Gloas => Ok(GloasAggregate(att.value))
      case _ => Err(ParseError)
  }

  /** Bit `index`, least significant first, of byte `index / 8`. */
  predicate CommitteeBit(bits: seq<byte>, index: nat) {
    index / 8 < |bits| && (bits[index / 8] as int / Pow2(index % 8)) % 2 == 1
  }

  function ForkOfAggregate(a: Aggregate): Option<ForkName> {
    match a
    case PreElectraAggregate => None
    case ElectraAggregate(_) => Some(Electra)
    case FuluAggregate(_) => Some(Fulu)
    case GloasAggregate(_) => Some(Gloas)
  }

  datatype Decoders = Decoders(
    forkOf: ForkParser, v2: seq<byte> -> Option<V2Body>, v1: seq<byte> -> Option<ElectraAtt>, maxBody: nat)

  /** The node has no version-2 route. */
  predicate CapabilityGap(a: Attempt) {
    a.Got? && (a.response.status == 405 || a.response.status == 501)
  }

  predicate NoSuchRoute(a: Attempt) {
    a.Got? && a.response.status in {405, 501}
  }

  /** What a version-2 answer has to establish to be accepted as `agg`. */
  ghost predicate Agreed(d: Decoders, fork: ForkName, index: nat, a: Attempt, agg: Aggregate) {
    && TwoHundreds(a)
    && a.response.headers.consensusVersion.Text? && d.forkOf(a.response.headers.consensusVersion.value) == Some(fork)
    && Fits(a.response.body, d.maxBody)
    && var body := d.v2(Concat(a.response.body.chunks));
    && body.Some? && d.forkOf(body.value.version) == Some(fork)
    && ForkOfAggregate(agg) == Some(fork)
    && body.value.att == Some(agg.att)
    && CommitteeBit(agg.att.committeeBits, index)
  }

  ghost predicate NothingAgreed(d: Decoders, fork: ForkName, index: nat, a: Attempt) {
    forall agg :: !Agreed(d, fork, index, a, agg)
  }

  /** Check and decode one 2xx answer. */
  method AcceptV2(d: Decoders, fork: ForkName, index: nat, response: Response) returns (r: Result<Aggregate, Error>)
    requires 200 <= response.status <= 299
    ensures r.Ok? ==> Agreed(d, fork, index, Got(response), r.value)
    ensures r.Err? ==> (r.error.ParseError? || r.error.BodyTooLarge?) && NothingAgreed(d, fork, index, Got(response))
  {
    var header := RequiredVersion(d.forkOf, response.headers.consensusVersion);
    if header.Err? { return Err(header.error); }
    var bytes := ReadBodyCapped(response.body, d.maxBody);
    if bytes.Err? { return Err(FromBodyError(bytes.error)); }
    var body := d.v2(bytes.value);
    if body.None? { return Err(ParseError); }
    r := DecodeVersioned(fork, header.value, d.forkOf(body.value.version), body.value.att);
    if r.Ok? && !CommitteeBit(r.value.att.committeeBits, index) { r := Err(ParseError); }
  }

  /** A version-1 answer that carries `agg`. Its body names no fork and is always Electra. */
  ghost predicate FromV1(d: Decoders, a: Attempt, agg: Aggregate) {
    && TwoHundreds(a) && Fits(a.response.body, d.maxBody)
    && agg.ElectraAggregate? && d.v1(Concat(a.response.body.chunks)) == Some(agg.att)
  }

  ghost predicate NothingFromV1(d: Decoders, a: Attempt) {
    forall agg :: !FromV1(d, a, agg)
  }

  /** The single version-1 read: the last response decides, and carries what is returned. */
  method FetchV1(maxRetries: nat, net: Network, backoffs: nat -> nat, fallbacks: nat -> nat, d: Decoders)
    returns (r: Result<Aggregate, Error>, requests: nat, slept: nat)
    ensures 1 <= requests <= maxRetries + 1
    ensures slept == SleptBefore(net, backoffs, fallbacks, requests - 1)
    ensures forall i :: 0 <= i < requests - 1 ==> !Decides(net(i))
    ensures requests <= maxRetries ==> Decides(net(requests - 1))
    ensures r.Ok? ==> FromV1(d, net(requests - 1), r.value)
    ensures r.Err? ==> NothingFromV1(d, net(requests - 1))
  {
    var response, n, s := ExecuteWithRetry(maxRetries, net, backoffs, fallbacks);
    requests, slept := n, s;
    if response.Err? { return Err(response.error), requests, slept; }
    if !IsSuccess(response.value.status) { return Err(ApiError(response.value.status)), requests, slept; }
    var bytes := ReadBodyCapped(response.value.body, d.maxBody);
    if bytes.Err? { return Err(FromBodyError(bytes.error)), requests, slept; }
    var att := d.v1(bytes.value);
    r := if att.Some? then Ok(ElectraAggregate(att.value)) else Err(ParseError);
  }

  /** The version-2 attempts, up to the first that decides or shows the route is missing. */
  method AskV2(maxRetries: nat, v2: Network, backoffs: nat -> nat, fallbacks: nat -> nat)
    returns (last: Attempt, requests: nat, slept: nat)
    ensures 1 <= requests <= maxRetries + 1 && last == v2(requests - 1)
    ensures forall i :: 0 <= i < requests - 1 ==> !Decides(v2(i)) && !NoSuchRoute(v2(i))
    ensures requests <= maxRetries ==> Decides(last) || NoSuchRoute(last)
    ensures slept == SleptBefore(v2, backoffs, fallbacks, requests - 1)
  {
    slept, requests, last := 0, 0, OtherFailure;
    for attempt := 0 to maxRetries + 1
      invariant requests == attempt
      invariant forall i :: 0 <= i < attempt ==> Retryable(v2(i)) && !CapabilityGap(v2(i))
      invariant 0 < attempt ==> last == v2(attempt - 1)
      invariant attempt == 0 ==> slept == 0
      invariant 0 < attempt <= maxRetries ==> slept + backoffs(attempt) == SleptBefore(v2, backoffs, fallbacks, attempt)
      invariant attempt == maxRetries + 1 ==> slept == SleptBefore(v2, backoffs, fallbacks, maxRetries)
    {
      if 0 < attempt {
        slept := slept + backoffs(attempt);
      }
      requests, last := attempt + 1, v2(attempt);
      if CapabilityGap(last) || !Retryable(last) { return; }
      if last.Got? && last.response.status == 429 {
        if maxRetries <= attempt { break; }
        slept := slept + RetryAfterDelay(last.response.headers.retryAfter, fallbacks(attempt));
      }
    }
  }

  /** An aggregate fetch succeeds only on an agreeing version-2 answer, or on what the one
      version-1 fallback reads, which a 405 or 501, and nothing else, triggers. */
  method FetchAggregateV2(maxRetries: nat, committeeIndex: Option<nat>, fork: ForkName, v2: Network, v1: Network,
                          backoffs: nat -> nat, fallbacks: nat -> nat,
                          v1Backoffs: nat -> nat, v1Fallbacks: nat -> nat, d: Decoders)
    returns (r: Result<Aggregate, Error>, requests: nat, v1Requests: nat, slept: nat)
    ensures requests <= maxRetries + 1 && (requests == 0 <==> committeeIndex.None?)
    ensures forall i :: 0 <= i < requests - 1 ==> !Decides(v2(i)) && !NoSuchRoute(v2(i))
    ensures 0 < requests <= maxRetries ==> Decides(v2(requests - 1)) || NoSuchRoute(v2(requests - 1))
    ensures v1Requests <= maxRetries + 1 && (0 < v1Requests <==> 0 < requests && NoSuchRoute(v2(requests - 1)))
    ensures 0 < v1Requests <= maxRetries ==> Decides(v1(v1Requests - 1))
    ensures slept == (if requests == 0 then 0 else SleptBefore(v2, backoffs, fallbacks, requests - 1))
                     + (if v1Requests == 0 then 0 else SleptBefore(v1, v1Backoffs, v1Fallbacks, v1Requests - 1))
    ensures r.Ok? ==> && committeeIndex.Some?
                      && (if v1Requests == 0 then Agreed(d, fork, committeeIndex.value, v2(requests - 1), r.value)
                          else FromV1(d, v1(v1Requests - 1), r.value))
    ensures 0 < requests && v1Requests == 0 && r.Err? ==>
              && NothingAgreed(d, fork, committeeIndex.value, v2(requests - 1))
              && match v2(requests - 1)
                 case Got(response) =>
                   if 200 <= response.status <= 299 then r.error.ParseError? || r.error.BodyTooLarge?
                   else r.error == ApiError(response.status)
                 case TimedOut => r.error == Timeout
                 case ConnectFailed => r.error == HttpError
                 case OtherFailure => r.error == HttpError
    ensures 0 < v1Requests && r.Err? ==> NothingFromV1(d, v1(v1Requests - 1))
  {
    requests, v1Requests, slept := 0, 0, 0;
    if committeeIndex.None? { return Err(ParseError), 0, 0, 0; }
    var last;
    last, requests, slept := AskV2(maxRetries, v2, backoffs, fallbacks);
    if CapabilityGap(last) {
      var v1Slept;
      r, v1Requests, v1Slept := FetchV1(maxRetries, v1, v1Backoffs, v1Fallbacks, d);
      slept := slept + v1Slept;
    } else if last.Got? && IsSuccess(last.response.status) {
      r := AcceptV2(d, fork, committeeIndex.value, last.response);
    } else {
      r := Err(ErrorOf(last));
    }
  }

  // ----- the bit test -----

  lemma {:induction false} Pow2Adds(a: nat, b: nat)
    ensures Pow2(a + b) == Pow2(a) * Pow2(b)
    decreases a
  {
    if a == 0 {
      assert Pow2(0) == 1;
    } else {
      Pow2Adds(a - 1, b);
      assert 2 * (Pow2(a - 1) * Pow2(b)) == (2 * Pow2(a - 1)) * Pow2(b);
    }
  }

  lemma {:induction false} Pow2OfBytes(k: nat)
    ensures Pow2(8 * k) == Pow256(k)
    decreases k
  {
    if k != 0 {
      Pow2OfBytes(k - 1);
      assert Pow2(8) == 256;
      Pow2Adds(8, 8 * (k - 1));
    }
  }

  lemma RemainderBound(r: nat, a: nat, b: nat, y: nat)
    requires r < b && y < a
    ensures r * a + y < b * a
  {
    assert (b - 1 - r) * a >= 0;
    assert (b - 1 - r) * a == b * a - a - r * a;
  }

  lemma Expand(q: nat, b: nat, r: nat, a: nat, y: nat)
    ensures (q * b + r) * a + y == q * (b * a) + (r * a + y)
  {
    assert (q * b + r) * a == (q * b) * a + r * a;
  }

  lemma NestedQuotient(n: nat, a: nat, b: nat, x: nat, y: nat, q: nat, r: nat)
    requires n == x * a + y && y < a && x == q * b + r && r < b
    ensures 0 < b * a && n / (b * a) == q
  {
    RemainderBound(r, a, b, y);
    Expand(q, b, r, a, y);
    QuotientIs(n, b * a, q, r * a + y);
  }

  lemma Quotient(n: nat, a: nat)
    requires 0 < a
    ensures n == (n / a) * a + n % a && n % a < a
  {
  }

  lemma DivDiv(n: nat, a: nat, b: nat, ab: nat)
    requires 0 < a && 0 < b && ab == b * a
    ensures 0 < ab && n / ab == (n / a) / b
  {
    Quotient(n, a);
    Quotient(n / a, b);
    NestedQuotient(n, a, b, n / a, n % a, (n / a) / b, (n / a) % b);
  }

  lemma ShiftedDiv(n: nat, p: nat, u: nat)
    requires 0 < p
    ensures (n + p * u) / p == n / p + u
  {
    var q, r := n / p, n % p;
    assert n == q * p + r;
    assert (q + u) * p == q * p + p * u;
    QuotientIs(n + p * u, p, q + u, r);
  }

  lemma EvenShift(q: nat, w: nat)
    ensures (q + 2 * w) % 2 == q % 2
  {
  }

  lemma Rescale(p: nat, m: nat, rest: nat)
    requires p * m == 128
    ensures p * (2 * (m * rest)) == 256 * rest
  {
  }

  /** Bits above the low byte do not reach the bit selected by `p <= 128`. */
  lemma LowByteBitAt(b: nat, rest: nat, p: nat, m: nat)
    requires 0 < p && p * m == 128
    ensures ((b + 256 * rest) / p) % 2 == (b / p) % 2
  {
    Rescale(p, m, rest);
    ShiftedDiv(b, p, 2 * (m * rest));
    EvenShift(b / p, m * rest);
  }

  lemma {:induction false} LowByteBit(b: nat, rest: nat, s: nat)
    requires s < 8
    ensures ((b + 256 * rest) / Pow2(s)) % 2 == (b / Pow2(s)) % 2
  {
    Pow2Adds(s, 7 - s);
    assert Pow2(7) == 128;
    LowByteBitAt(b, rest, Pow2(s), Pow2(7 - s));
  }

  lemma HighPart(v: nat, low: nat, high: nat, p: nat)
    requires v == low + p * high && low < p
    ensures v / p == high
  {
    ShiftedDiv(low, p, high);
    QuotientIs(low, p, 0, low);
  }

  lemma {:induction false} ValueFrom(bits: seq<byte>, k: nat)
    requires k < |bits|
    ensures Value(bits) / Pow256(k) == Value(bits[k..])
    ensures Value(bits[k..]) == bits[k] as int + 256 * Value(bits[k..][1..])
  {
    ValueSplit(bits, k);
    HighPart(Value(bits), Value(bits[..k]), Value(bits[k..]), Pow256(k));
  }

  lemma {:induction false} SplitShift(v: nat, k: nat, s: nat, index: nat)
    requires index == s + 8 * k
    ensures v / Pow2(index) == (v / Pow256(k)) / Pow2(s)
  {
    Pow2Adds(s, 8 * k);
    Pow2OfBytes(k);
    DivDiv(v, Pow256(k), Pow2(s), Pow2(index));
  }

  lemma {:induction false} BitInside(bits: seq<byte>, k: nat, s: nat, index: nat)
    requires k < |bits| && s < 8 && index == s + 8 * k
    ensures (Value(bits) / Pow2(index)) % 2 == (bits[k] as int / Pow2(s)) % 2
  {
    SplitShift(Value(bits), k, s, index);
    ValueFrom(bits, k);
    LowByteBit(bits[k], Value(bits[k..][1..]), s);
  }

  lemma {:induction false} BitOutside(bits: seq<byte>, k: nat, s: nat, index: nat)
    requires |bits| <= k && index == s + 8 * k
    ensures Value(bits) / Pow2(index) == 0
  {
    SplitShift(Value(bits), k, s, index);
    Pow256Monotone(|bits|, k);
    QuotientIs(Value(bits), Pow256(k), 0, Value(bits));
    QuotientIs(0, Pow2(s), 0, 0);
  }

  /** The byte-wise test reads bit `index` of the bit vector's little-endian value, and
      is false beyond its end, for every index. */
  lemma {:induction false} CommitteeBitIsBitOfValue(bits: seq<byte>, index: nat)
    ensures CommitteeBit(bits, index) <==> (Value(bits) / Pow2(index)) % 2 == 1
  {
    if index / 8 < |bits| {
      BitInside(bits, index / 8, index % 8, index);
    } else {
      BitOutside(bits, index / 8, index % 8, index);
    }
  }

  lemma {:induction false} Pow256Monotone(a: nat, b: nat)
    requires a <= b
    ensures Pow256(a) <= Pow256(b)
    decreases b
  {
    if a < b {
      Pow256Monotone(a, b - 1);
    }
  }
}
