/**
 * Classification of what the HTTP callback receives (transport error, status
 * code, status message, `retry-after` header, body) into exactly one outcome,
 * checked in the order of the callback's early returns. `JSON.parse` is the
 * parameter `parse`, which yields `None` where the real one throws.
 */
module Classification {
  import opened Options
  import opened Text

  datatype Response = Response(statusCode: nat, statusMessage: string, retryAfter: Option<string>, body: string)

  /**
   * How the returned promise settles. The callback resolves a 429 with the
   * header value exactly as it resolves a parsed body; `ResolveWaitTime`
   * marks that case so that it can be told apart here.
   */
  datatype Outcome<J> = Reject(message: string) | Resolve(value: J) | ResolveWaitTime(waitTime: Option<string>)

  /** The statuses with a fixed error message. */
  const KnownErrors: map<nat, string> := map[
    400 := "Bad Request",
    401 := "Unauthorized",
    403 := "Access Denied",
    404 := "Not Found",
    500 := "Internal Server Error"]

  /** The statuses of `KnownErrors`, in the order the callback tests them. */
  const KnownStatuses: seq<nat> := [400, 401, 403, 404, 500]

  const TransportPrefix: string := "Request Error: "
  const StatusPrefix: string := "Error code "
  const InvalidResponse: string := "Invalid response"

  function StatusErrorMessage(status: nat, statusMessage: string): string {
    StatusPrefix + NatToDecimal(status) + ": " + statusMessage
  }

  function Classify<J>(error: Option<string>, response: Response, parse: string -> Option<J>): (o: Outcome<J>)
    ensures o.Resolve? <==> error.None? && response.statusCode == 200 && parse(response.body).Some?
    ensures o.Resolve? ==> parse(response.body) == Some(o.value)
    ensures o.ResolveWaitTime? <==> error.None? && response.statusCode == 429
    ensures o.ResolveWaitTime? ==> o.waitTime == response.retryAfter
  {
    if error.Some? then Reject(TransportPrefix + error.value)
    // The five fixed-message tests come first; none of them is 429 or 200.
    else if response.statusCode in KnownErrors then Reject(KnownErrors[response.statusCode])
    else if response.statusCode == 429 then ResolveWaitTime(response.retryAfter)
    else if response.statusCode != 200 then Reject(StatusErrorMessage(response.statusCode, response.statusMessage))
    else match parse(response.body)
      case Some(json) => Resolve(json)
      case None => Reject(InvalidResponse)
  }

  /** A transport error rejects, whatever the response says. */
  lemma TransportErrorWins<J>(message: string, response: Response, parse: string -> Option<J>)
    ensures Classify(Some(message), response, parse) == Reject("Request Error: " + message)
  {
  }

  /** Each status with a fixed message rejects with that message. */
  lemma KnownStatusRejects<J>(response: Response, parse: string -> Option<J>)
    requires response.statusCode in KnownErrors
    ensures Classify(None, response, parse) == Reject(KnownErrors[response.statusCode])
    ensures response.statusCode == 400 ==> Classify(None, response, parse) == Reject("Bad Request")
    ensures response.statusCode == 401 ==> Classify(None, response, parse) == Reject("Unauthorized")
    ensures response.statusCode == 403 ==> Classify(None, response, parse) == Reject("Access Denied")
    ensures response.statusCode == 404 ==> Classify(None, response, parse) == Reject("Not Found")
    ensures response.statusCode == 500 ==> Classify(None, response, parse) == Reject("Internal Server Error")
  {
  }

  /**
   * Any other status except 200 and 429 rejects with `Error code <status>: <statusMessage>`,
   * where the digits are the plain decimal rendering of the status: no leading zero,
   * and they read back as the status.
   */
  lemma OtherStatusRejects<J>(response: Response, parse: string -> Option<J>)
    requires response.statusCode !in KnownErrors && response.statusCode != 200 && response.statusCode != 429
    ensures exists digits: string ::
      && |digits| >= 1
      && AllDigits(digits)
      && (digits[0] == '0' ==> digits == "0")
      && DecimalValue(digits) == response.statusCode
      && Classify(None, response, parse) == Reject("Error code " + digits + ": " + response.statusMessage)
  {
    var digits := NatToDecimal(response.statusCode);
    DecimalRoundTrip(response.statusCode);
    assert Classify(None, response, parse) == Reject("Error code " + digits + ": " + response.statusMessage);
  }

  /** A 200 whose body does not parse rejects with `Invalid response`. */
  lemma UnparsableBodyRejects<J>(response: Response, parse: string -> Option<J>)
    requires response.statusCode == 200 && parse(response.body).None?
    ensures Classify(None, response, parse) == Reject("Invalid response")
  {
  }

  /** What a rejection message says went wrong. */
  datatype Cause = TransportFailure(detail: string) | StatusFailure(status: nat) | Unrecognised

  /** The leading run of decimal digits of `s`. */
  function LeadingDigits(s: string): (d: string)
    ensures AllDigits(d) && d <= s
  {
    if s != [] && IsDigit(s[0]) then [s[0]] + LeadingDigits(s[1..]) else []
  }

  lemma {:induction false} LeadingDigitsOf(d: string, rest: string)
    requires AllDigits(d) && (rest == [] || !IsDigit(rest[0]))
    ensures LeadingDigits(d + rest) == d
  {
    if d == [] {
      assert d + rest == rest;
    } else {
      assert (d + rest)[1..] == d[1..] + rest;
      LeadingDigitsOf(d[1..], rest);
    }
  }

  /** The first of `codes` whose fixed message is `message`, if any. */
  function KnownStatusOf(message: string, codes: seq<nat>): (r: Option<nat>)
    requires forall c :: c in codes ==> c in KnownErrors
    ensures r.Some? ==> r.value in codes && KnownErrors[r.value] == message
    ensures r.None? ==> forall c :: c in codes ==> KnownErrors[c] != message
  {
    if codes == [] then None
    else if KnownErrors[codes[0]] == message then Some(codes[0])
    else KnownStatusOf(message, codes[1..])
  }

  /** No two statuses share a fixed message, and `KnownStatuses` lists exactly the statuses that have one. */
  lemma KnownErrorsInjective(c1: nat, c2: nat)
    requires c1 in KnownErrors && c2 in KnownErrors && KnownErrors[c1] == KnownErrors[c2]
    ensures c1 == c2
    ensures c1 in KnownStatuses
    ensures forall c :: c in KnownStatuses ==> c in KnownErrors
  {
  }

  /** Reads the cause back from a rejection message. */
  function RejectionCause(message: string): Cause {
    if TransportPrefix <= message then TransportFailure(message[|TransportPrefix|..])
    else if KnownStatusOf(message, KnownStatuses).Some? then StatusFailure(KnownStatusOf(message, KnownStatuses).value)
    else if message == InvalidResponse then StatusFailure(200)
    else if StatusPrefix <= message then StatusFailure(DecimalValue(LeadingDigits(message[|StatusPrefix|..])))
    else Unrecognised
  }

  /** What follows a prefix, with the prefix's first character in front. */
  lemma AfterPrefix(p: string, d: string, sep: string, rest: string)
    requires |p| > 0
    ensures (p + d + sep + rest)[0] == p[0]
    ensures p <= p + d + sep + rest
    ensures (p + d + sep + rest)[|p|..] == d + (sep + rest)
  {
  }

  /** Every fixed message opens with one of `B`, `U`, `A`, `N`, `I`. */
  lemma KnownMessagesOpen(c: nat)
    requires c in KnownErrors
    ensures |KnownErrors[c]| > 0 && KnownErrors[c][0] in "BUANI"
  {
  }

  /** A message opening with `E` is no transport error, fixed-status message or `Invalid response`. */
  lemma OpensWithE(message: string)
    requires |message| > 0 && message[0] == 'E'
    ensures !(TransportPrefix <= message) && message != InvalidResponse
    ensures KnownStatusOf(message, KnownStatuses).None?
  {
    assert message[0] != TransportPrefix[0];
    assert message[0] != InvalidResponse[0];
    var r := KnownStatusOf(message, KnownStatuses);
    if r.Some? {
      KnownMessagesOpen(r.value);
    }
  }

  lemma StatusMessageCause(status: nat, statusMessage: string)
    ensures RejectionCause(StatusErrorMessage(status, statusMessage)) == StatusFailure(status)
  {
    var digits := NatToDecimal(status);
    var m := StatusErrorMessage(status, statusMessage);
    AfterPrefix(StatusPrefix, digits, ": ", statusMessage);
    OpensWithE(m);
    LeadingDigitsOf(digits, ": " + statusMessage);
    DecimalRoundTrip(status);
  }

  /**
   * Every rejection names its cause: the transport error's message, or the
   * status code. So no two distinct causes share a rejection message.
   */
  lemma RejectionIdentifiesCause<J>(error: Option<string>, response: Response, parse: string -> Option<J>)
    requires Classify(error, response, parse).Reject?
    ensures RejectionCause(Classify(error, response, parse).message)
         == if error.Some? then TransportFailure(error.value) else StatusFailure(response.statusCode)
  {
    var m := Classify(error, response, parse).message;
    if error.Some? {
      assert m == TransportPrefix + error.value;
      assert m[|TransportPrefix|..] == error.value;
    } else if response.statusCode in KnownErrors || response.statusCode == 200 {
      assert m[0] != 'R';
    } else {
      StatusMessageCause(response.statusCode, response.statusMessage);
    }
  }
}
