/**
 * `fetch_status_and_reason`: the verdict for one URL from what fetching its
 * page produced. The request itself (headers, timeout, the network) is not
 * modelled; its outcome is an input.
 */
module Fetch {
  import opened Text
  import opened Classifier

  /** What `requests.get(url, ...)` produced: an exception with its text, or a response. */
  datatype FetchOutcome = Raised(message: string) | Response(statusCode: int, body: string)

  const NetworkErrorPrefix: string := "Eroare rețea: "
  const HttpPrefix: string := "HTTP "

  /** How many characters of an exception's text the reason keeps. */
  const MessageLimit: nat := 140

  /** Python's `s[:n]`. */
  function Truncate(s: string, n: nat): (r: string)
    ensures |r| <= n && r <= s
    ensures |r| == n || r == s
  {
    if |s| <= n then s else s[..n]
  }

  function FetchStatusAndReason(url: string, outcome: FetchOutcome, env: Env): (v: Verdict)
    ensures v.status == Error <==> outcome.Raised?
    ensures v.status.ClosedHttp? <==> outcome.Response? && outcome.statusCode >= 400
    ensures v.status.ClosedHttp? ==> v.status.code == outcome.statusCode && v.reason == HttpPrefix + NatToDecimal(v.status.code)
    ensures outcome.Raised? ==>
      && NetworkErrorPrefix <= v.reason
      && |v.reason| <= |NetworkErrorPrefix| + MessageLimit
      && v.reason[|NetworkErrorPrefix|..] <= outcome.message
      && (|outcome.message| <= MessageLimit ==> v.reason == NetworkErrorPrefix + outcome.message)
      && (|outcome.message| > MessageLimit ==> v.reason == NetworkErrorPrefix + outcome.message[..MessageLimit])
    ensures outcome.Response? && outcome.statusCode < 400 ==> v == ClassifyWithReason(url, outcome.body, env)
    ensures v.reason != []
  {
    match outcome
    case Raised(msg) => Verdict(Error, NetworkErrorPrefix + Truncate(msg, MessageLimit))
    case Response(code, body) =>
      if code >= 400 then Verdict(ClosedHttp(code), HttpPrefix + NatToDecimal(code))
      else ClassifyWithReason(url, body, env)
  }

  /** On an HTTP failure the body is never classified: any two bodies give the same verdict. */
  lemma HttpFailureIgnoresBody(url: string, code: int, body1: string, body2: string, env1: Env, env2: Env)
    requires code >= 400
    ensures FetchStatusAndReason(url, Response(code, body1), env1) == FetchStatusAndReason(url, Response(code, body2), env2)
  {
  }

  /** The code can be read back from an HTTP-failure reason, and it is the code in the status. */
  lemma HttpReasonCarriesCode(url: string, outcome: FetchOutcome, env: Env)
    requires outcome.Response? && outcome.statusCode >= 400
    ensures var v := FetchStatusAndReason(url, outcome, env);
      && HttpPrefix <= v.reason
      && var digits := v.reason[|HttpPrefix|..];
         (forall i :: 0 <= i < |digits| ==> IsDigit(digits[i])) && DecimalValue(digits) == outcome.statusCode
  {
    var v := FetchStatusAndReason(url, outcome, env);
    assert v.reason[|HttpPrefix|..] == NatToDecimal(outcome.statusCode);
    DecimalRoundTrip(outcome.statusCode);
  }
}
