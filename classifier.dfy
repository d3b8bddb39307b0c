/**
 * The status-decision list of `classify_with_reason`: the platform is
 * chosen by the URL (Bolt, then Wolt, then anything else) and within it a
 * fixed sequence of textual signals is tried; the first one found decides
 * the status and the reason shown to the operator.
 *
 * Every regular expression of the source is a `Pattern`; whether it is
 * found in a text is left to an abstract `Matcher`. The proofs are about
 * the order in which the signals are consulted, not about the expressions.
 */
module Classifier {
  import opened Wrappers
  import opened Text
  import opened Normalize

  datatype Pattern =
    | AvailabilityStatusClosed  // "availabilitystatus"\s*:\s*"closed"
    | AriaLabelClosed           // aria-label="[^"]*(închis|temporar|closed)[^"]*", ignoring case
    | InchisTemporar            // \binchis temporar\b
    | Inchis                    // \binchis\b
    | DeschideLa                // deschide la \d{1,2}[:.]\d{2}
    | TemporarilyClosed         // \btemporarily closed\b
    | IsOpenFalse               // "is_open"\s*:\s*false
    | IsOpenTrue                // "is_open"\s*:\s*true
    | ClosedWord                // \bclosed\b
    | OpenNow                   // \bopen now\b
    | DeschisAcum               // \bdeschis acum\b

  /** `re.search(pattern, text) is not None`. */
  type Matcher = (Pattern, string) -> bool

  /**
   * What the classifier reads besides the URL and the page: the text
   * library, the pattern matcher and the ASSUME_CLOSED_WHEN_UNCERTAIN_BOLT
   * setting.
   */
  datatype Env = Env(lib: TextLib, matcher: Matcher, assumeClosedBolt: bool)

  // ── statuses and verdicts ─────────────────────────────────────────────────

  /** The four statuses, with the HTTP-failure form of Closed carrying its code. */
  datatype Status = Open | Closed | ClosedHttp(code: nat) | Uncertain | Error

  datatype Verdict = Verdict(status: Status, reason: string)

  predicate IsClosed(s: Status)
  {
    s.Closed? || s.ClosedHttp?
  }

  const ClosedLabel: string := "🔴 Închis"

  /** The status string the dashboard shows. */
  function Label(s: Status): string
  {
    match s
    case Open => "🟢 Deschis"
    case Closed => ClosedLabel
    case ClosedHttp(code) => ClosedLabel + " (" + NatToDecimal(code) + ")"
    case Uncertain => "🟡 Nedetectabil"
    case Error => "❌ Eroare"
  }

  function LabelMark(s: Status): char
  {
    match s
    case Open => '🟢'
    case Closed => '🔴'
    case ClosedHttp(_) => '🔴'
    case Uncertain => '🟡'
    case Error => '❌'
  }

  /** Different statuses are shown as different strings, so `Status` loses nothing of the source's strings. */
  lemma LabelInjective(a: Status, b: Status)
    requires Label(a) == Label(b)
    ensures a == b
  {
    if a.ClosedHttp? && b.ClosedHttp? {
      var n := |ClosedLabel + " ("|;
      assert NatToDecimal(a.code) == Label(a)[n..|Label(a)| - 1];
      assert NatToDecimal(b.code) == Label(b)[n..|Label(b)| - 1];
      DecimalInjective(a.code, b.code);
    } else if !a.ClosedHttp? && !b.ClosedHttp? {
      assert Label(a)[0] == Label(b)[0];
      assert Label(a)[0] == LabelMark(a) && Label(b)[0] == LabelMark(b);
    } else {
      LabelShape(a);
      LabelShape(b);
      assert false;
    }
  }

  lemma LabelShape(s: Status)
    ensures Label(s) != [] && Label(s)[0] == LabelMark(s)
    ensures s.ClosedHttp? ==> |Label(s)| > |ClosedLabel| && Label(s)[..|ClosedLabel|] == ClosedLabel
    ensures s.Closed? ==> Label(s) == ClosedLabel
  {
  }

  // ── where each pattern is looked for ─────────────────────────────────────

  /**
   * The text a rule tests: the raw page, the normalised document, the
   * document or its ASCII shadow, or the availability info block or its
   * ASCII shadow.
   */
  datatype Where = RawPage | Document | DocumentOrAscii | Block

  /** `if avail_frag:` — the block was found and is not empty. */
  predicate HasBlock(pg: Page)
  {
    pg.availInfo.Some? && pg.availInfo.value != []
  }

  predicate Found(m: Matcher, pat: Pattern, where: Where, pg: Page)
  {
    match where
    case RawPage => m(pat, pg.raw)
    case Document => m(pat, pg.text)
    case DocumentOrAscii => m(pat, pg.text) || m(pat, pg.textAscii)
    case Block =>
      && HasBlock(pg)
      && (|| m(pat, pg.availInfo.value)
          || (pg.availInfoAscii.Some? && pg.availInfoAscii.value != [] && m(pat, pg.availInfoAscii.value)))
  }

  // ── reasons ───────────────────────────────────────────────────────────────

  const BoltJsonClosed: string := "Bolt JSON availabilityStatus=closed"
  const BoltAriaLabel: string := "Bolt aria-label: conține 'închis/temporar/closed'"
  const BoltBlockInchisTemporar: string := "Bolt availabilityInfo: „Închis temporar”"
  const BoltBlockInchis: string := "Bolt availabilityInfo: „Închis”"
  const BoltBlockDeschideLa: string := "Bolt availabilityInfo: „Deschide la HH:MM”"
  const BoltBlockTemporarilyClosed: string := "Bolt availabilityInfo: „temporarily closed”"
  const BoltUiInchisTemporar: string := "Bolt UI: „Închis temporar”"
  const BoltUiInchis: string := "Bolt UI: „Închis”"
  const BoltUiTemporarilyClosed: string := "Bolt UI: „temporarily closed”"
  const BoltUiDeschideLa: string := "Bolt UI: „Deschide la HH:MM”"
  const BoltAssumeClosed: string := "Bolt: fallback ‘assume closed’ (nedetectabil)"
  const BoltNoSignal: string := "Bolt: niciun semnal clar (nici closed, nici opens-at)"
  const WoltJsonClosed: string := "Wolt JSON is_open=false"
  const WoltJsonOpen: string := "Wolt JSON is_open=true"
  const WoltUiClosed: string := "Wolt UI: conține „închis/closed”"
  const WoltNoSignal: string := "Wolt: is_open absent/nedetectabil"
  const GenericClosed: string := "Text generic: ‘closed/închis’"
  const GenericOpen: string := "Text generic: ‘open now/deschis acum’"
  const GenericNoSignal: string := "Fără semnale în HTML"

  // ── the three branches ────────────────────────────────────────────────────

  /** The closed wordings Bolt looks for in the block and then in the whole document. */
  const BoltWordings: set<Pattern> := {InchisTemporar, Inchis, DeschideLa, TemporarilyClosed}

  /** Some Bolt closed signal is present, wherever it is and whatever else the page says. */
  predicate BoltClosedSignal(m: Matcher, pg: Page)
  {
    || Found(m, AvailabilityStatusClosed, Document, pg)
    || Found(m, AriaLabelClosed, RawPage, pg)
    || exists pat :: pat in BoltWordings && (Found(m, pat, Block, pg) || Found(m, pat, DocumentOrAscii, pg))
  }

  /** The Bolt branch: embedded JSON, aria-label, the block, the whole document, then the fallback. */
  function ClassifyBolt(m: Matcher, pg: Page, assumeClosed: bool): (v: Verdict)
    ensures v.status == Closed || v.status == Uncertain
    ensures v.status == Closed <==> BoltClosedSignal(m, pg) || assumeClosed
    ensures Found(m, AvailabilityStatusClosed, Document, pg) ==> v.reason == BoltJsonClosed
    ensures !BoltClosedSignal(m, pg) ==> v.reason == if assumeClosed then BoltAssumeClosed else BoltNoSignal
    ensures v.reason != []
  {
    if Found(m, AvailabilityStatusClosed, Document, pg) then Verdict(Closed, BoltJsonClosed)
    else if Found(m, AriaLabelClosed, RawPage, pg) then Verdict(Closed, BoltAriaLabel)
    else if Found(m, InchisTemporar, Block, pg) then Verdict(Closed, BoltBlockInchisTemporar)
    else if Found(m, Inchis, Block, pg) then Verdict(Closed, BoltBlockInchis)
    else if Found(m, DeschideLa, Block, pg) then Verdict(Closed, BoltBlockDeschideLa)
    else if Found(m, TemporarilyClosed, Block, pg) then Verdict(Closed, BoltBlockTemporarilyClosed)
    else if Found(m, InchisTemporar, DocumentOrAscii, pg) then Verdict(Closed, BoltUiInchisTemporar)
    else if Found(m, Inchis, DocumentOrAscii, pg) then Verdict(Closed, BoltUiInchis)
    else if Found(m, TemporarilyClosed, DocumentOrAscii, pg) then Verdict(Closed, BoltUiTemporarilyClosed)
    else if Found(m, DeschideLa, DocumentOrAscii, pg) then Verdict(Closed, BoltUiDeschideLa)
    else if assumeClosed then Verdict(Closed, BoltAssumeClosed)
    else Verdict(Uncertain, BoltNoSignal)
  }

  /** The Wolt branch: the JSON flag, false before true, then UI wording. */
  function ClassifyWolt(m: Matcher, pg: Page): (v: Verdict)
    ensures v.status == Open || v.status == Closed || v.status == Uncertain
    ensures v.status == Open <==> !m(IsOpenFalse, pg.text) && m(IsOpenTrue, pg.text)
    ensures v.status == Uncertain <==>
      !m(IsOpenFalse, pg.text) && !m(IsOpenTrue, pg.text) && !m(Inchis, pg.text) && !m(ClosedWord, pg.text)
    ensures m(IsOpenFalse, pg.text) ==> v.reason == WoltJsonClosed
    ensures v.reason != []
  {
    if m(IsOpenFalse, pg.text) then Verdict(Closed, WoltJsonClosed)
    else if m(IsOpenTrue, pg.text) then Verdict(Open, WoltJsonOpen)
    else if m(Inchis, pg.text) || m(ClosedWord, pg.text) then Verdict(Closed, WoltUiClosed)
    else Verdict(Uncertain, WoltNoSignal)
  }

  /** Any other site: closed wording before open wording. */
  function ClassifyGeneric(m: Matcher, pg: Page): (v: Verdict)
    ensures v.status == Open || v.status == Closed || v.status == Uncertain
    ensures v.status == Closed <==> m(ClosedWord, pg.text) || m(Inchis, pg.text)
    ensures v.status == Open <==>
      !m(ClosedWord, pg.text) && !m(Inchis, pg.text) && (m(OpenNow, pg.text) || m(DeschisAcum, pg.text))
    ensures v.reason != []
  {
    if m(ClosedWord, pg.text) || m(Inchis, pg.text) then Verdict(Closed, GenericClosed)
    else if m(OpenNow, pg.text) || m(DeschisAcum, pg.text) then Verdict(Open, GenericOpen)
    else Verdict(Uncertain, GenericNoSignal)
  }

  predicate IsBoltUrl(url: string)
  {
    Contains(url, "bolt.eu")
  }

  predicate IsWoltUrl(url: string)
  {
    Contains(url, "wolt.com")
  }

  /** The decision on an already normalised page. */
  function ClassifyPage(url: string, pg: Page, m: Matcher, assumeClosedBolt: bool): (v: Verdict)
    ensures v.status == Open || v.status == Closed || v.status == Uncertain
    ensures v.reason != []
    ensures IsBoltUrl(url) ==> v.status != Open
    ensures IsBoltUrl(url) && Found(m, AvailabilityStatusClosed, Document, pg) ==> v == Verdict(Closed, BoltJsonClosed)
    ensures !IsBoltUrl(url) && IsWoltUrl(url) && m(IsOpenFalse, pg.text) ==> v == Verdict(Closed, WoltJsonClosed)
  {
    if IsBoltUrl(url) then ClassifyBolt(m, pg, assumeClosedBolt)
    else if IsWoltUrl(url) then ClassifyWolt(m, pg)
    else ClassifyGeneric(m, pg)
  }

  /** `classify_with_reason(url, html)`: normalise the page, then decide. */
  function ClassifyWithReason(url: string, html: string, env: Env): (v: Verdict)
    ensures v.status == Open || v.status == Closed || v.status == Uncertain
    ensures v.reason != []
    ensures IsBoltUrl(url) ==> v.status != Open
  {
    ClassifyPage(url, PreparePage(env.lib, html), env.matcher, env.assumeClosedBolt)
  }

  /**
   * ASSUME_CLOSED_WHEN_UNCERTAIN_BOLT changes a verdict only on a Bolt page
   * that would otherwise be Uncertain, and then only into Closed with the
   * "assume closed" reason.
   */
  lemma ToggleOnlyTurnsBoltUncertainIntoClosed(url: string, pg: Page, m: Matcher)
    ensures ClassifyPage(url, pg, m, true) ==
      if IsBoltUrl(url) && ClassifyPage(url, pg, m, false).status == Uncertain
      then Verdict(Closed, BoltAssumeClosed)
      else ClassifyPage(url, pg, m, false)
  {
  }

  // ── the decision list as data ─────────────────────────────────────────────

  /** One row of a decision list: look for `pattern` in `where`; if found, answer `verdict`. */
  datatype Rule = Rule(pattern: Pattern, where: Where, verdict: Verdict)

  predicate Fires(r: Rule, m: Matcher, pg: Page)
  {
    Found(m, r.pattern, r.where, pg)
  }

  /** Rule `i` fires and no rule before it does. */
  predicate FirstToFire(rules: seq<Rule>, m: Matcher, pg: Page, i: nat)
  {
    i < |rules| && Fires(rules[i], m, pg) && forall j :: 0 <= j < i ==> !Fires(rules[j], m, pg)
  }

  /** The verdict of the first rule that fires, or `fallback`. */
  function FirstMatch(rules: seq<Rule>, m: Matcher, pg: Page, fallback: Verdict): (v: Verdict)
    ensures (forall i :: 0 <= i < |rules| ==> !Fires(rules[i], m, pg)) ==> v == fallback
    ensures forall i: nat :: FirstToFire(rules, m, pg, i) ==> v == rules[i].verdict
  {
    if rules == [] then fallback
    else if Fires(rules[0], m, pg) then rules[0].verdict
    else
      var v := FirstMatch(rules[1..], m, pg, fallback);
      assert forall i: nat :: FirstToFire(rules, m, pg, i) ==> v == rules[i].verdict by {
        forall i: nat | FirstToFire(rules, m, pg, i)
          ensures v == rules[i].verdict
        {
          assert FirstToFire(rules[1..], m, pg, i - 1);
        }
      }
      v
  }

  const BoltRules: seq<Rule> := [
    Rule(AvailabilityStatusClosed, Document, Verdict(Closed, BoltJsonClosed)),
    Rule(AriaLabelClosed, RawPage, Verdict(Closed, BoltAriaLabel)),
    Rule(InchisTemporar, Block, Verdict(Closed, BoltBlockInchisTemporar)),
    Rule(Inchis, Block, Verdict(Closed, BoltBlockInchis)),
    Rule(DeschideLa, Block, Verdict(Closed, BoltBlockDeschideLa)),
    Rule(TemporarilyClosed, Block, Verdict(Closed, BoltBlockTemporarilyClosed)),
    Rule(InchisTemporar, DocumentOrAscii, Verdict(Closed, BoltUiInchisTemporar)),
    Rule(Inchis, DocumentOrAscii, Verdict(Closed, BoltUiInchis)),
    Rule(TemporarilyClosed, DocumentOrAscii, Verdict(Closed, BoltUiTemporarilyClosed)),
    Rule(DeschideLa, DocumentOrAscii, Verdict(Closed, BoltUiDeschideLa))
  ]

  function BoltFallback(assumeClosed: bool): Verdict
  {
    if assumeClosed then Verdict(Closed, BoltAssumeClosed) else Verdict(Uncertain, BoltNoSignal)
  }

  const WoltRules: seq<Rule> := [
    Rule(IsOpenFalse, Document, Verdict(Closed, WoltJsonClosed)),
    Rule(IsOpenTrue, Document, Verdict(Open, WoltJsonOpen)),
    Rule(Inchis, Document, Verdict(Closed, WoltUiClosed)),
    Rule(ClosedWord, Document, Verdict(Closed, WoltUiClosed))
  ]

  const GenericRules: seq<Rule> := [
    Rule(ClosedWord, Document, Verdict(Closed, GenericClosed)),
    Rule(Inchis, Document, Verdict(Closed, GenericClosed)),
    Rule(OpenNow, Document, Verdict(Open, GenericOpen)),
    Rule(DeschisAcum, Document, Verdict(Open, GenericOpen))
  ]

  /** The Bolt branch is exactly the Bolt decision list read top to bottom. */
  lemma BoltIsDecisionList(m: Matcher, pg: Page, assumeClosed: bool)
    ensures ClassifyBolt(m, pg, assumeClosed) == FirstMatch(BoltRules, m, pg, BoltFallback(assumeClosed))
  {
    if exists i :: 0 <= i < 5 && Fires(BoltRules[i], m, pg) {
      BoltJsonAriaOrBlock(m, pg, assumeClosed);
    } else {
      BoltDocumentOrFallback(m, pg, assumeClosed);
    }
  }

  /** The first five Bolt rules: the JSON status, the aria-label and the four block wordings. */
  lemma BoltJsonAriaOrBlock(m: Matcher, pg: Page, assumeClosed: bool)
    requires exists i :: 0 <= i < 5 && Fires(BoltRules[i], m, pg)
    ensures ClassifyBolt(m, pg, assumeClosed) == FirstMatch(BoltRules, m, pg, BoltFallback(assumeClosed))
  {
    if Fires(BoltRules[0], m, pg) {
      assert FirstToFire(BoltRules, m, pg, 0);
    } else if Fires(BoltRules[1], m, pg) {
      assert FirstToFire(BoltRules, m, pg, 1);
    } else if Fires(BoltRules[2], m, pg) {
      assert FirstToFire(BoltRules, m, pg, 2);
    } else if Fires(BoltRules[3], m, pg) {
      assert FirstToFire(BoltRules, m, pg, 3);
    } else {
      var i :| 0 <= i < 5 && Fires(BoltRules[i], m, pg);
      assert i == 4;
      assert FirstToFire(BoltRules, m, pg, 4);
    }
  }

  /** Once the first five Bolt rules stay silent: the four document wordings, then the fallback. */
  lemma BoltDocumentOrFallback(m: Matcher, pg: Page, assumeClosed: bool)
    requires forall i :: 0 <= i < 5 ==> !Fires(BoltRules[i], m, pg)
    ensures ClassifyBolt(m, pg, assumeClosed) == FirstMatch(BoltRules, m, pg, BoltFallback(assumeClosed))
  {
    assert !Fires(BoltRules[0], m, pg) && !Fires(BoltRules[1], m, pg) && !Fires(BoltRules[2], m, pg);
    assert !Fires(BoltRules[3], m, pg) && !Fires(BoltRules[4], m, pg);
    if Fires(BoltRules[5], m, pg) {
      assert FirstToFire(BoltRules, m, pg, 5);
    } else if Fires(BoltRules[6], m, pg) {
      assert FirstToFire(BoltRules, m, pg, 6);
    } else if Fires(BoltRules[7], m, pg) {
      assert FirstToFire(BoltRules, m, pg, 7);
    } else if Fires(BoltRules[8], m, pg) {
      assert FirstToFire(BoltRules, m, pg, 8);
    } else if Fires(BoltRules[9], m, pg) {
      assert FirstToFire(BoltRules, m, pg, 9);
    }
  }

  /**
   * Precedence on Bolt pages: when rule `i` is the first of the list to
   * fire, its verdict is the answer, whatever the later rules would say.
   */
  lemma BoltPrecedence(m: Matcher, pg: Page, assumeClosed: bool, i: nat)
    requires FirstToFire(BoltRules, m, pg, i)
    ensures ClassifyBolt(m, pg, assumeClosed) == BoltRules[i].verdict
  {
    BoltIsDecisionList(m, pg, assumeClosed);
  }

  lemma WoltIsDecisionList(m: Matcher, pg: Page)
    ensures ClassifyWolt(m, pg) == FirstMatch(WoltRules, m, pg, Verdict(Uncertain, WoltNoSignal))
  {
    if Fires(WoltRules[0], m, pg) {
      assert FirstToFire(WoltRules, m, pg, 0);
    } else if Fires(WoltRules[1], m, pg) {
      assert FirstToFire(WoltRules, m, pg, 1);
    } else if Fires(WoltRules[2], m, pg) {
      assert FirstToFire(WoltRules, m, pg, 2);
    } else if Fires(WoltRules[3], m, pg) {
      assert FirstToFire(WoltRules, m, pg, 3);
    }
  }

  lemma GenericIsDecisionList(m: Matcher, pg: Page)
    ensures ClassifyGeneric(m, pg) == FirstMatch(GenericRules, m, pg, Verdict(Uncertain, GenericNoSignal))
  {
    if Fires(GenericRules[0], m, pg) {
      assert FirstToFire(GenericRules, m, pg, 0);
    } else if Fires(GenericRules[1], m, pg) {
      assert FirstToFire(GenericRules, m, pg, 1);
    } else if Fires(GenericRules[2], m, pg) {
      assert FirstToFire(GenericRules, m, pg, 2);
    } else if Fires(GenericRules[3], m, pg) {
      assert FirstToFire(GenericRules, m, pg, 3);
    }
  }
}
