/** The fair-practice heuristics: four independent checks, each run on the
    first clause that mentions its topic, in the order payment terms,
    termination notice, liability cap, jurisdiction. The baseline rows come
    from the database; a failed read is the empty list. */
module DeviationChecker {
  import opened Wrappers
  import opened JsText
  import opened ContractTypes
  import opened Sequences

  /** One row of the fair-contract baseline table. An empty `fairStandard`
      stands for a column that is empty or missing. */
  datatype Baseline = Baseline(category: string, fairStandard: string)

  // ---------------------------------------------------------------------------
  // Lookups
  // ---------------------------------------------------------------------------

  /** `c.text.toLowerCase().includes(a) || c.text.toLowerCase().includes(b)` */
  function MentionsEither(a: string, b: string): Clause -> bool {
    (c: Clause) => Includes(Lower(c.text), a) || Includes(Lower(c.text), b)
  }

  /** `clauses.find(...)` for the clause that mentions `a` or `b`. */
  function FirstMentioning(clauses: seq<Clause>, a: string, b: string): (r: Option<Clause>)
    ensures r.Some? ==> r.value in clauses && MentionsEither(a, b)(r.value)
  {
    FirstWhere(clauses, MentionsEither(a, b))
  }

  function HasCategory(category: string): Baseline -> bool {
    (b: Baseline) => b.category == category
  }

  /** `baselines.find(b => b.clause_category === category)?.fair_standard || default` */
  function FairStandard(baselines: seq<Baseline>, category: string, default: string): (r: string)
    ensures r == default || exists b :: b in baselines && b.category == category && r == b.fairStandard
  {
    match FirstWhere(baselines, HasCategory(category))
    case Some(b) => OrElse(b.fairStandard, default)
    case None => default
  }

  // ---------------------------------------------------------------------------
  // /(\d+)\s*days?/i
  // ---------------------------------------------------------------------------

  /** Case-insensitive "day" at `w`. */
  predicate DayAt(s: string, w: nat) {
    w + 3 <= |s| && LowerChar(s[w]) == 'd' && LowerChar(s[w + 1]) == 'a' && LowerChar(s[w + 2]) == 'y'
  }

  /** The pattern matches at `p`: the greedy digit run from `p`, then any
      spaces, then "day". Giving back digits cannot help, since "day" does
      not start with a digit, so this is the only way it can match there. */
  predicate DaysMatchAt(s: string, p: nat) {
    p < |s| && IsDigit(s[p]) && DayAt(s, Skip(s, Skip(s, p, Digit), Space))
  }

  /** `parseInt` of the digit run starting at `p`. */
  function RunValue(s: string, p: nat): nat
    requires p <= |s|
  {
    SkipRun(s, p, Digit);
    DigitsValue(s[p..Skip(s, p, Digit)])
  }

  /** The number in the leftmost match at or after `p`. */
  function DaysFrom(s: string, p: nat): Option<nat>
    decreases |s| - p
  {
    if p >= |s| then None
    else if DaysMatchAt(s, p) then Some(RunValue(s, p))
    else DaysFrom(s, p + 1)
  }

  /** `parseInt(text.match(/(\d+)\s*days?/i)[1])`, or `None` when there is no
      match. */
  function DaysIn(s: string): Option<nat> {
    DaysFrom(s, 0)
  }

  // ---------------------------------------------------------------------------
  // The four deviations
  // ---------------------------------------------------------------------------

  /** The payment deviation for a day count: none up to 60 days. */
  function PaymentTermsDeviation(days: nat, fairStandard: string): Option<Deviation> {
    if days > 90 then
      Some(Deviation(
        "Payment Terms",
        "Net " + NatToString(days) + " days",
        fairStandard,
        Extreme,
        "Your contract has " + NatToString(days) + ("-day payment " + "terms, which is ") +
        NatToString(days - 30) +
        (" days beyond " + "the standard " + "Net 30. This " +
         "creates " + "significant " + "cash flow risk " + "for " +
         "freelancers.")))
    else if days > 60 then
      Some(Deviation(
        "Payment Terms",
        "Net " + NatToString(days) + " days",
        fairStandard,
        Significant,
        "Payment terms " + "are " + NatToString(days - 30) +
        (" days beyond " + "industry " + "standard.")))
    else None
  }

  function TerminationNoticeDeviation(fairStandard: string): Deviation {
    Deviation(
      "Termination " + "Notice",
      "Immediate " + "termination " + "without notice",
      fairStandard,
      Significant,
      "Client can " + "terminate " + "instantly " +
      "without notice " + "period, " + "leaving you " +
      "without income. " + "Fair contracts " + "have 15-30 day " +
      "notice periods.")
  }

  function LiabilityCapDeviation(fairStandard: string): Deviation {
    Deviation(
      "Liability Cap",
      "Unlimited " + "liability",
      fairStandard,
      Extreme,
      "You could be " + "forced to pay " + "unlimited " +
      "damages. Fair " + "contracts cap " + "liability at " +
      "the project " + "value.")
  }

  function ForeignJurisdictionDeviation(): Deviation {
    Deviation(
      "Jurisdiction",
      "Foreign " + "jurisdiction " + "(non-Indian)",
      "Indian courts",
      Significant,
      "Disputes must " + "be resolved in " + "foreign courts, " +
      "which is " + "expensive and " + "impractical " +
      "for Indian " + "freelancers. " + "This heavily " +
      "favors the " + "client.")
  }

  /** The names whose (case-sensitive) presence marks a foreign forum. */
  function ForeignNames(): seq<string> {
    ["USA", "United States", "UK", "United Kingdom", "Singapore", "Delaware", "California", "New York"]
  }

  function NameIn(text: string): string -> bool {
    (name: string) => Includes(text, name)
  }

  /** `foreignCountries.some(country => text.includes(country))` */
  predicate NamesForeignForum(text: string) {
    FirstWhere(ForeignNames(), NameIn(text)).Some?
  }

  function PaymentCheck(clauses: seq<Clause>, baselines: seq<Baseline>): Option<Deviation> {
    match FirstMentioning(clauses, "payment", "invoice")
    case None => None
    case Some(c) =>
      match DaysIn(c.text)
      case None => None
      case Some(days) => PaymentTermsDeviation(days, FairStandard(baselines, "payment_terms", "Net 30 days"))
  }

  function TerminationCheck(clauses: seq<Clause>, baselines: seq<Baseline>): Option<Deviation> {
    match FirstMentioning(clauses, "terminate", "termination")
    case Some(c) =>
      if Includes(Lower(c.text), "immediate") then
        Some(TerminationNoticeDeviation(FairStandard(baselines, "termination_notice", "15-30 days " + "written notice")))
      else None
    case None => None
  }

  function LiabilityCheck(clauses: seq<Clause>, baselines: seq<Baseline>): Option<Deviation> {
    match FirstMentioning(clauses, "liability", "indemnify")
    case Some(c) =>
      if Includes(Lower(c.text), "unlimited") then
        Some(LiabilityCapDeviation(FairStandard(baselines, "liability_cap", "Capped at " + "contract value")))
      else None
    case None => None
  }

  function JurisdictionCheck(clauses: seq<Clause>): Option<Deviation> {
    match FirstMentioning(clauses, "jurisdiction", "governed by")
    case Some(c) => if NamesForeignForum(c.text) then Some(ForeignJurisdictionDeviation()) else None
    case None => None
  }

  /** What a conditional push adds: the value if there is one. */
  function AsList<T>(d: Option<T>): seq<T> {
    match d
    case Some(x) => [x]
    case None => []
  }

  /** All deviations, in check order. */
  function Deviations(clauses: seq<Clause>, baselines: seq<Baseline>): seq<Deviation> {
    AsList(PaymentCheck(clauses, baselines)) + AsList(TerminationCheck(clauses, baselines)) +
    AsList(LiabilityCheck(clauses, baselines)) + AsList(JurisdictionCheck(clauses))
  }

  // ---------------------------------------------------------------------------
  // checkDeviationsFromFairContract
  // ---------------------------------------------------------------------------

  /** The four checks in order, each pushing at most one deviation. */
  method CheckDeviationsFromFairContract(clauses: seq<Clause>, baselines: seq<Baseline>)
    returns (deviations: seq<Deviation>)
    ensures deviations == Deviations(clauses, baselines)
  {
    deviations := [];
    deviations := CheckPaymentTerms(clauses, baselines, deviations);
    assert deviations == AsList(PaymentCheck(clauses, baselines));
    deviations := CheckTerminationNotice(clauses, baselines, deviations);
    deviations := CheckLiabilityCap(clauses, baselines, deviations);
    deviations := CheckJurisdiction(clauses, deviations);
  }

  /** The payment block: the day count of the first clause mentioning
      payment or an invoice, against the 60- and 90-day bands. */
  method CheckPaymentTerms(clauses: seq<Clause>, baselines: seq<Baseline>, deviations: seq<Deviation>)
    returns (pushed: seq<Deviation>)
    ensures pushed == deviations + AsList(PaymentCheck(clauses, baselines))
  {
    pushed := deviations;
    var paymentClause := FirstMentioning(clauses, "payment", "invoice");
    if paymentClause.Some? {
      var fairStandard := FairStandard(baselines, "payment_terms", "Net 30 days");
      var daysMatch := DaysIn(paymentClause.value.text);
      if daysMatch.Some? {
        var days := daysMatch.value;
        if days > 60 {
          pushed := pushed + [PaymentTermsDeviation(days, fairStandard).value];
        }
      }
    }
  }

  /** The termination block. */
  method CheckTerminationNotice(clauses: seq<Clause>, baselines: seq<Baseline>, deviations: seq<Deviation>)
    returns (pushed: seq<Deviation>)
    ensures pushed == deviations + AsList(TerminationCheck(clauses, baselines))
  {
    pushed := deviations;
    var terminationClause := FirstMentioning(clauses, "terminate", "termination");
    if terminationClause.Some? && Includes(Lower(terminationClause.value.text), "immediate") {
      var fairStandard := FairStandard(baselines, "termination_notice", "15-30 days " + "written notice");
      pushed := pushed + [TerminationNoticeDeviation(fairStandard)];
    }
  }

  /** The liability block. */
  method CheckLiabilityCap(clauses: seq<Clause>, baselines: seq<Baseline>, deviations: seq<Deviation>)
    returns (pushed: seq<Deviation>)
    ensures pushed == deviations + AsList(LiabilityCheck(clauses, baselines))
  {
    pushed := deviations;
    var liabilityClause := FirstMentioning(clauses, "liability", "indemnify");
    if liabilityClause.Some? && Includes(Lower(liabilityClause.value.text), "unlimited") {
      var fairStandard := FairStandard(baselines, "liability_cap", "Capped at " + "contract value");
      pushed := pushed + [LiabilityCapDeviation(fairStandard)];
    }
  }

  /** The jurisdiction block: no baseline is consulted. */
  method CheckJurisdiction(clauses: seq<Clause>, deviations: seq<Deviation>) returns (pushed: seq<Deviation>)
    ensures pushed == deviations + AsList(JurisdictionCheck(clauses))
  {
    pushed := deviations;
    var jurisdictionClause := FirstMentioning(clauses, "jurisdiction", "governed by");
    if jurisdictionClause.Some? && NamesForeignForum(jurisdictionClause.value.text) {
      pushed := pushed + [ForeignJurisdictionDeviation()];
    }
  }

  // ---------------------------------------------------------------------------
  // Properties
  // ---------------------------------------------------------------------------

  /** The day count is the number in the leftmost match; there is none
      exactly when the pattern matches nowhere. */
  lemma {:induction false} DaysFromIsLeftmost(s: string, p: nat)
    ensures DaysFrom(s, p).None? <==> forall q: nat :: p <= q ==> !DaysMatchAt(s, q)
    ensures DaysFrom(s, p).Some? ==>
      exists q: nat :: p <= q && DaysMatchAt(s, q) && DaysFrom(s, p).value == RunValue(s, q) &&
        forall q': nat :: p <= q' < q ==> !DaysMatchAt(s, q')
    decreases |s| - p
  {
    if p < |s| && !DaysMatchAt(s, p) {
      DaysFromIsLeftmost(s, p + 1);
      if DaysFrom(s, p).Some? {
        var q: nat :| p + 1 <= q && DaysMatchAt(s, q) && DaysFrom(s, p).value == RunValue(s, q) &&
          forall q': nat :: p + 1 <= q' < q ==> !DaysMatchAt(s, q');
        assert forall q': nat :: p <= q' < q ==> !DaysMatchAt(s, q');
      }
    }
  }

  /** A match that starts inside a digit run would also match one position
      earlier, with the same end. */
  lemma DaysMatchExtendsBack(s: string, p: nat)
    requires 0 < p && DaysMatchAt(s, p) && IsDigit(s[p - 1])
    ensures DaysMatchAt(s, p - 1)
    ensures Skip(s, p - 1, Digit) == Skip(s, p, Digit)
  {
  }

  /** So the leftmost match takes a whole digit run: the number is not the
      tail of a longer run of digits. */
  lemma LeftmostMatchTakesWholeRun(s: string)
    ensures DaysIn(s).Some? ==>
      exists q: nat :: DaysMatchAt(s, q) && DaysIn(s).value == RunValue(s, q) &&
        (q == 0 || !IsDigit(s[q - 1]))
  {
    DaysFromIsLeftmost(s, 0);
    if DaysIn(s).Some? {
      var q: nat :| DaysMatchAt(s, q) && DaysIn(s).value == RunValue(s, q) &&
        forall q': nat :: 0 <= q' < q ==> !DaysMatchAt(s, q');
      if q > 0 && IsDigit(s[q - 1]) {
        DaysMatchExtendsBack(s, q);
        assert false;
      }
    }
  }

  /** Payment bands: nothing up to 60 days, SIGNIFICANT from 61 to 90,
      EXTREME above 90; the contract's term is reported as "Net {days} days"
      and the explanation counts the days beyond Net 30. */
  lemma PaymentBands(days: nat, fairStandard: string)
    ensures PaymentTermsDeviation(days, fairStandard).None? <==> days <= 60
    ensures PaymentTermsDeviation(days, fairStandard).Some? ==>
      var d := PaymentTermsDeviation(days, fairStandard).value;
      d.category == "Payment Terms" &&
      d.foundInContract == "Net " + NatToString(days) + " days" &&
      d.fairStandard == fairStandard &&
      (d.deviationLevel == Extreme <==> days > 90) &&
      (d.deviationLevel == Significant <==> days <= 90)
  {
  }

  /** The fair standard is the first matching baseline's when it is set,
      and the default otherwise. */
  lemma FairStandardFromBaseline(baselines: seq<Baseline>, category: string, default: string, j: nat)
    requires j < |baselines| && baselines[j].category == category
    requires forall q :: 0 <= q < j ==> baselines[q].category != category
    ensures FairStandard(baselines, category, default) ==
      if baselines[j].fairStandard == [] then default else baselines[j].fairStandard
  {
    FirstWhereFindsFirst(baselines, HasCategory(category), j);
  }

  lemma FairStandardDefault(baselines: seq<Baseline>, category: string, default: string)
    requires forall q :: 0 <= q < |baselines| ==> baselines[q].category != category
    ensures FairStandard(baselines, category, default) == default
  {
    FirstWhereNone(baselines, HasCategory(category));
  }

  /** Only the first clause mentioning payment or an invoice is examined:
      what follows it never matters, and neither does anything before it
      that does not mention either. */
  lemma OnlyFirstPaymentClause(before: seq<Clause>, c: Clause, after: seq<Clause>, baselines: seq<Baseline>)
    requires forall q :: 0 <= q < |before| ==> !MentionsEither("payment", "invoice")(before[q])
    requires MentionsEither("payment", "invoice")(c)
    ensures PaymentCheck(before + [c] + after, baselines) ==
      match DaysIn(c.text)
      case None => None
      case Some(days) => PaymentTermsDeviation(days, FairStandard(baselines, "payment_terms", "Net 30 days"))
  {
    var all := before + [c] + after;
    assert all[|before|] == c;
    forall q | 0 <= q < |before| ensures !MentionsEither("payment", "invoice")(all[q]) {
      assert all[q] == before[q];
    }
    FirstWhereFindsFirst(all, MentionsEither("payment", "invoice"), |before|);
  }

  /** A termination deviation is reported exactly when the first clause
      mentioning termination also says "immediate". */
  lemma TerminationIff(clauses: seq<Clause>, baselines: seq<Baseline>)
    ensures TerminationCheck(clauses, baselines).Some? <==>
      exists j :: 0 <= j < |clauses| && MentionsEither("terminate", "termination")(clauses[j]) &&
        (forall q :: 0 <= q < j ==> !MentionsEither("terminate", "termination")(clauses[q])) &&
        Includes(Lower(clauses[j].text), "immediate")
  {
    var f := MentionsEither("terminate", "termination");
    FirstWhereHasNoEarlier(clauses, f);
    if j :| 0 <= j < |clauses| && f(clauses[j]) && (forall q :: 0 <= q < j ==> !f(clauses[q])) {
      FirstWhereFindsFirst(clauses, f, j);
    }
  }

  /** A liability deviation is reported exactly when the first clause
      mentioning liability or indemnity also says "unlimited". */
  lemma LiabilityIff(clauses: seq<Clause>, baselines: seq<Baseline>)
    ensures LiabilityCheck(clauses, baselines).Some? <==>
      exists j :: 0 <= j < |clauses| && MentionsEither("liability", "indemnify")(clauses[j]) &&
        (forall q :: 0 <= q < j ==> !MentionsEither("liability", "indemnify")(clauses[q])) &&
        Includes(Lower(clauses[j].text), "unlimited")
  {
    var f := MentionsEither("liability", "indemnify");
    FirstWhereHasNoEarlier(clauses, f);
    if j :| 0 <= j < |clauses| && f(clauses[j]) && (forall q :: 0 <= q < j ==> !f(clauses[q])) {
      FirstWhereFindsFirst(clauses, f, j);
    }
  }

  /** The foreign-forum test is a case-sensitive search for one of the
      fixed names in the clause text as written. */
  lemma ForeignForumIff(text: string)
    ensures NamesForeignForum(text) <==>
      exists k :: 0 <= k < |ForeignNames()| && Includes(text, ForeignNames()[k])
  {
    FirstWhereNone(ForeignNames(), NameIn(text));
  }

  /** The position of each category in the check order. */
  function CategoryRank(category: string): int {
    if category == "Payment Terms" then 0
    else if category == "Termination " + "Notice" then 1
    else if category == "Liability Cap" then 2
    else if category == "Jurisdiction" then 3
    else 4
  }

  /** At most four deviations, at most one per category, in the order
      payment, termination, liability, jurisdiction. */
  lemma DeviationsInCheckOrder(clauses: seq<Clause>, baselines: seq<Baseline>)
    ensures |Deviations(clauses, baselines)| <= 4
    ensures forall i, j :: 0 <= i < j < |Deviations(clauses, baselines)| ==>
      CategoryRank(Deviations(clauses, baselines)[i].category) < CategoryRank(Deviations(clauses, baselines)[j].category)
    ensures forall d :: d in Deviations(clauses, baselines) ==> CategoryRank(d.category) < 4
  {
    PaymentRank(clauses, baselines);
    TerminationRank(clauses, baselines);
    LiabilityRank(clauses, baselines);
    JurisdictionRank(clauses);
    var all := Deviations(clauses, baselines);
    RankedInOrder((d: Deviation) => CategoryRank(d.category), PaymentCheck(clauses, baselines), TerminationCheck(clauses, baselines),
      LiabilityCheck(clauses, baselines), JurisdictionCheck(clauses));
  }

  lemma PaymentRank(clauses: seq<Clause>, baselines: seq<Baseline>)
    ensures PaymentCheck(clauses, baselines).Some? ==>
      CategoryRank(PaymentCheck(clauses, baselines).value.category) == 0
  {
  }

  lemma TerminationRank(clauses: seq<Clause>, baselines: seq<Baseline>)
    ensures TerminationCheck(clauses, baselines).Some? ==>
      CategoryRank(TerminationCheck(clauses, baselines).value.category) == 1
  {
  }

  lemma LiabilityRank(clauses: seq<Clause>, baselines: seq<Baseline>)
    ensures LiabilityCheck(clauses, baselines).Some? ==>
      CategoryRank(LiabilityCheck(clauses, baselines).value.category) == 2
  {
  }

  /** The jurisdiction deviation always names Indian courts as the fair
      standard: no baseline is consulted for it. */
  lemma JurisdictionRank(clauses: seq<Clause>)
    ensures JurisdictionCheck(clauses).Some? ==>
      var d := JurisdictionCheck(clauses).value;
      CategoryRank(d.category) == 3 && d.category == "Jurisdiction" &&
      d.fairStandard == "Indian courts" && d.deviationLevel == Significant
  {
    if JurisdictionCheck(clauses).Some? {
      var d := ForeignJurisdictionDeviation();
      assert JurisdictionCheck(clauses).value == d;
      assert d.category == "Jurisdiction";
    }
  }

  /** Ranks strictly increase along `xs` and stay below `bound`. */
  ghost predicate RankedBelow<T>(rank: T -> int, xs: seq<T>, bound: int) {
    (forall x, y :: 0 <= x < y < |xs| ==> rank(xs[x]) < rank(xs[y])) &&
    (forall x :: 0 <= x < |xs| ==> rank(xs[x]) < bound)
  }

  /** Pushing a value of rank `r` after values ranked below `r`. */
  lemma PushRanked<T>(rank: T -> int, xs: seq<T>, o: Option<T>, r: int)
    requires RankedBelow(rank, xs, r)
    requires o.Some? ==> rank(o.value) == r
    ensures RankedBelow(rank, xs + AsList(o), r + 1)
    ensures |xs + AsList(o)| <= |xs| + 1
  {
    var all := xs + AsList(o);
    if o.Some? {
      assert all[|xs|] == o.value;
      forall x | 0 <= x < |xs| ensures all[x] == xs[x] { }
    } else {
      assert all == xs;
    }
  }

  /** Four optional values of ranks 0 to 3, listed in that order. */
  lemma RankedInOrder<T>(rank: T -> int, p: Option<T>, t: Option<T>, l: Option<T>, j: Option<T>)
    requires p.Some? ==> rank(p.value) == 0
    requires t.Some? ==> rank(t.value) == 1
    requires l.Some? ==> rank(l.value) == 2
    requires j.Some? ==> rank(j.value) == 3
    ensures |AsList(p) + AsList(t) + AsList(l) + AsList(j)| <= 4
    ensures RankedBelow(rank, AsList(p) + AsList(t) + AsList(l) + AsList(j), 4)
  {
    var a := AsList(p);
    assert RankedBelow(rank, a, 1) && |a| <= 1 by {
      PushRanked(rank, [], p, 0);
      assert [] + a == a;
    }
    var b := a + AsList(t);
    assert RankedBelow(rank, b, 2) && |b| <= 2 by {
      PushRanked(rank, a, t, 1);
    }
    var c := b + AsList(l);
    assert RankedBelow(rank, c, 3) && |c| <= 3 by {
      PushRanked(rank, b, l, 2);
    }
    PushRanked(rank, c, j, 3);
  }

  /** No clauses, no deviations. */
  lemma NoClausesNoDeviations(baselines: seq<Baseline>)
    ensures Deviations([], baselines) == []
  {
  }
}
