/** Token costs of internal/app/pricing.go, over reals and for any price table. */
module Pricing {
  import opened Wrappers
  import H = Hashtags

  /** Dollars per million tokens. */
  datatype Price = Price(input: real, cached: real, output: real)

  type PriceTable = string -> Option<Price>

  datatype Request = Request(model: string, prompt: int, cached: int, completion: int)

  datatype Tokens = Tokens(prompt: int, cached: int, completion: int)

  const MILLION := 1_000_000.0
  const LUNA := "gpt-5.6-luna"
  const LONG_CONTEXT := 272_000

  /** llmCostValue. */
  function LlmCost(prices: PriceTable, r: Request): Option<real> {
    match prices(r.model)
    case None => None
    case Some(p) =>
      var p := if H.TrimSpace(r.model) == LUNA && r.prompt > LONG_CONTEXT
               then Price(p.input * 2.0, p.cached * 2.0, p.output * 1.5) else p;
      var regular := Max(r.prompt - r.cached, 0);
      Some(regular as real * p.input / MILLION + r.cached as real * p.cached / MILLION
           + r.completion as real * p.output / MILLION)
  }

  /** A request of Luna with more than 272,000 input tokens is charged at long-context rates as a whole. */
  predicate LongContext(r: Request) {
    H.TrimSpace(r.model) == "gpt-5.6-luna" && r.prompt > 272_000
  }

  function CostOf(prices: PriceTable, r: Request): real {
    match LlmCost(prices, r) case Some(v) => v case None => 0.0
  }

  /** The price of a token, in the request's context. */
  ghost function InputRate(r: Request, dollars: real): real {
    dollars * (if LongContext(r) then 2.0 else 1.0) / 1_000_000.0
  }

  ghost function OutputRate(r: Request, dollars: real): real {
    dollars * (if LongContext(r) then 1.5 else 1.0) / 1_000_000.0
  }

  ghost function Amount(n: int, rate: real): real {
    n as real * rate
  }

  lemma OneMore(n: int, rate: real)
    ensures Amount(n + 1, rate) == Amount(n, rate) + rate
  {
  }

  lemma PerToken(n: int, x: real, factor: real)
    ensures n as real * (x * factor) / MILLION == Amount(n, x * factor / 1_000_000.0)
  {
    assert n as real * (x * factor) / MILLION == n as real * ((x * factor) / MILLION);
  }

  lemma CostInParts(prices: PriceTable, r: Request, p: Price)
    requires prices(r.model) == Some(p)
    ensures CostOf(prices, r)
            == Amount(Max(r.prompt - r.cached, 0), InputRate(r, p.input)) + Amount(r.cached, InputRate(r, p.cached))
               + Amount(r.completion, OutputRate(r, p.output))
  {
    var i, o := if LongContext(r) then 2.0 else 1.0, if LongContext(r) then 1.5 else 1.0;
    PerToken(Max(r.prompt - r.cached, 0), p.input, i);
    PerToken(r.cached, p.cached, i);
    PerToken(r.completion, p.output, o);
  }

  /** What one token more of each kind costs; with the price of nothing these lemmas determine every price. */
  lemma OneMoreOutputToken(prices: PriceTable, r: Request, p: Price)
    requires prices(r.model) == Some(p)
    ensures CostOf(prices, r.(completion := r.completion + 1)) - CostOf(prices, r) == OutputRate(r, p.output)
  {
    CostInParts(prices, r, p);
    CostInParts(prices, r.(completion := r.completion + 1), p);
    OneMore(r.completion, OutputRate(r, p.output));
  }

  /** An input token that is not cached, or one that the cached count already has. */
  lemma OneMoreInputToken(prices: PriceTable, r: Request, p: Price)
    requires prices(r.model) == Some(p) && LongContext(r.(prompt := r.prompt + 1)) == LongContext(r)
    ensures CostOf(prices, r.(prompt := r.prompt + 1)) - CostOf(prices, r)
            == if r.cached <= r.prompt then InputRate(r, p.input) else 0.0
  {
    CostInParts(prices, r, p);
    CostInParts(prices, r.(prompt := r.prompt + 1), p);
    OneMore(r.prompt - r.cached, InputRate(r, p.input));
  }

  /** An input token read from the cache instead of anew. */
  lemma OneMoreCachedToken(prices: PriceTable, r: Request, p: Price)
    requires prices(r.model) == Some(p)
    ensures CostOf(prices, r.(cached := r.cached + 1)) - CostOf(prices, r)
            == InputRate(r, p.cached) - if r.cached < r.prompt then InputRate(r, p.input) else 0.0
  {
    CostInParts(prices, r, p);
    CostInParts(prices, r.(cached := r.cached + 1), p);
    OneMore(r.cached, InputRate(r, p.cached));
    OneMore(r.prompt - r.cached - 1, InputRate(r, p.input));
  }

  lemma NothingCostsNothing(prices: PriceTable, model: string)
    ensures CostOf(prices, Request(model, 0, 0, 0)) == 0.0
  {
  }

  // ------------------------------------------------------------ recorded costs

  predicate Free(r: Request) {
    r.prompt == 0 && r.completion == 0
  }

  function Charge(prices: PriceTable, r: Request): real {
    if Free(r) then 0.0 else match LlmCost(prices, r) case Some(v) => v case None => 0.0
  }

  /** A request without input and output tokens is not charged, any other one its cost. */
  lemma ChargeIs(prices: PriceTable, r: Request)
    requires prices(r.model).Some?
    ensures Charge(prices, r) == if r.prompt == 0 && r.completion == 0 then 0.0 else CostOf(prices, r)
  {
  }

  function Usage(r: Request): Tokens {
    Tokens(r.prompt, r.cached, r.completion)
  }

  const NO_TOKENS := Tokens(0, 0, 0)

  function Plus(a: Tokens, b: Tokens): Tokens {
    Tokens(a.prompt + b.prompt, a.cached + b.cached, a.completion + b.completion)
  }

  ghost function Total(requests: seq<Request>): Tokens {
    if requests == [] then NO_TOKENS
    else Plus(Total(requests[..|requests| - 1]), Usage(requests[|requests| - 1]))
  }

  ghost function TotalCharge(prices: PriceTable, requests: seq<Request>): real {
    if requests == [] then 0.0
    else TotalCharge(prices, requests[..|requests| - 1]) + Charge(prices, requests[|requests| - 1])
  }

  /** Every request that used tokens has a price. */
  ghost predicate AllPriced(prices: PriceTable, requests: seq<Request>) {
    forall r | r in requests && (r.prompt != 0 || r.completion != 0) :: prices(r.model).Some?
  }

  ghost function RecordedCost(prices: PriceTable, requests: seq<Request>, totals: Tokens): Option<real> {
    if AllPriced(prices, requests) && Total(requests) == totals then Some(TotalCharge(prices, requests)) else None
  }

  /** recordedLLMCostValue: defined exactly when all is priced and the totals agree. */
  method RecordedLlmCost(prices: PriceTable, requests: seq<Request>, totals: Tokens) returns (r: Option<real>)
    ensures r.Some? <==> AllPriced(prices, requests) && Total(requests) == totals
    ensures r.Some? ==> r.value == TotalCharge(prices, requests)
  {
    var input, cached, output := 0, 0, 0;
    var cost := 0.0;
    for i := 0 to |requests|
      invariant Tokens(input, cached, output) == Total(requests[..i])
      invariant cost == TotalCharge(prices, requests[..i])
      invariant AllPriced(prices, requests[..i])
    {
      var usage := requests[i];
      assert requests[..i + 1][..i] == requests[..i] && requests[..i + 1] == requests[..i] + [usage];
      input := input + usage.prompt;
      cached := cached + usage.cached;
      output := output + usage.completion;
      if Free(usage) {
        continue;
      }
      var value := LlmCost(prices, usage);
      if value == None {
        assert usage in requests;
        return None;
      }
      cost := cost + value.value;
    }
    assert requests[..|requests|] == requests;
    if input != totals.prompt || cached != totals.cached || output != totals.completion {
      return None;
    }
    return Some(cost);
  }

  // ------------------------------------------------- order and splitting by day

  lemma {:induction false} TotalAppend(a: seq<Request>, b: seq<Request>)
    ensures Total(a + b) == Plus(Total(a), Total(b))
  {
    if b == [] {
      assert a + b == a;
    } else {
      TotalAppend(a, b[..|b| - 1]);
      assert (a + b)[..|a + b| - 1] == a + b[..|b| - 1];
    }
  }

  lemma {:induction false} ChargeAppend(prices: PriceTable, a: seq<Request>, b: seq<Request>)
    ensures TotalCharge(prices, a + b) == TotalCharge(prices, a) + TotalCharge(prices, b)
  {
    if b == [] {
      assert a + b == a;
    } else {
      ChargeAppend(prices, a, b[..|b| - 1]);
      assert (a + b)[..|a + b| - 1] == a + b[..|b| - 1];
    }
  }

  lemma TotalsOfOne(prices: PriceTable, r: Request)
    ensures Total([r]) == Usage(r) && TotalCharge(prices, [r]) == Charge(prices, r)
  {
    assert [r][..0] == [];
  }

  lemma TotalsWithout(prices: PriceTable, pre: seq<Request>, x: Request, post: seq<Request>)
    ensures Total(pre + [x] + post) == Plus(Total(pre + post), Usage(x))
    ensures TotalCharge(prices, pre + [x] + post) == TotalCharge(prices, pre + post) + Charge(prices, x)
  {
    TotalAppend(pre + [x], post);
    TotalAppend(pre, [x]);
    TotalAppend(pre, post);
    ChargeAppend(prices, pre + [x], post);
    ChargeAppend(prices, pre, [x]);
    ChargeAppend(prices, pre, post);
    TotalsOfOne(prices, x);
  }

  lemma MultisetWithout(pre: seq<Request>, x: Request, post: seq<Request>)
    ensures multiset(pre + [x] + post) - multiset{x} == multiset(pre + post)
  {
    assert multiset(pre + [x] + post) == multiset(pre) + multiset{x} + multiset(post);
    assert multiset(pre + post) == multiset(pre) + multiset(post);
  }

  lemma Find(b: seq<Request>, x: Request) returns (k: nat)
    requires x in multiset(b)
    ensures k < |b| && b[k] == x && b == b[..k] + [x] + b[k + 1..]
  {
    k :| 0 <= k < |b| && b[k] == x;
  }

  lemma RemoveOne(a: seq<Request>, b: seq<Request>) returns (k: nat)
    requires a != [] && multiset(a) == multiset(b)
    ensures k < |b| && b[k] == a[|a| - 1] && b == b[..k] + [b[k]] + b[k + 1..]
    ensures multiset(a[..|a| - 1]) == multiset(b[..k] + b[k + 1..])
  {
    var x := a[|a| - 1];
    assert a == a[..|a| - 1] + [x] + [];
    k := Find(b, x);
    MultisetWithout(b[..k], x, b[k + 1..]);
    MultisetWithout(a[..|a| - 1], x, []);
    assert a[..|a| - 1] + [] == a[..|a| - 1];
  }

  lemma {:induction false} TotalsOfPermutation(prices: PriceTable, a: seq<Request>, b: seq<Request>)
    requires multiset(a) == multiset(b)
    ensures Total(a) == Total(b) && TotalCharge(prices, a) == TotalCharge(prices, b)
  {
    if a == [] {
      assert |multiset(b)| == 0;
    } else {
      var k := RemoveOne(a, b);
      TotalsWithout(prices, b[..k], b[k], b[k + 1..]);
      TotalsOfPermutation(prices, a[..|a| - 1], b[..k] + b[k + 1..]);
    }
  }

  /** Totals that miss one part and have another too much match exactly when the parts are equal. */
  lemma CostWhenBalanced(prices: PriceTable, requests: seq<Request>, totals: Tokens, added: Tokens, gone: Tokens)
    requires Plus(Total(requests), gone) == Plus(totals, added)
    ensures RecordedCost(prices, requests, totals).Some? <==> AllPriced(prices, requests) && added == gone
  {
  }

  /** The month is assembled by map iteration: the order of the requests does not matter. */
  lemma RecordedCostIgnoresOrder(prices: PriceTable, a: seq<Request>, b: seq<Request>, totals: Tokens)
    requires multiset(a) == multiset(b)
    ensures RecordedCost(prices, a, totals) == RecordedCost(prices, b, totals)
  {
    TotalsOfPermutation(prices, a, b);
    assert forall r :: r in a <==> r in multiset(a);
    assert forall r :: r in b <==> r in multiset(b);
  }

  datatype Day = Day(requests: seq<Request>, totals: Tokens)

  ghost function AllRequests(days: seq<Day>): seq<Request> {
    if days == [] then [] else AllRequests(days[..|days| - 1]) + days[|days| - 1].requests
  }

  ghost function SumOfTotals(days: seq<Day>): Tokens {
    if days == [] then NO_TOKENS else Plus(SumOfTotals(days[..|days| - 1]), days[|days| - 1].totals)
  }

  ghost predicate EveryDayShown(prices: PriceTable, days: seq<Day>) {
    forall d | d in days :: RecordedCost(prices, d.requests, d.totals).Some?
  }

  ghost function SumOfCosts(prices: PriceTable, days: seq<Day>): real {
    if days == [] then 0.0
    else SumOfCosts(prices, days[..|days| - 1]) + TotalCharge(prices, days[|days| - 1].requests)
  }

  /** When every day has a recorded cost the month has one, and it is their sum. */
  lemma {:induction false} MonthIsSumOfDays(prices: PriceTable, days: seq<Day>)
    requires EveryDayShown(prices, days)
    ensures RecordedCost(prices, AllRequests(days), SumOfTotals(days)) == Some(SumOfCosts(prices, days))
  {
    if days != [] {
      var n := |days| - 1;
      assert days[n] in days;
      MonthIsSumOfDays(prices, days[..n]);
      TotalAppend(AllRequests(days[..n]), days[n].requests);
      ChargeAppend(prices, AllRequests(days[..n]), days[n].requests);
    }
  }

  // ------------------------------------------------------------ displayed cents

  function Ceil(x: real): int {
    -(-x).Floor
  }

  /** The amount formatUSD shows, in cents. */
  function Cents(cost: real): int {
    if cost <= 0.0 then 0 else Ceil(cost * 100.0)
  }

  lemma CentsRoundUp(cost: real)
    ensures cost > 0.0 ==> cost * 100.0 <= Cents(cost) as real < cost * 100.0 + 1.0
    ensures cost <= 0.0 ==> Cents(cost) == 0
    ensures Cents(cost) >= 0
  {
  }

  lemma CentsOfSum(x: real, y: real)
    ensures Cents(x + y) <= Cents(x) + Cents(y)
  {
    CentsRoundUp(x);
    CentsRoundUp(y);
    CentsRoundUp(x + y);
  }

  ghost function SumOfCents(prices: PriceTable, days: seq<Day>): int {
    if days == [] then 0
    else SumOfCents(prices, days[..|days| - 1]) + Cents(TotalCharge(prices, days[|days| - 1].requests))
  }

  /** The displayed month is at most the sum of the displayed days, whatever the prices. */
  lemma {:induction false} MonthShownAtMostDays(prices: PriceTable, days: seq<Day>)
    ensures Cents(SumOfCosts(prices, days)) <= SumOfCents(prices, days)
  {
    if days != [] {
      var n := |days| - 1;
      MonthShownAtMostDays(prices, days[..n]);
      CentsOfSum(SumOfCosts(prices, days[..n]), TotalCharge(prices, days[n].requests));
    }
  }

  ghost predicate PricesNotNegative(prices: PriceTable) {
    forall m :: prices(m).Some? ==>
      prices(m).value.input >= 0.0 && prices(m).value.cached >= 0.0 && prices(m).value.output >= 0.0
  }

  ghost predicate CountsNotNegative(requests: seq<Request>) {
    forall r | r in requests :: r.prompt >= 0 && r.cached >= 0 && r.completion >= 0
  }

  lemma ProductNotNegative(n: int, x: real)
    requires n >= 0 && x >= 0.0
    ensures n as real * x / MILLION >= 0.0
  {
    assert n as real * x >= 0.0;
  }

  lemma ChargeNotNegative(prices: PriceTable, r: Request)
    requires PricesNotNegative(prices) && r.prompt >= 0 && r.cached >= 0 && r.completion >= 0
    ensures Charge(prices, r) >= 0.0
  {
    if !Free(r) && prices(r.model).Some? {
      var p := prices(r.model).value;
      var q := if H.TrimSpace(r.model) == LUNA && r.prompt > LONG_CONTEXT
               then Price(p.input * 2.0, p.cached * 2.0, p.output * 1.5) else p;
      ProductNotNegative(Max(r.prompt - r.cached, 0), q.input);
      ProductNotNegative(r.cached, q.cached);
      ProductNotNegative(r.completion, q.output);
    }
  }

  lemma {:induction false} ChargesNotNegative(prices: PriceTable, requests: seq<Request>)
    requires PricesNotNegative(prices) && CountsNotNegative(requests)
    ensures TotalCharge(prices, requests) >= 0.0
  {
    if requests != [] {
      var n := |requests| - 1;
      assert requests[n] in requests;
      ChargesNotNegative(prices, requests[..n]);
      ChargeNotNegative(prices, requests[n]);
    }
  }

  /** Rounding each day up adds less than one cent a day. */
  lemma {:induction false} RoundingAddsLessThanACentADay(prices: PriceTable, days: seq<Day>)
    requires PricesNotNegative(prices) && forall d | d in days :: CountsNotNegative(d.requests)
    ensures SumOfCosts(prices, days) >= 0.0
    ensures SumOfCents(prices, days) as real <= SumOfCosts(prices, days) * 100.0 + |days| as real
    ensures days != [] ==> SumOfCents(prices, days) as real < SumOfCosts(prices, days) * 100.0 + |days| as real
  {
    if days != [] {
      var n := |days| - 1;
      assert days[n] in days;
      RoundingAddsLessThanACentADay(prices, days[..n]);
      ChargesNotNegative(prices, days[n].requests);
      CentsRoundUp(TotalCharge(prices, days[n].requests));
    }
  }
}
