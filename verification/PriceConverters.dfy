/** Converting upstream price lists into local ratios (controller/ratio_sync.go, lines 698-985).

Two sources are converted: OpenRouter (price per token) and models.dev (price per million tokens).
models.dev lists a model under several providers; the cheapest non-zero one is selected, with a
tolerance that is not transitive. */
module PriceConverters {
  import opened Options
  import opened Rounding
  import opened Tolerance

  /** A float as it arrives: finite, infinite or not a number. */
  datatype Number = Fin(r: real) | Infinite(negative: bool) | NaN

  datatype Cost = Cost(input: Option<Number>, output: Option<Number>, cacheRead: Option<Number>)

  datatype Candidate = Candidate(provider: string, input: real, output: Option<real>, cacheRead: Option<real>)

  predicate ValidCost(n: Number) { n.Fin? && n.r >= 0.0 }

  /** `buildModelsDevCandidate`. */
  function BuildCandidate(provider: string, cost: Cost): Option<Candidate> {
    if cost.input.None? || !ValidCost(cost.input.value) then None
    else if cost.output.Some? && !ValidCost(cost.output.value) then None
    else if cost.input.value.r == 0.0 && cost.output.Some? && cost.output.value.r > 0.0 then None
    else Some(Candidate(provider, cost.input.value.r,
                        if cost.output.Some? then Some(cost.output.value.r) else None,
                        if cost.cacheRead.Some? && ValidCost(cost.cacheRead.value) then Some(cost.cacheRead.value.r) else None))
  }

  /** Byte order of names, which is code point order. */
  predicate Less(a: string, b: string) {
    if b == [] then false
    else if a == [] then true
    else if a[0] != b[0] then a[0] < b[0]
    else Less(a[1..], b[1..])
  }

  /** `shouldReplaceModelsDevCandidate`. */
  predicate ShouldReplace(current: Candidate, next: Candidate) {
    if (current.input > 0.0) != (next.input > 0.0) then next.input > 0.0
    else if next.input > 0.0 && !NearlyEqual(next.input, current.input) then next.input < current.input
    else Less(next.provider, current.provider)
  }

  // ---------------------------------------------------------------- sorted names

  lemma {:induction false} LessTotal(a: string, b: string)
    ensures a == b || Less(a, b) || Less(b, a)
    ensures !(Less(a, b) && Less(b, a)) && !Less(a, a)
  {
    if a != [] && b != [] && a[0] == b[0] {
      LessTotal(a[1..], b[1..]);
      assert a == [a[0]] + a[1..] && b == [b[0]] + b[1..];
    }
    if a != [] { LessTotal(a[1..], a[1..]); }
  }

  lemma {:induction false} LessTransitive(a: string, b: string, c: string)
    requires Less(a, b) && Less(b, c)
    ensures Less(a, c)
  {
    if a != [] && a[0] == b[0] && b[0] == c[0] {
      LessTransitive(a[1..], b[1..], c[1..]);
    }
  }

  predicate Ascending(names: seq<string>) {
    forall i, j :: 0 <= i < j < |names| ==> Less(names[i], names[j])
  }

  predicate Lists(names: seq<string>, keys: set<string>) {
    Ascending(names) && (set n | n in names) == keys
  }

  /** There is only one ascending list of a set of names: the order in which a map is walked cannot matter. */
  lemma {:induction false} ListIsUnique(a: seq<string>, b: seq<string>, keys: set<string>)
    requires Lists(a, keys) && Lists(b, keys)
    ensures a == b
    decreases |a|
  {
    EmptyList(a, keys);
    EmptyList(b, keys);
    if a != [] {
      assert a[0] in keys && b[0] in keys;
      var i :| 0 <= i < |b| && b[i] == a[0];
      var j :| 0 <= j < |a| && a[j] == b[0];
      LessTotal(a[0], b[0]);
      assert a[0] == b[0];
      ListTail(a, keys);
      ListTail(b, keys);
      ListIsUnique(a[1..], b[1..], keys - {a[0]});
      assert a == [a[0]] + a[1..] && b == [b[0]] + b[1..];
    }
  }

  lemma EmptyList(a: seq<string>, keys: set<string>)
    requires Lists(a, keys)
    ensures a == [] <==> keys == {}
  {
    if a != [] { assert a[0] in keys; }
  }

  lemma ListTail(a: seq<string>, keys: set<string>)
    requires Lists(a, keys) && a != []
    ensures Lists(a[1..], keys - {a[0]})
  {
    LessTotal(a[0], a[0]);
    forall n ensures n in a[1..] <==> n in keys && n != a[0] {
      if n in a[1..] {
        var i :| 0 <= i < |a[1..]| && a[1..][i] == n;
        assert Less(a[0], a[i + 1]);
        assert a[i + 1] in a;
      }
      if n in keys && n != a[0] {
        var i :| 0 <= i < |a| && a[i] == n;
        assert a[1..][i - 1] == n;
      }
    }
  }

  /** Collecting the keys of a map in any order and sorting them. */
  method SortedKeys<V>(m: map<string, V>) returns (names: seq<string>)
    ensures Lists(names, m.Keys)
  {
    names := [];
    var left := m.Keys;
    while left != {}
      invariant left <= m.Keys
      invariant Lists(names, m.Keys - left)
      decreases |left|
    {
      var key :| key in left;
      var k := InsertionPoint(names, key);
      InsertKeepsLists(names, m.Keys - left, key, k);
      names := names[..k] + [key] + names[k..];
      assert m.Keys - (left - {key}) == (m.Keys - left) + {key};
      left := left - {key};
    }
    assert m.Keys - left == m.Keys;
  }

  method InsertionPoint(names: seq<string>, key: string) returns (k: nat)
    requires Ascending(names) && key !in names
    ensures k <= |names|
    ensures forall i :: 0 <= i < k ==> Less(names[i], key)
    ensures forall i :: k <= i < |names| ==> Less(key, names[i])
  {
    k := 0;
    while k < |names| && Less(names[k], key)
      invariant 0 <= k <= |names|
      invariant forall i :: 0 <= i < k ==> Less(names[i], key)
    {
      k := k + 1;
    }
    forall i | k <= i < |names| ensures Less(key, names[i]) {
      LessTotal(key, names[k]);
      if i > k { LessTransitive(key, names[k], names[i]); }
    }
  }

  lemma InsertKeepsLists(names: seq<string>, keys: set<string>, key: string, k: nat)
    requires Lists(names, keys) && key !in keys && k <= |names|
    requires forall i :: 0 <= i < k ==> Less(names[i], key)
    requires forall i :: k <= i < |names| ==> Less(key, names[i])
    ensures Lists(names[..k] + [key] + names[k..], keys + {key})
  {
    var after := names[..k] + [key] + names[k..];
    forall i, j | 0 <= i < j < |after| ensures Less(after[i], after[j]) {
      if i < k && j > k { assert Less(names[i], names[j - 1]); }
    }
    assert names == names[..k] + names[k..];
    assert forall n :: n in after <==> n == key || n in names;
  }

  // ---------------------------------------------------------------- selection

  /** provider -> model -> cost */
  type PriceList = map<string, map<string, Cost>>

  /** The candidate a provider offers for a model. */
  function Offer(data: PriceList, provider: string, model: string): Option<Candidate> {
    if provider in data && model in data[provider] then BuildCandidate(provider, data[provider][model]) else None
  }

  function Choose(current: Option<Candidate>, next: Option<Candidate>): Option<Candidate> {
    if next.None? then current
    else if current.None? || ShouldReplace(current.value, next.value) then next
    else current
  }

  /** Folding the providers in order. */
  function Selected(data: PriceList, providers: seq<string>, model: string): Option<Candidate> {
    if providers == [] then None
    else
      var n := |providers| - 1;
      Choose(Selected(data, providers[..n], model), Offer(data, providers[n], model))
  }

  function Lookup(m: map<string, Candidate>, model: string): Option<Candidate> {
    if model in m then Some(m[model]) else None
  }

  /** The double loop of `convertModelsDevToRatioData`. */
  method SelectCandidates(data: PriceList) returns (selected: map<string, Candidate>)
    ensures forall providers, model :: Lists(providers, data.Keys) ==>
                                         Lookup(selected, model) == Selected(data, providers, model)
  {
    var providers := SortedKeys(data);
    selected := map[];
    var i := 0;
    while i < |providers|
      invariant 0 <= i <= |providers|
      invariant forall model :: Lookup(selected, model) == Selected(data, providers[..i], model)
    {
      assert providers[i] in data.Keys;
      var next := AddProvider(data, providers[i], selected);
      var prefix := providers[..i + 1];
      assert prefix[..i] == providers[..i] && prefix[i] == providers[i];
      forall model ensures Lookup(next, model) == Selected(data, prefix, model) {
        assert Selected(data, prefix, model) == Choose(Selected(data, prefix[..i], model), Offer(data, prefix[i], model));
      }
      selected := next;
      i := i + 1;
    }
    assert providers[..i] == providers;
    forall other | Lists(other, data.Keys) ensures other == providers { ListIsUnique(other, providers, data.Keys); }
  }

  method AddProvider(data: PriceList, provider: string, before: map<string, Candidate>)
    returns (selected: map<string, Candidate>)
    requires provider in data
    ensures forall model :: Lookup(selected, model) == Choose(Lookup(before, model), Offer(data, provider, model))
  {
    selected := before;
    var names := SortedKeys(data[provider]);
    var k := 0;
    while k < |names|
      invariant 0 <= k <= |names|
      invariant forall model :: Lookup(selected, model) ==
                  if model in names[..k] then Choose(Lookup(before, model), Offer(data, provider, model)) else Lookup(before, model)
    {
      var name := names[k];
      assert name in data[provider].Keys;
      var candidate := BuildCandidate(provider, data[provider][name]);
      NotBefore(names, k);
      if candidate.Some? && (name !in selected || ShouldReplace(selected[name], candidate.value)) {
        selected := selected[name := candidate.value];
      }
      assert names[..k + 1] == names[..k] + [name];
      k := k + 1;
    }
    assert names[..k] == names;
    forall model | model !in names ensures Offer(data, provider, model) == None {
      assert model !in data[provider].Keys;
    }
  }

  lemma NotBefore(names: seq<string>, k: nat)
    requires Ascending(names) && k < |names|
    ensures names[k] !in names[..k]
  {
    LessTotal(names[k], names[k]);
    assert forall i :: 0 <= i < k ==> Less(names[i], names[k]);
  }

  /** `c` is as good as any offer of the providers: zero only if all are, else within the tolerance of the cheapest. */
  ghost predicate BestOf(data: PriceList, providers: seq<string>, model: string, c: Candidate) {
    && (exists p :: p in providers && Offer(data, p, model) == Some(c))
    && forall p :: p in providers && Offer(data, p, model).Some? ==>
         var d := Offer(data, p, model).value;
         && (c.input == 0.0 ==> d.input == 0.0)
         && (c.input > 0.0 && d.input > 0.0 ==> c.input < d.input + EPSILON)
  }

  lemma OfferFacts(data: PriceList, p: string, model: string)
    ensures Offer(data, p, model).Some? ==> Offer(data, p, model).value.provider == p && Offer(data, p, model).value.input >= 0.0
  {
  }

  /** The tolerance does not accumulate, because names are visited in ascending order and so ties keep the earlier offer. */
  lemma {:induction false} SelectedIsBest(data: PriceList, providers: seq<string>, model: string)
    requires Ascending(providers)
    ensures Selected(data, providers, model).None? <==> forall p :: p in providers ==> Offer(data, p, model).None?
    ensures Selected(data, providers, model).Some? ==> BestOf(data, providers, model, Selected(data, providers, model).value)
  {
    if providers != [] {
      var n := |providers| - 1;
      var before, p := providers[..n], providers[n];
      assert providers == before + [p];
      SelectedIsBest(data, before, model);
      SelectStep(data, before, p, model);
    }
  }

  lemma SelectStep(data: PriceList, before: seq<string>, p: string, model: string)
    requires Ascending(before + [p])
    requires Selected(data, before, model).None? <==> forall q :: q in before ==> Offer(data, q, model).None?
    requires Selected(data, before, model).Some? ==> BestOf(data, before, model, Selected(data, before, model).value)
    ensures var now := Choose(Selected(data, before, model), Offer(data, p, model));
            && (now.None? <==> forall q :: q in before + [p] ==> Offer(data, q, model).None?)
            && (now.Some? ==> BestOf(data, before + [p], model, now.value))
  {
    var current, next := Selected(data, before, model), Offer(data, p, model);
    var all := before + [p];
    assert p in all;
    OfferFacts(data, p, model);
    forall q | q in before ensures q in all { }
    if current.Some? {
      var q :| q in before && Offer(data, q, model) == current;
      OfferFacts(data, q, model);
      var i :| 0 <= i < |before| && before[i] == q;
      assert Less(all[i], all[|before|]);
      LessTotal(p, q);
      assert !Less(p, q);
    }
  }

  // ---------------------------------------------------------------- ratios

  // One dollar is 500 ratio units; models.dev quotes dollars per million tokens.

  /** Half of the sixth decimal: how far a rounded ratio may be from the exact one. */
  const HALF: real := 0.0000005

  function RoundRatio(v: real): real { RoundHalfAway(v * 1000000.0) as real / 1000000.0 }

  lemma RoundRatioError(v: real)
    ensures Abs(RoundRatio(v) - v) <= HALF
  {
    RoundIsNearest(v * 1000000.0);
    var n := RoundHalfAway(v * 1000000.0) as real;
    assert Abs(n - v * 1000000.0) <= 0.5;
    assert n / 1000000.0 - v == (n - v * 1000000.0) / 1000000.0;
  }

  /** What one model contributes to the three converted maps. */
  datatype Ratios = Ratios(model: Option<real>, completion: Option<real>, cache: Option<real>)

  const NO_RATIOS := Ratios(None, None, None)

  /** OpenRouter prices per token; `None` for text that does not parse. */
  datatype Pricing = Pricing(prompt: Option<real>, completion: Option<real>, cacheRead: Option<real>)

  function OrZero(p: Option<real>): real { if p.Some? then p.value else 0.0 }

  /** The loop body of `convertOpenRouterToRatioData`. */
  function OpenRouterRatios(p: Pricing): Ratios {
    if p.prompt.None? && p.completion.None? then NO_RATIOS
    else
      var prompt, completion := OrZero(p.prompt), OrZero(p.completion);
      if prompt < 0.0 || completion < 0.0 then NO_RATIOS
      else if prompt == 0.0 && completion == 0.0 then Ratios(Some(0.0), None, None)
      else if prompt <= 0.0 then NO_RATIOS
      else
        Ratios(Some(RoundRatio(prompt * 1000.0 * 500.0)),
               Some(RoundRatio(completion / prompt)),
               if p.cacheRead.Some? && p.cacheRead.value >= 0.0 then Some(RoundRatio(p.cacheRead.value / prompt)) else None)
  }

  /** The last loop body of `convertModelsDevToRatioData`. */
  function ModelsDevRatios(c: Candidate): Ratios {
    if c.input == 0.0 then Ratios(Some(0.0), None, None)
    else
      Ratios(Some(RoundRatio(c.input * 500.0 / 1000.0)),
             if c.output.Some? then Some(RoundRatio(c.output.value / c.input)) else None,
             if c.cacheRead.Some? then Some(RoundRatio(c.cacheRead.value / c.input)) else None)
  }

  function PerMillion(p: Option<real>): Option<Number> {
    if p.Some? then Some(Fin(p.value * 1000000.0)) else None
  }

  function RatiosOf(c: Option<Candidate>): Ratios {
    if c.Some? then ModelsDevRatios(c.value) else NO_RATIOS
  }

  lemma ScaledQuotient(a: real, b: real)
    requires b != 0.0
    ensures b * 1000000.0 != 0.0 && (a * 1000000.0) / (b * 1000000.0) == a / b
  {
    assert (a / b) * (b * 1000000.0) == a * 1000000.0;
  }

  /** The same prices, quoted per token and per million tokens, give the same ratios. */
  lemma ConvertersAgree(provider: string, prompt: real, completion: real, cacheRead: Option<real>)
    ensures OpenRouterRatios(Pricing(Some(prompt), Some(completion), cacheRead))
            == RatiosOf(BuildCandidate(provider, Cost(PerMillion(Some(prompt)), PerMillion(Some(completion)), PerMillion(cacheRead))))
  {
    if prompt > 0.0 && completion >= 0.0 {
      ScaledQuotient(completion, prompt);
      if cacheRead.Some? { ScaledQuotient(cacheRead.value, prompt); }
      assert prompt * 1000.0 * 500.0 == prompt * 1000000.0 * 500.0 / 1000.0;
    }
  }

  /** A stored ratio stands for `exact` up to half a unit of the sixth decimal. */
  predicate Stands(stored: Option<real>, exact: real) { stored.Some? && Abs(stored.value - exact) <= 0.0000005 }

  /** An optional price becomes a ratio exactly when it is quoted. */
  predicate StandsFor(stored: Option<real>, quoted: Option<real>, base: real)
    requires base != 0.0
  {
    if quoted.Some? then Stands(stored, quoted.value / base) else stored == None
  }

  /** The ratios of a selected offer: half the input price; output and cache prices over the input price exactly where
      they are quoted; a free model has the model ratio zero and no other. */
  lemma ModelsDevRatiosAre(c: Candidate)
    requires c.input >= 0.0
    ensures c.input == 0.0 ==> ModelsDevRatios(c) == Ratios(Some(0.0), None, None)
    ensures c.input > 0.0 ==>
              var r := ModelsDevRatios(c);
              Stands(r.model, c.input / 2.0) && StandsFor(r.completion, c.output, c.input) && StandsFor(r.cache, c.cacheRead, c.input)
  {
    if c.input > 0.0 {
      assert c.input * 500.0 / 1000.0 == c.input / 2.0;
      RoundRatioError(c.input / 2.0);
      if c.output.Some? { RoundRatioError(c.output.value / c.input); }
      if c.cacheRead.Some? { RoundRatioError(c.cacheRead.value / c.input); }
    }
  }

  /** A price that does not parse counts as zero, unless neither does: then the model is left out. */
  lemma UnparsedCountsAsZero(prompt: real, completion: real, cacheRead: Option<real>)
    ensures OpenRouterRatios(Pricing(Some(prompt), None, cacheRead)) == OpenRouterRatios(Pricing(Some(prompt), Some(0.0), cacheRead))
    ensures OpenRouterRatios(Pricing(None, Some(completion), cacheRead)) == OpenRouterRatios(Pricing(Some(0.0), Some(completion), cacheRead))
    ensures OpenRouterRatios(Pricing(None, None, cacheRead)) == Ratios(None, None, None)
  {
  }

  /** The ratios of a listing with two prices: none when one is negative or only the output costs; zero for a free model;
      else half a million times the prompt price, and completion and cache prices over the prompt price. */
  lemma OpenRouterRatiosAre(prompt: real, completion: real, cacheRead: Option<real>)
    ensures var r := OpenRouterRatios(Pricing(Some(prompt), Some(completion), cacheRead));
            && (prompt < 0.0 || completion < 0.0 || (prompt == 0.0 && completion > 0.0) ==> r == Ratios(None, None, None))
            && (prompt == 0.0 && completion == 0.0 ==> r == Ratios(Some(0.0), None, None))
            && (prompt > 0.0 && completion >= 0.0 ==>
                  && Stands(r.model, prompt * 500000.0) && Stands(r.completion, completion / prompt)
                  && StandsFor(r.cache, if cacheRead.Some? && cacheRead.value < 0.0 then None else cacheRead, prompt))
  {
    if prompt > 0.0 && completion >= 0.0 {
      assert prompt * 1000.0 * 500.0 == prompt * 500000.0;
      RoundRatioError(prompt * 500000.0);
      RoundRatioError(completion / prompt);
      if cacheRead.Some? { RoundRatioError(cacheRead.value / prompt); }
    }
  }

  /** Which quotes become candidates, and that the candidate carries the quoted prices. */
  lemma CandidateIff(provider: string, cost: Cost)
    ensures BuildCandidate(provider, cost).Some?
            <==> exists x: real ::
                   && x >= 0.0 && cost.input == Some(Fin(x))
                   && (cost.output == None || exists y: real :: y >= 0.0 && cost.output == Some(Fin(y)) && (x == 0.0 ==> y == 0.0))
    ensures BuildCandidate(provider, cost).Some? ==>
              var c := BuildCandidate(provider, cost).value;
              && c.provider == provider && cost.input == Some(Fin(c.input))
              && cost.output == (if c.output.Some? then Some(Fin(c.output.value)) else None)
              && (c.cacheRead.Some? ==> cost.cacheRead == Some(Fin(c.cacheRead.value)) && c.cacheRead.value >= 0.0)
              && (c.cacheRead.None? ==> forall z: real :: z >= 0.0 ==> cost.cacheRead != Some(Fin(z)))
  {
    if BuildCandidate(provider, cost).Some? {
      assert cost.input == Some(Fin(cost.input.value.r));
      assert cost.output.Some? ==> cost.output == Some(Fin(cost.output.value.r));
    }
  }

  lemma Expand(a: real, b: real, d: real, e: real)
    ensures (a + d) * (b + e) - a * b == a * e + b * d + d * e
  {
  }

  lemma AbsProduct(a: real, e: real, h: real)
    requires a >= 0.0 && Abs(e) <= h
    ensures Abs(a * e) <= a * h
  {
    assert a * e <= a * h && a * -e <= a * h;
  }

  lemma AbsSmallProduct(d: real, e: real, h: real)
    requires Abs(d) <= h && Abs(e) <= h
    ensures Abs(d * e) <= h * h
  {
    AbsProduct(if d < 0.0 then -d else d, e, h);
    AbsProduct(h, d, h);
    assert Abs(d) * h <= h * h;
  }

  lemma Triangle(x: real, y: real, z: real)
    ensures Abs(x + y + z) <= Abs(x) + Abs(y) + Abs(z)
  {
  }

  lemma ProductError(a: real, b: real, a': real, b': real, h: real)
    requires a >= 0.0 && b >= 0.0 && Abs(a' - a) <= h && Abs(b' - b) <= h
    ensures Abs(a' * b' - a * b) <= a * h + b * h + h * h
  {
    var d, e := a' - a, b' - b;
    assert a' * b' - a * b == a * e + b * d + d * e by {
      Expand(a, b, d, e);
      assert a + d == a' && b + e == b';
    }
    AbsProduct(a, e, h);
    AbsProduct(b, d, h);
    AbsSmallProduct(d, e, h);
    Triangle(a * e, b * d, d * e);
  }

  lemma ExactProduct(prompt: real, completion: real)
    requires prompt > 0.0 && completion >= 0.0
    ensures completion / prompt >= 0.0
    ensures (prompt * 1000.0 * 500.0) * (completion / prompt) == completion * 1000.0 * 500.0
  {
    var c := completion / prompt;
    assert c * prompt == completion;
    assert (prompt * 1000.0 * 500.0) * c == (c * prompt) * 1000.0 * 500.0;
  }

  lemma StoredRatios(prompt: real, completion: real, cacheRead: Option<real>)
    requires prompt > 0.0 && completion >= 0.0
    ensures var r := OpenRouterRatios(Pricing(Some(prompt), Some(completion), cacheRead));
            r.model == Some(RoundRatio(prompt * 1000.0 * 500.0)) && r.completion == Some(RoundRatio(completion / prompt))
  {
  }

  /** Both ratios within half a unit of the sixth decimal, their product within the compounded error. */
  predicate Recovers(r: Ratios, model: real, completion: real, price: real) {
    && r.model.Some? && r.completion.Some?
    && Abs(r.model.value - model) <= HALF
    && Abs(r.completion.value - completion) <= HALF
    && Abs(r.model.value * r.completion.value - price) <= model * HALF + completion * HALF + HALF * HALF
  }

  lemma RoundedRecovers(r: Ratios, m: real, c: real, price: real)
    requires m >= 0.0 && c >= 0.0 && m * c == price
    requires r.model == Some(RoundRatio(m)) && r.completion == Some(RoundRatio(c))
    ensures Recovers(r, m, c, price)
  {
    RoundRatioError(m);
    RoundRatioError(c);
    CloseRecovers(m, c, RoundRatio(m), RoundRatio(c), price);
  }

  lemma CloseRecovers(m: real, c: real, m': real, c': real, price: real)
    requires m >= 0.0 && c >= 0.0 && m * c == price && Abs(m' - m) <= HALF && Abs(c' - c) <= HALF
    ensures Abs(m' * c' - price) <= m * HALF + c * HALF + HALF * HALF
  {
    ProductError(m, c, m', c', HALF);
  }

  /** From the two stored ratios the output price comes back within the compounded rounding error. */
  lemma OutputPriceRecovered(prompt: real, completion: real, cacheRead: Option<real>)
    requires prompt > 0.0 && completion >= 0.0
    ensures Recovers(OpenRouterRatios(Pricing(Some(prompt), Some(completion), cacheRead)),
                     prompt * 1000.0 * 500.0, completion / prompt, completion * 1000.0 * 500.0)
  {
    StoredRatios(prompt, completion, cacheRead);
    ExactProduct(prompt, completion);
    RoundedRecovers(OpenRouterRatios(Pricing(Some(prompt), Some(completion), cacheRead)),
                    prompt * 1000.0 * 500.0, completion / prompt, completion * 1000.0 * 500.0);
  }

  // ---------------------------------------------------------------- the converters

  /** The three maps a conversion produces. */
  datatype Converted = Converted(model: map<string, real>, completion: map<string, real>, cache: map<string, real>)

  const NOTHING := Converted(map[], map[], map[])

  function PutIn(m: map<string, real>, id: string, r: Option<real>): map<string, real> {
    if r.Some? then m[id := r.value] else m
  }

  function Put(maps: Converted, id: string, r: Ratios): Converted {
    Converted(PutIn(maps.model, id, r.model), PutIn(maps.completion, id, r.completion), PutIn(maps.cache, id, r.cache))
  }

  function Get(m: map<string, real>, id: string): Option<real> { if id in m then Some(m[id]) else None }

  function Entry(maps: Converted, id: string): Ratios {
    Ratios(Get(maps.model, id), Get(maps.completion, id), Get(maps.cache, id))
  }

  datatype Listing = Listing(id: string, pricing: Pricing)

  function PutAll(listings: seq<Listing>): Converted {
    if listings == [] then NOTHING
    else var n := |listings| - 1;
         Put(PutAll(listings[..n]), listings[n].id, OpenRouterRatios(listings[n].pricing))
  }

  /** `convertOpenRouterToRatioData` once the response is decoded. */
  method ConvertOpenRouter(listings: seq<Listing>) returns (maps: Converted)
    ensures maps == PutAll(listings)
  {
    var model, completion, cache: map<string, real> := map[], map[], map[];
    var i := 0;
    while i < |listings|
      invariant 0 <= i <= |listings|
      invariant Converted(model, completion, cache) == PutAll(listings[..i])
    {
      var id, p := listings[i].id, listings[i].pricing;
      var prefix := listings[..i + 1];
      assert prefix[..i] == listings[..i] && prefix[i] == listings[i];
      i := i + 1;
      if p.prompt.None? && p.completion.None? {
        continue;
      }
      var promptPrice := if p.prompt.Some? then p.prompt.value else 0.0;
      var completionPrice := if p.completion.Some? then p.completion.value else 0.0;
      if promptPrice < 0.0 || completionPrice < 0.0 {
        continue;
      }
      if promptPrice == 0.0 && completionPrice == 0.0 {
        model := model[id := 0.0];
        continue;
      }
      if promptPrice <= 0.0 {
        continue;
      }
      model := model[id := RoundRatio(promptPrice * 1000.0 * 500.0)];
      completion := completion[id := RoundRatio(completionPrice / promptPrice)];
      if p.cacheRead.Some? && p.cacheRead.value >= 0.0 {
        cache := cache[id := RoundRatio(p.cacheRead.value / promptPrice)];
      }
    }
    assert listings[..i] == listings;
    maps := Converted(model, completion, cache);
  }

  predicate DistinctIds(listings: seq<Listing>) {
    forall i, j :: 0 <= i < j < |listings| ==> listings[i].id != listings[j].id
  }

  /** Each listed model gets its own ratios, and nothing else gets any. */
  lemma {:induction false} EachListingConverted(listings: seq<Listing>, id: string)
    requires DistinctIds(listings)
    ensures forall i :: 0 <= i < |listings| && listings[i].id == id ==>
                          Entry(PutAll(listings), id) == OpenRouterRatios(listings[i].pricing)
    ensures (forall i :: 0 <= i < |listings| ==> listings[i].id != id) ==> Entry(PutAll(listings), id) == NO_RATIOS
  {
    if listings != [] {
      EachListingConverted(listings[..|listings| - 1], id);
    }
  }

  /** The last loop of `convertModelsDevToRatioData`, over the selected candidates in any order. */
  method ConvertSelected(selected: map<string, Candidate>) returns (maps: Converted)
    ensures forall model :: Entry(maps, model) == RatiosOf(Lookup(selected, model))
  {
    maps := NOTHING;
    var left := selected.Keys;
    while left != {}
      invariant left <= selected.Keys
      invariant forall model :: Entry(maps, model) ==
                                if model in selected && model !in left then ModelsDevRatios(selected[model]) else NO_RATIOS
      decreases |left|
    {
      var model :| model in left;
      maps := Put(maps, model, ModelsDevRatios(selected[model]));
      left := left - {model};
    }
  }

  /** `convertModelsDevToRatioData` once the response is decoded; `None` stands for its two errors. */
  method ConvertModelsDev(data: PriceList) returns (r: Option<Converted>)
    ensures r.Some? ==> forall providers, model :: Lists(providers, data.Keys) ==>
                                                     Entry(r.value, model) == RatiosOf(Selected(data, providers, model))
    ensures r.None? <==> forall providers, model :: Lists(providers, data.Keys) ==> Selected(data, providers, model).None?
  {
    var listed := SortedKeys(data);
    var selected := SelectCandidates(data);
    if |selected| == 0 {
      assert forall model :: Lookup(selected, model).None?;
      return None;
    }
    ghost var witness_ := SomeKey(selected);
    assert Lookup(selected, witness_).Some? && Selected(data, listed, witness_).Some?;
    var maps := ConvertSelected(selected);
    forall providers, model | Lists(providers, data.Keys)
      ensures Entry(maps, model) == RatiosOf(Selected(data, providers, model))
    {
      assert Lookup(selected, model) == Selected(data, providers, model);
    }
    r := Some(maps);
  }

  lemma SomeKey(m: map<string, Candidate>) returns (k: string)
    requires |m| != 0
    ensures k in m
  {
    k :| k in m;
  }
}
