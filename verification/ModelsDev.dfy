/** Choosing one price per model among the providers of models.dev (controller/ratio_sync.go).

    Costs are reals: a JSON document holds neither NaN nor an infinity. */
module ModelsDev {
  import opened Prelude
  import opened Pricing

  datatype Cost = Cost(input: Option<real>, output: Option<real>, cacheRead: Option<real>)

  datatype Candidate = Candidate(provider: string, input: real, output: Option<real>, cacheRead: Option<real>)

  /** Providers, their models, and what these cost. */
  type Catalogue = map<string, map<string, Cost>>

  /** buildModelsDevCandidate */
  function BuildCandidate(provider: string, cost: Cost): Option<Candidate> {
    if cost.input.None? || cost.input.value < 0.0 then None
    else if cost.output.Some? && cost.output.value < 0.0 then None
    else if cost.input.value == 0.0 && cost.output.Some? && cost.output.value > 0.0 then None
    else
      var cacheRead := if cost.cacheRead.Some? && cost.cacheRead.value >= 0.0 then cost.cacheRead else None;
      Some(Candidate(provider, cost.input.value, cost.output, cacheRead))
  }

  /** shouldReplaceModelsDevCandidate */
  predicate ShouldReplace(current: Candidate, next: Candidate) {
    var currentNonZero, nextNonZero := current.input > 0.0, next.input > 0.0;
    if currentNonZero != nextNonZero then nextNonZero
    else if nextNonZero && !NearlyEqual(next.input, current.input) then next.input < current.input
    else Less(next.provider, current.provider)
  }

  // ------------------------------------------------------------ sort.Strings

  /** Go's order on strings. */
  predicate Less(a: string, b: string) {
    b != "" && (a == "" || a[0] < b[0] || (a[0] == b[0] && Less(a[1..], b[1..])))
  }

  lemma {:induction false} LessTransitive(a: string, b: string, c: string)
    requires Less(a, b) && Less(b, c)
    ensures Less(a, c)
  {
    if a != "" && a[0] == b[0] && b[0] == c[0] { LessTransitive(a[1..], b[1..], c[1..]); }
  }

  lemma {:induction false} LessTotal(a: string, b: string)
    ensures Less(a, b) || Less(b, a) || a == b
    ensures !(Less(a, b) && Less(b, a)) && !Less(a, a)
  {
    if a != "" {
      LessTotal(a[1..], a[1..]);
      if b != "" {
        LessTotal(a[1..], b[1..]);
        assert a == [a[0]] + a[1..] && b == [b[0]] + b[1..];
      }
    }
  }

  predicate AllLess(names: seq<string>, last: string) {
    forall name :: name in names ==> Less(name, last)
  }

  predicate Sorted(names: seq<string>) {
    names == [] || (Sorted(names[..|names| - 1]) && AllLess(names[..|names| - 1], names[|names| - 1]))
  }

  function Insert(name: string, names: seq<string>): seq<string> {
    if names == [] then [name]
    else
      var init, last := names[..|names| - 1], names[|names| - 1];
      if Less(last, name) then names + [name] else Insert(name, init) + [last]
  }

  lemma AllLessBelow(names: seq<string>, last: string, name: string)
    requires AllLess(names, last) && Less(last, name)
    ensures AllLess(names + [last], name)
  {
    forall other | other in names
      ensures Less(other, name)
    {
      LessTransitive(other, last, name);
    }
  }

  lemma SortedSnoc(names: seq<string>, last: string)
    ensures Sorted(names + [last]) <==> Sorted(names) && AllLess(names, last)
  {
    assert (names + [last])[..|names|] == names;
  }

  lemma {:induction false} InsertSorts(name: string, names: seq<string>)
    requires Sorted(names) && name !in names
    ensures Sorted(Insert(name, names))
    ensures forall other :: other in Insert(name, names) <==> other == name || other in names
  {
    if names == [] {
      assert [name][..0] == [];
    } else {
      var init, last := names[..|names| - 1], names[|names| - 1];
      assert names == init + [last];
      if Less(last, name) {
        AllLessBelow(init, last, name);
        SortedSnoc(names, name);
      } else {
        assert last in names;
        LessTotal(last, name);
        InsertSorts(name, init);
        SortedSnoc(Insert(name, init), last);
      }
    }
  }

  /** The keys of a map, collected in any order and sorted. */
  method SortedKeys(keys: set<string>) returns (names: seq<string>)
    ensures Sorted(names) && forall name :: name in names <==> name in keys
  {
    var todo := keys;
    names := [];
    while todo != {}
      invariant todo <= keys && Sorted(names)
      invariant forall name :: name in names <==> name in keys && name !in todo
    {
      var name :| name in todo;
      InsertSorts(name, names);
      names := Insert(name, names);
      todo := todo - {name};
    }
  }

  /** Only one sorted list has these keys, so the order of collecting them is lost. */
  lemma {:induction false} SortedUnique(a: seq<string>, b: seq<string>)
    requires Sorted(a) && Sorted(b) && forall name :: name in a <==> name in b
    ensures a == b
  {
    if a == [] {
      HasLast(b);
    } else {
      HasLast(a);
      var initA, lastA := a[..|a| - 1], a[|a| - 1];
      var initB, lastB := b[..|b| - 1], b[|b| - 1];
      assert a == initA + [lastA] && b == initB + [lastB];
      assert lastA in a && lastB in b;
      LessTotal(lastA, lastB);
      LessTotal(lastA, lastA);
      assert lastA == lastB;
      forall name
        ensures name in initA <==> name in initB
      {
        assert name in initA <==> name in a && name != lastA;
        assert name in initB <==> name in b && name != lastB;
      }
      SortedUnique(initA, initB);
    }
  }

  lemma HasLast(names: seq<string>)
    ensures names != [] ==> exists name :: name in names
  {
    if names != [] { assert names[|names| - 1] in names; }
  }

  // ----------------------------------------------------------- the selection

  function Offer(catalogue: Catalogue, provider: string, model: string): Option<Candidate> {
    if provider in catalogue && model in catalogue[provider]
    then BuildCandidate(provider, catalogue[provider][model])
    else None
  }

  /** The candidates for a model, provider by provider. */
  function Offers(catalogue: Catalogue, providers: seq<string>, model: string): seq<Candidate> {
    if providers == [] then []
    else
      var offer := Offer(catalogue, providers[|providers| - 1], model);
      Offers(catalogue, providers[..|providers| - 1], model) + if offer.Some? then [offer.value] else []
  }

  function Better(current: Option<Candidate>, next: Candidate): Option<Candidate> {
    if current.None? || ShouldReplace(current.value, next) then Some(next) else current
  }

  /** What is selected when the candidates come in this order. */
  function Winner(candidates: seq<Candidate>): Option<Candidate> {
    if candidates == [] then None else Better(Winner(candidates[..|candidates| - 1]), candidates[|candidates| - 1])
  }

  function Lookup(selected: map<string, Candidate>, model: string): Option<Candidate> {
    if model in selected then Some(selected[model]) else None
  }

  function Updated(current: Option<Candidate>, offer: Option<Candidate>): Option<Candidate> {
    if offer.None? then current else Better(current, offer.value)
  }

  /** One provider's models. */
  method AddProvider(catalogue: Catalogue, provider: string, before: map<string, Candidate>)
    returns (selected: map<string, Candidate>)
    requires provider in catalogue
    ensures forall model :: Lookup(selected, model) == Updated(Lookup(before, model), Offer(catalogue, provider, model))
  {
    selected := before;
    var models := catalogue[provider];
    var modelNames := SortedKeys(models.Keys);
    for i := 0 to |modelNames|
      invariant forall model :: Lookup(selected, model)
                  == if model in modelNames[..i]
                     then Updated(Lookup(before, model), Offer(catalogue, provider, model))
                     else Lookup(before, model)
    {
      var modelName := modelNames[i];
      SortedAt(modelNames, i);
      assert modelName in modelNames;
      var candidate := BuildCandidate(provider, models[modelName]);
      if candidate.Some? && (modelName !in selected || ShouldReplace(selected[modelName], candidate.value)) {
        selected := selected[modelName := candidate.value];
      }
    }
    assert modelNames[..|modelNames|] == modelNames;
  }

  lemma {:induction false} SortedAt(names: seq<string>, i: nat)
    requires Sorted(names) && i < |names|
    ensures names[i] !in names[..i]
  {
    var init := names[..|names| - 1];
    if i < |init| {
      SortedAt(init, i);
      assert init[..i] == names[..i];
    } else {
      LessTotal(names[i], names[i]);
    }
  }

  /** The selection loop of convertModelsDevToRatioData: for every model the winner among its candidates, the
      providers taken in the order of their names. */
  method SelectCandidates(catalogue: Catalogue) returns (selected: map<string, Candidate>)
    ensures forall providers, model :: Sorted(providers) && (set p | p in providers) == catalogue.Keys ==>
              Lookup(selected, model) == Winner(Offers(catalogue, providers, model))
    ensures forall model :: model in selected ==> IsBest(catalogue, model, selected[model])
    ensures forall model :: model !in selected ==> forall provider :: Offer(catalogue, provider, model).None?
  {
    var providers := SortedKeys(catalogue.Keys);
    selected := map[];
    for i := 0 to |providers|
      invariant forall model :: Lookup(selected, model) == Winner(Offers(catalogue, providers[..i], model))
    {
      assert providers[..i + 1][..i] == providers[..i];
      assert providers[i] in providers;
      ghost var before := selected;
      selected := AddProvider(catalogue, providers[i], selected);
      forall model
        ensures Lookup(selected, model) == Winner(Offers(catalogue, providers[..i + 1], model))
      {
        WinnerStep(catalogue, providers[..i], providers[i], model);
      }
    }
    assert providers[..|providers|] == providers;
    SelectedMeaning(catalogue, providers, selected);
  }

  lemma WinnerStep(catalogue: Catalogue, providers: seq<string>, provider: string, model: string)
    ensures Winner(Offers(catalogue, providers + [provider], model))
         == Updated(Winner(Offers(catalogue, providers, model)), Offer(catalogue, provider, model))
  {
    var offers, offer := Offers(catalogue, providers, model), Offer(catalogue, provider, model);
    assert (providers + [provider])[..|providers|] == providers;
    if offer.Some? {
      assert (offers + [offer.value])[..|offers|] == offers;
    } else {
      assert offers + [] == offers;
    }
  }

  // ------------------------------------------------------- what is selected

  /** The selected candidate among all candidates of a model. */
  ghost predicate IsBest(catalogue: Catalogue, model: string, winner: Candidate) {
    && Offer(catalogue, winner.provider, model) == Some(winner)
    && forall provider :: Offer(catalogue, provider, model).Some? ==>
         NotBeaten(winner, Offer(catalogue, provider, model).value)
  }

  /** A non-zero price wins over zero; no non-zero price is lower by 1e-9 or more; of exactly equal prices
      the first provider's. */
  predicate NotBeaten(winner: Candidate, other: Candidate) {
    && (other.input > 0.0 ==> 0.0 < winner.input < other.input + EPSILON)
    && (other.input == winner.input ==> winner.provider == other.provider || Less(winner.provider, other.provider))
  }

  predicate ByProvider(candidates: seq<Candidate>) {
    candidates == [] ||
    (ByProvider(candidates[..|candidates| - 1]) &&
     forall c :: c in candidates[..|candidates| - 1] ==> Less(c.provider, candidates[|candidates| - 1].provider))
  }

  /** Whoever is not beaten by the current winner is not beaten by the next one. */
  lemma BetterNotBeaten(current: Candidate, next: Candidate, c: Candidate)
    requires NotBeaten(current, c) && Less(c.provider, next.provider) && Less(current.provider, next.provider)
    requires current.input >= 0.0 && next.input >= 0.0 && c.input >= 0.0
    ensures NotBeaten(Better(Some(current), next).value, c)
  {
    LessTotal(current.provider, next.provider);
  }

  lemma NextNotBeaten(current: Candidate, next: Candidate)
    requires Less(current.provider, next.provider) && current.input >= 0.0 && next.input >= 0.0
    ensures NotBeaten(Better(Some(current), next).value, next)
  {
    LessTotal(current.provider, next.provider);
  }

  ghost predicate NoneBeats(candidates: seq<Candidate>, winner: Candidate) {
    forall c :: c in candidates ==> NotBeaten(winner, c)
  }

  lemma StepNotBeaten(init: seq<Candidate>, current: Candidate, next: Candidate)
    requires NoneBeats(init, current) && current in init && next.input >= 0.0
    requires forall c :: c in init ==> c.input >= 0.0 && Less(c.provider, next.provider)
    ensures NoneBeats(init + [next], Better(Some(current), next).value)
  {
    NextNotBeaten(current, next);
    forall c | c in init
      ensures NotBeaten(Better(Some(current), next).value, c)
    {
      BetterNotBeaten(current, next, c);
    }
  }

  /** Although the comparison is not transitive, whoever is displaced stays beaten. */
  lemma {:induction false} WinnerNotBeaten(candidates: seq<Candidate>)
    requires ByProvider(candidates) && forall c :: c in candidates ==> c.input >= 0.0
    ensures candidates != [] ==> Winner(candidates).Some? && Winner(candidates).value in candidates
    ensures candidates != [] ==> NoneBeats(candidates, Winner(candidates).value)
  {
    if candidates != [] {
      var init, next := candidates[..|candidates| - 1], candidates[|candidates| - 1];
      assert candidates == init + [next];
      if init == [] {
        assert candidates == [next];
      } else {
        WinnerNotBeaten(init);
        StepNotBeaten(init, Winner(init).value, next);
      }
    }
  }

  lemma {:induction false} OffersByProvider(catalogue: Catalogue, providers: seq<string>, model: string)
    requires Sorted(providers)
    ensures ByProvider(Offers(catalogue, providers, model))
    ensures forall c :: c in Offers(catalogue, providers, model) <==>
              c.provider in providers && Offer(catalogue, c.provider, model) == Some(c)
  {
    if providers != [] {
      var init, last := providers[..|providers| - 1], providers[|providers| - 1];
      assert providers == init + [last];
      OffersByProvider(catalogue, init, model);
      var offers, offer := Offers(catalogue, init, model), Offer(catalogue, last, model);
      if offer.Some? {
        assert (offers + [offer.value])[..|offers|] == offers;
      } else {
        assert offers + [] == offers;
      }
    }
  }

  lemma SelectedMeaning(catalogue: Catalogue, providers: seq<string>, selected: map<string, Candidate>)
    requires Sorted(providers) && forall p :: p in providers <==> p in catalogue
    requires forall model :: Lookup(selected, model) == Winner(Offers(catalogue, providers, model))
    ensures forall others, model :: Sorted(others) && (set p | p in others) == catalogue.Keys ==>
              Lookup(selected, model) == Winner(Offers(catalogue, others, model))
    ensures forall model :: model in selected ==> IsBest(catalogue, model, selected[model])
    ensures forall model :: model !in selected ==> forall provider :: Offer(catalogue, provider, model).None?
  {
    forall others | Sorted(others) && (set p | p in others) == catalogue.Keys
      ensures others == providers
    {
      assert forall p :: p in others <==> p in (set q | q in others);
      SortedUnique(others, providers);
    }
    forall model
      ensures model in selected ==> IsBest(catalogue, model, selected[model])
      ensures model !in selected ==> forall provider :: Offer(catalogue, provider, model).None?
    {
      BestOffer(catalogue, providers, model);
    }
  }

  lemma BestOffer(catalogue: Catalogue, providers: seq<string>, model: string)
    requires Sorted(providers) && forall p :: p in providers <==> p in catalogue
    ensures var winner := Winner(Offers(catalogue, providers, model));
            if winner.Some? then IsBest(catalogue, model, winner.value)
              else forall provider :: Offer(catalogue, provider, model).None?
  {
    var offers := Offers(catalogue, providers, model);
    OffersByProvider(catalogue, providers, model);
    WinnerNotBeaten(offers);
    forall provider | Offer(catalogue, provider, model).Some?
      ensures Offer(catalogue, provider, model).value in offers
    {
    }
  }

  // ------------------------------------------------------ not the cheapest

  /** A non-zero price within 1e-9 above every one to come is final. */
  lemma {:induction false} StaysSelected(before: seq<Candidate>, after: seq<Candidate>)
    requires ByProvider(before + after) && before != [] && Winner(before).value.input > 0.0
    requires forall c :: c in after && c.input > 0.0 ==> Winner(before).value.input < c.input + EPSILON
    requires Winner(before).value in before
    ensures Winner(before + after) == Winner(before)
  {
    if after == [] {
      assert before + after == before;
    } else {
      var init, next := after[..|after| - 1], after[|after| - 1];
      assert (before + after)[..|before + after| - 1] == before + init;
      StaysSelected(before, init);
      LessTotal(Winner(before).value.provider, next.provider);
      assert Winner(before).value in before + init;
    }
  }

  /** Let x be the lowest non-zero price and `cheapest` the first candidate that has it.  The selection costs
      x if and only if nothing selected before that candidate costs less than x + 1e-9. */
  lemma CheapestIff(before: seq<Candidate>, cheapest: Candidate, after: seq<Candidate>)
    requires ByProvider(before + [cheapest] + after) && cheapest.input > 0.0
    requires forall c :: c in before ==> c.input == 0.0 || c.input > cheapest.input
    requires forall c :: c in after ==> c.input == 0.0 || c.input >= cheapest.input
    ensures var earlier := Winner(before);
            Winner(before + [cheapest] + after).value.input == cheapest.input
            <==> earlier.None? || earlier.value.input == 0.0 || earlier.value.input >= cheapest.input + EPSILON
  {
    var upTo := before + [cheapest];
    assert (upTo + after)[..|upTo|] == upTo && upTo[..|before|] == before;
    PrefixByProvider(upTo + after, |upTo|);
    WinnerNotBeaten(before);
    if before != [] {
      var current := Winner(before).value;
      LessTotal(current.provider, cheapest.provider);
      assert current in before && current in upTo;
    }
    assert Winner(upTo) == Better(Winner(before), cheapest);
    assert cheapest in upTo;
    StaysSelected(upTo, after);
  }

  lemma {:induction false} PrefixByProvider(candidates: seq<Candidate>, k: nat)
    requires ByProvider(candidates) && k <= |candidates|
    ensures ByProvider(candidates[..k])
  {
    if k < |candidates| {
      var init := candidates[..|candidates| - 1];
      PrefixByProvider(init, k);
      assert init[..k] == candidates[..k];
    } else {
      assert candidates[..k] == candidates;
    }
  }

  /** Prices that differ by 1e-9 or more from the lowest one leave no room for another choice. */
  lemma CheapestWhenApart(candidates: seq<Candidate>, k: nat)
    requires ByProvider(candidates) && k < |candidates| && forall c :: c in candidates ==> c.input >= 0.0
    requires candidates[k].input > 0.0
    requires forall c :: c in candidates && c.input > 0.0 ==>
        candidates[k].input == c.input || candidates[k].input + EPSILON <= c.input
    ensures Winner(candidates).value.input == candidates[k].input
  {
    WinnerNotBeaten(candidates);
    assert candidates[k] in candidates;
  }

  function Priced(provider: string, input: real): Candidate {
    Candidate(provider, input, None, None)
  }

  /** The documentation promises the cheapest non-zero price, but an earlier provider within 1e-9 keeps its place. */
  lemma NotTheCheapest(p: string, q: string)
    requires Less(p, q)
    ensures var first, cheaper := Priced(p, 1.0000000005), Priced(q, 1.0);
            Winner([first, cheaper]) == Some(first)
  {
    WinnerOfTwo(Priced(p, 1.0000000005), Priced(q, 1.0));
    LessTotal(p, q);
  }

  /** Being nearly equal is not transitive: the same three prices under other provider names, another choice. */
  lemma NamesMatter(p: string, q: string, r: string)
    requires Less(p, q) && Less(q, r) && Less(p, r)
    ensures Winner([Priced(p, 1.0000000006), Priced(q, 1.0000000012), Priced(r, 1.0)]).value.input == 1.0000000006
    ensures Winner([Priced(p, 1.0000000012), Priced(q, 1.0000000006), Priced(r, 1.0)]).value.input == 1.0
  {
    LessTotal(p, q);
    LessTotal(q, r);
    LessTotal(p, r);
    WinnerOfThree(Priced(p, 1.0000000006), Priced(q, 1.0000000012), Priced(r, 1.0));
    WinnerOfThree(Priced(p, 1.0000000012), Priced(q, 1.0000000006), Priced(r, 1.0));
  }

  lemma WinnerOfTwo(a: Candidate, b: Candidate)
    ensures Winner([a, b]) == Better(Some(a), b)
  {
    assert [a, b][..1] == [a] && [a][..0] == [];
    assert Winner([a]) == Some(a);
  }

  lemma WinnerOfThree(a: Candidate, b: Candidate, c: Candidate)
    ensures Winner([a, b, c]) == Better(Better(Some(a), b), c)
  {
    assert [a, b, c][..2] == [a, b];
    WinnerOfTwo(a, b);
  }

  // ------------------------------------------------------ in plain terms

  /** An offer needs a price that is not negative, no negative output price, and no output price for a free input;
      it keeps the prices, but for a negative one of cached input. */
  lemma OfferIff(catalogue: Catalogue, provider: string, model: string)
    requires provider in catalogue && model in catalogue[provider]
    ensures var cost, offer := catalogue[provider][model], Offer(catalogue, provider, model);
            && (offer.Some?
                <==> && cost.input.Some? && cost.input.value >= 0.0
                     && (cost.output.Some? ==> cost.output.value >= 0.0)
                     && (cost.output.Some? && cost.output.value > 0.0 ==> cost.input.value > 0.0))
            && (offer.Some? ==>
                  && offer.value.provider == provider && Some(offer.value.input) == cost.input
                  && offer.value.output == cost.output
                  && (cost.cacheRead.Some? && cost.cacheRead.value >= 0.0 ==> offer.value.cacheRead == cost.cacheRead)
                  && (cost.cacheRead.None? || cost.cacheRead.value < 0.0 ==> offer.value.cacheRead == None))
  {
  }

  lemma NoOffer(catalogue: Catalogue, provider: string, model: string)
    requires provider !in catalogue || model !in catalogue[provider]
    ensures Offer(catalogue, provider, model) == None
  {
  }

  /** A selected price is one of the catalogue; every other offer that is not free costs more than it less 1e-9. */
  lemma SelectedPrice(catalogue: Catalogue, model: string, winner: Candidate, provider: string)
    requires IsBest(catalogue, model, winner)
    requires provider in catalogue && model in catalogue[provider] && Offer(catalogue, provider, model).Some?
    ensures winner.provider in catalogue && model in catalogue[winner.provider]
    ensures catalogue[winner.provider][model].input == Some(winner.input)
    ensures catalogue[provider][model].input.value > 0.0 ==>
              0.0 < winner.input < catalogue[provider][model].input.value + 0.000000001
  {
  }

  /** Strings are ordered by their first difference, and a prefix comes first. */
  lemma {:induction false} FirstDifference(common: string, c: char, a: string, d: char, b: string)
    ensures c < d ==> Less(common + [c] + a, common + [d] + b)
    ensures Less(common, common + [c] + a)
  {
    if common != "" {
      FirstDifference(common[1..], c, a, d, b);
      assert (common + [c] + a)[1..] == common[1..] + [c] + a;
      assert (common + [d] + b)[1..] == common[1..] + [d] + b;
    }
  }
}
