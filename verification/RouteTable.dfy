/** The advanced route table of a channel (dto/channel_settings.go): validation and lookup.

    Regular expressions and URL parsing are parameters: which patterns compile, which models a pattern
    matches, and which targets parse as URLs with which scheme. */
module RouteTable {
  import opened Prelude
  import opened Text
  import opened PathTemplate

  datatype Auth = Auth(kind: string, name: string, value: string)

  datatype Route = Route(incomingPath: string, upstreamPath: string, converter: string, models: seq<string>,
                         auth: Option<Auth>)

  /** The libraries behind the validator; a URL is reduced to its scheme, None if it has no scheme or host. */
  datatype Env = Env(compiles: string -> bool, matches: (string, string) -> bool, webScheme: string -> Option<string>)

  const REGEX := "re:"

  function Path(r: Route): string {
    TrimSpace(r.incomingPath)
  }

  /** normalizeAdvancedCustomRouteModels */
  function Rules(models: seq<string>): seq<string> {
    if models == [] then []
    else
      var rule := TrimSpace(models[0]);
      (if rule == "" then [] else [rule]) + Rules(models[1..])
  }

  predicate CatchAll(r: Route) {
    Rules(r.models) == []
  }

  // ------------------------------------------------- checks on one route

  predicate PathOk(r: Route) {
    Path(r) != "" && HasPrefix(Path(r), "/") && !Contains(Path(r), "?")
  }

  predicate RuleOk(rule: string, env: Env) {
    HasPrefix(rule, REGEX) ==> rule != REGEX && env.compiles(TrimPrefix(rule, REGEX))
  }

  predicate TargetOk(r: Route, env: Env) {
    var target := TrimSpace(r.upstreamPath);
    && target != ""
    && (if HasPrefix(target, "/") then !HasPrefix(target, "//")
        else env.webScheme(target) in {Some("http"), Some("https")})
  }

  const NONE := "none"
  const CHAT := "/v1/chat/completions"
  const RESPONSES := "/v1/responses"
  const MESSAGES := "/v1/messages"

  /** The incoming path a converter is registered for; NONE fits every path, GENERATE stands for the Gemini actions. */
  const CONVERTERS: map<string, string> := map[
    "none" := NONE,
    "anthropic_messages_to_openai_chat_completions" := MESSAGES,
    "openai_chat_completions_to_anthropic_messages" := CHAT,
    "openai_chat_completions_to_openai_responses" := CHAT,
    "openai_responses_to_openai_chat_completions" := RESPONSES,
    "openai_responses_to_gemini_generate_content" := RESPONSES,
    "gemini_generate_content_to_openai_chat_completions" := GENERATE,
    "openai_chat_completions_to_gemini_generate_content" := CHAT
  ]

  predicate ConverterOk(r: Route) {
    var converter := if TrimSpace(r.converter) == "" then NONE else TrimSpace(r.converter);
    && converter in CONVERTERS
    && var fits := CONVERTERS[converter];
       || fits == NONE
       || (if fits == GENERATE then Contains(Path(r), GENERATE) || Contains(Path(r), STREAM) else Path(r) == fits)
  }

  predicate AuthOk(r: Route) {
    r.auth.Some? ==>
      var kind := TrimSpace(r.auth.value.kind);
      || kind == NONE
      || (kind in {"header", "query"} && TrimSpace(r.auth.value.name) != "" && TrimSpace(r.auth.value.value) != "")
  }

  // --------------------------------------------------------- specification

  predicate Distinct(rules: seq<string>) {
    forall i, j :: 0 <= i < j < |rules| ==> rules[i] != rules[j]
  }

  predicate RouteOk(r: Route, env: Env) {
    && PathOk(r) && TargetOk(r, env) && ConverterOk(r) && AuthOk(r)
    && Distinct(Rules(r.models))
    && forall rule :: rule in Rules(r.models) ==> RuleOk(rule, env)
  }

  /** Two routes of one path, in this order: the first is no catch-all and no rule is in both. */
  predicate Compatible(first: Route, later: Route) {
    Path(first) == Path(later) ==>
      && !CatchAll(first)
      && forall rule :: rule in Rules(first.models) ==> rule !in Rules(later.models)
  }

  /** The first n routes are fine one by one, and fit behind one another. */
  predicate PrefixOk(routes: seq<Route>, n: nat, ok: Route -> bool)
    requires n <= |routes|
  {
    && (forall i :: 0 <= i < n ==> ok(routes[i]))
    && (forall i, j :: 0 <= i < j < n ==> Compatible(routes[i], routes[j]))
  }

  predicate ConfigOk(routes: seq<Route>, env: Env) {
    routes != [] && PrefixOk(routes, |routes|, r => RouteOk(r, env))
  }

  // ------------------------------------------------------------- validator

  datatype RouteError =
    NoRoutes | BadPath(i: nat) | BadModels(i: nat) | BadTarget(i: nat) | BadConverter(i: nat) | BadAuth(i: nat)

  /** advancedCustomPathModelState */
  datatype PathState = PathState(catchAll: bool, models: set<string>)

  function StateOf(paths: map<string, PathState>, path: string): PathState {
    if path in paths then paths[path] else PathState(false, {})
  }

  /** The state of a path sums up the routes seen so far. */
  predicate Sums(state: PathState, path: string, routes: seq<Route>, n: nat)
    requires n <= |routes|
  {
    && (forall i :: 0 <= i < n && Path(routes[i]) == path && CatchAll(routes[i]) ==> state.catchAll)
    && (state.catchAll ==> exists i :: 0 <= i < n && Path(routes[i]) == path && CatchAll(routes[i]))
    && (forall i, rule :: 0 <= i < n && Path(routes[i]) == path && rule in Rules(routes[i].models) ==>
         rule in state.models)
    && (forall rule :: rule in state.models ==>
          exists i :: 0 <= i < n && Path(routes[i]) == path && rule in Rules(routes[i].models))
  }

  /** validateAdvancedCustomRouteModels */
  method CheckModels(state: PathState, rules: seq<string>, env: Env) returns (ok: bool, state': PathState)
    ensures ok <==> !state.catchAll && Distinct(rules)
                    && (forall rule :: rule in rules ==> RuleOk(rule, env) && rule !in state.models)
    ensures ok ==> state' == PathState(rules == [], state.models + set rule | rule in rules)
  {
    state' := state;
    if |rules| == 0 {
      if state.catchAll { return false, state; }
      return true, state.(catchAll := true);
    }
    if state.catchAll { return false, state; }
    var seen := {};
    for i := 0 to |rules|
      invariant seen == set rule | rule in rules[..i]
      invariant state' == state.(models := state.models + seen)
      invariant forall j, k :: 0 <= j < k < i ==> rules[j] != rules[k]
      invariant forall j :: 0 <= j < i ==> RuleOk(rules[j], env) && rules[j] !in state.models
    {
      var rule := rules[i];
      assert rule in rules;
      if HasPrefix(rule, REGEX) && (rule == REGEX || !env.compiles(TrimPrefix(rule, REGEX))) {
        assert !RuleOk(rule, env);
        return false, state;
      }
      if rule in seen { return false, state; }
      if rule in state'.models { return false, state; }
      seen := seen + {rule};
      state' := state'.(models := state'.models + {rule});
    }
    assert rules[..|rules|] == rules;
    return true, state';
  }

  /** Taking a route into the state of its path keeps the sum. */
  lemma SumsGrow(state: PathState, routes: seq<Route>, n: nat)
    requires n < |routes| && Sums(state, Path(routes[n]), routes, n) && !state.catchAll
    ensures var rules := Rules(routes[n].models);
            Sums(PathState(rules == [], state.models + set rule | rule in rules), Path(routes[n]), routes, n + 1)
  {
  }

  lemma SumsElsewhere(state: PathState, path: string, routes: seq<Route>, n: nat)
    requires n < |routes| && Sums(state, path, routes, n) && Path(routes[n]) != path
    ensures Sums(state, path, routes, n + 1)
  {
  }

  lemma PrefixGrows(routes: seq<Route>, n: nat, ok: Route -> bool)
    requires n < |routes| && PrefixOk(routes, n, ok)
    ensures PrefixOk(routes, n + 1, ok)
       <==> ok(routes[n]) && forall i :: 0 <= i < n ==> Compatible(routes[i], routes[n])
  {
  }

  /** The state of its path decides whether a route fits behind the earlier ones. */
  lemma FitsIff(state: PathState, routes: seq<Route>, n: nat)
    requires n < |routes| && Sums(state, Path(routes[n]), routes, n)
    ensures (forall i :: 0 <= i < n ==> Compatible(routes[i], routes[n])) <==>
            !state.catchAll && forall rule :: rule in Rules(routes[n].models) ==> rule !in state.models
  {
    var path, rules := Path(routes[n]), Rules(routes[n].models);
    if forall i :: 0 <= i < n ==> Compatible(routes[i], routes[n]) {
      forall rule | rule in rules
        ensures rule !in state.models
      {
        assert forall i :: 0 <= i < n && Path(routes[i]) == path ==> rule !in Rules(routes[i].models);
      }
    } else {
      var i :| 0 <= i < n && !Compatible(routes[i], routes[n]);
      if !CatchAll(routes[i]) {
        var rule :| rule in Rules(routes[i].models) && rule in rules;
        assert rule in state.models;
      }
    }
  }

  /** One pass of the validation loop. */
  method CheckRoute(route: Route, i: nat, state: PathState, env: Env)
    returns (error: Option<RouteError>, state': PathState)
    ensures var rules := Rules(route.models);
            && (error.None?
                <==> RouteOk(route, env) && !state.catchAll && forall rule :: rule in rules ==> rule !in state.models)
            && (error.None? ==> state' == PathState(rules == [], state.models + set rule | rule in rules))
  {
    state' := state;
    if !PathOk(route) { return Some(BadPath(i)), state; }
    var fits;
    fits, state' := CheckModels(state, Rules(route.models), env);
    if !fits { return Some(BadModels(i)), state'; }
    if !TargetOk(route, env) { return Some(BadTarget(i)), state'; }
    if !ConverterOk(route) { return Some(BadConverter(i)), state'; }
    if !AuthOk(route) { return Some(BadAuth(i)), state'; }
    return None, state';
  }

  /** The state of every path sums up the routes seen so far. */
  ghost predicate AllSum(paths: map<string, PathState>, routes: seq<Route>, n: nat)
    requires n <= |routes|
  {
    forall path :: Sums(StateOf(paths, path), path, routes, n)
  }

  lemma AllSumGrow(paths: map<string, PathState>, routes: seq<Route>, n: nat)
    requires n < |routes| && AllSum(paths, routes, n) && !StateOf(paths, Path(routes[n])).catchAll
    ensures var path, rules := Path(routes[n]), Rules(routes[n].models);
            var state' := PathState(rules == [], StateOf(paths, path).models + set rule | rule in rules);
            AllSum(paths[path := state'], routes, n + 1)
  {
    var path, rules := Path(routes[n]), Rules(routes[n].models);
    var state := StateOf(paths, path);
    var grown := paths[path := PathState(rules == [], state.models + set rule | rule in rules)];
    SumsGrow(state, routes, n);
    forall p
      ensures Sums(StateOf(grown, p), p, routes, n + 1)
    {
      if p != path { SumsElsewhere(StateOf(paths, p), p, routes, n); }
    }
  }

  lemma PrefixShrinks(routes: seq<Route>, n: nat, ok: Route -> bool)
    requires n <= |routes|
    ensures PrefixOk(routes, |routes|, ok) ==> PrefixOk(routes, n, ok)
  {
  }

  /** AdvancedCustomConfig.Validate accepts exactly the well-formed configurations. */
  method Validate(routes: seq<Route>, env: Env) returns (error: Option<RouteError>)
    ensures error.None? <==> ConfigOk(routes, env)
  {
    if |routes| == 0 {
      return Some(NoRoutes);
    }
    ghost var ok := (r: Route) => RouteOk(r, env);
    var paths: map<string, PathState> := map[];
    for i := 0 to |routes|
      invariant PrefixOk(routes, i, ok) && AllSum(paths, routes, i)
    {
      var route := routes[i];
      var path := Path(route);
      var state := StateOf(paths, path);
      PrefixGrows(routes, i, ok);
      PrefixShrinks(routes, i + 1, ok);
      FitsIff(state, routes, i);
      var state';
      error, state' := CheckRoute(route, i, state, env);
      if error.Some? { return; }
      AllSumGrow(paths, routes, i);
      paths := paths[path := state'];
    }
    return None;
  }

  // ---------------------------------------------------------------- lookup

  /** matchAdvancedCustomRouteModelRule */
  predicate RuleMatches(rule: string, model: string, env: Env) {
    if !HasPrefix(rule, REGEX) then rule == model
    else
      var pattern := TrimPrefix(rule, REGEX);
      pattern != "" && env.compiles(pattern) && env.matches(pattern, model)
  }

  predicate RouteMatches(r: Route, request: string, model: string, env: Env) {
    && MatchesPath(Path(r), request)
    && (CatchAll(r) || exists rule :: rule in Rules(r.models) && RuleMatches(rule, model, env))
  }

  /** MatchPathForModel: the first route that matches. */
  method MatchPathForModel(routes: seq<Route>, request: string, model: string, env: Env) returns (found: Option<nat>)
    ensures found.None? ==> forall i :: 0 <= i < |routes| ==> !RouteMatches(routes[i], request, TrimSpace(model), env)
    ensures found.Some? ==> IsFirst(routes, found.value, request, TrimSpace(model), env)
  {
    var name := TrimSpace(model);
    found := FirstServing(routes, r => RouteMatches(r, request, name, env));
  }

  method FirstServing(routes: seq<Route>, serves: Route -> bool) returns (found: Option<nat>)
    ensures found.None? ==> forall i :: 0 <= i < |routes| ==> !serves(routes[i])
    ensures found.Some? ==>
              && found.value < |routes| && serves(routes[found.value])
              && forall j :: 0 <= j < found.value ==> !serves(routes[j])
  {
    for i := 0 to |routes|
      invariant forall j :: 0 <= j < i ==> !serves(routes[j])
    {
      if serves(routes[i]) {
        return Some(i);
      }
    }
    return None;
  }

  predicate IsFirst(routes: seq<Route>, i: nat, request: string, model: string, env: Env) {
    && i < |routes| && RouteMatches(routes[i], request, model, env)
    && forall j :: 0 <= j < i ==> !RouteMatches(routes[j], request, model, env)
  }

  /** Every route that could serve the request has one path and only exact rules. */
  predicate ExactAt(routes: seq<Route>, request: string, path: string) {
    forall i :: 0 <= i < |routes| && MatchesPath(Path(routes[i]), request) ==>
      Path(routes[i]) == path && forall rule :: rule in Rules(routes[i].models) ==> !HasPrefix(rule, REGEX)
  }

  predicate Lists(r: Route, request: string, model: string) {
    MatchesPath(Path(r), request) && model in Rules(r.models)
  }

  /** What validation guarantees for lookup. */
  predicate AllCompatible(routes: seq<Route>) {
    forall i, j :: 0 <= i < j < |routes| ==> Compatible(routes[i], routes[j])
  }

  lemma ValidIsCompatible(routes: seq<Route>, env: Env)
    requires ConfigOk(routes, env)
    ensures AllCompatible(routes)
  {
  }

  /** Two candidates for one request: not both catch-alls, not both list the model, and a catch-all comes last. */
  lemma CandidatesDiffer(routes: seq<Route>, request: string, path: string, model: string, j: nat, k: nat)
    requires AllCompatible(routes) && ExactAt(routes, request, path) && j < k < |routes|
    requires MatchesPath(Path(routes[j]), request) && MatchesPath(Path(routes[k]), request)
    ensures !CatchAll(routes[j]) && !(Lists(routes[j], request, model) && Lists(routes[k], request, model))
  {
  }

  lemma CandidateMatchesIff(routes: seq<Route>, env: Env, request: string, path: string, model: string, j: nat)
    requires ExactAt(routes, request, path) && j < |routes| && MatchesPath(Path(routes[j]), request)
    ensures RouteMatches(routes[j], request, model, env) <==> CatchAll(routes[j]) || Lists(routes[j], request, model)
  {
  }

  /** In a valid table at most one exact rule applies, and a catch-all is found only if none does: first
      match is lookup by model name with a default. */
  lemma FirstMatchIsLookup(routes: seq<Route>, env: Env, request: string, path: string, model: string, i: nat)
    requires ConfigOk(routes, env) && ExactAt(routes, request, path) && IsFirst(routes, i, request, model, env)
    ensures Lists(routes[i], request, model) <==> exists j :: 0 <= j < |routes| && Lists(routes[j], request, model)
    ensures Lists(routes[i], request, model) ==>
              forall j :: 0 <= j < |routes| && Lists(routes[j], request, model) ==> j == i
    ensures !Lists(routes[i], request, model) ==> CatchAll(routes[i])
    ensures !Lists(routes[i], request, model) ==>
              forall j :: 0 <= j < |routes| && MatchesPath(Path(routes[j]), request) && CatchAll(routes[j]) ==> j == i
  {
    ValidIsCompatible(routes, env);
    CandidateMatchesIff(routes, env, request, path, model, i);
    forall j | 0 <= j < |routes| && j != i && MatchesPath(Path(routes[j]), request)
      ensures Lists(routes[j], request, model) ==> i < j && !Lists(routes[i], request, model) && !CatchAll(routes[i])
      ensures CatchAll(routes[j]) ==> !CatchAll(routes[i])
    {
      CandidateMatchesIff(routes, env, request, path, model, j);
      if i < j {
        CandidatesDiffer(routes, request, path, model, i, j);
      } else {
        CandidatesDiffer(routes, request, path, model, j, i);
      }
    }
  }

  /** Rearranging a table never makes a lookup find or miss a route. */
  lemma FoundTogether(routes: seq<Route>, other: seq<Route>, env: Env, request: string, model: string)
    requires multiset(routes) == multiset(other)
    ensures (exists i :: 0 <= i < |routes| && RouteMatches(routes[i], request, model, env))
       <==> (exists k :: 0 <= k < |other| && RouteMatches(other[k], request, model, env))
  {
    assert forall r :: r in routes <==> r in multiset(routes);
    assert forall r :: r in other <==> r in multiset(other);
    if i :| 0 <= i < |routes| && RouteMatches(routes[i], request, model, env) {
      assert routes[i] in other;
    }
    if k :| 0 <= k < |other| && RouteMatches(other[k], request, model, env) {
      assert other[k] in routes;
    }
  }

  /** A table and any valid rearrangement of it answer every exact lookup with the same route. */
  lemma OrderDoesNotMatter(routes: seq<Route>, other: seq<Route>, env: Env, request: string, path: string,
                           model: string, i: nat, k: nat)
    requires ConfigOk(routes, env) && ConfigOk(other, env) && multiset(routes) == multiset(other)
    requires ExactAt(routes, request, path)
    requires IsFirst(routes, i, request, model, env) && IsFirst(other, k, request, model, env)
    ensures routes[i] == other[k]
  {
    forall n | 0 <= n < |other|
      ensures other[n] in routes
    {
      assert other[n] in multiset(other);
    }
    assert ExactAt(other, request, path);
    FirstMatchIsLookup(routes, env, request, path, model, i);
    FirstMatchIsLookup(other, env, request, path, model, k);
    if Lists(routes[i], request, model) {
      assert routes[i] in multiset(routes);
      assert routes[i] in other;
    }
    var j :| 0 <= j < |routes| && routes[j] == other[k];
    assert j == i;
  }

  // ------------------------------------------ what is accepted, in plain terms

  /** An incoming path starts with a slash and has no question mark; a target is a path with one leading slash,
      or a URL with scheme http or https. */
  lemma PathsAccepted(r: Route, env: Env)
    ensures var path := TrimSpace(r.incomingPath); PathOk(r) <==> path != "" && path[0] == '/' && '?' !in path
    ensures var target := TrimSpace(r.upstreamPath);
            TargetOk(r, env)
            <==> && target != ""
                 && if target[0] == '/' then |target| == 1 || target[1] != '/'
                    else env.webScheme(target) == Some("http") || env.webScheme(target) == Some("https")
  {
    var path, target := TrimSpace(r.incomingPath), TrimSpace(r.upstreamPath);
    ContainsChar(path, '?');
    StartsWithChar(path, '/');
    StartsWithChar(target, '/');
    if |target| >= 2 { assert target[..2] == [target[0], target[1]]; }
  }

  /** Which incoming path each converter takes. */
  lemma ConvertersAccepted(r: Route)
    ensures var converter, path := TrimSpace(r.converter), TrimSpace(r.incomingPath);
            ConverterOk(r)
            <==> || converter == "" || converter == "none"
                 || (path == "/v1/messages" && converter == "anthropic_messages_to_openai_chat_completions")
                 || (path == "/v1/chat/completions" &&
                     (|| converter == "openai_chat_completions_to_anthropic_messages"
                      || converter == "openai_chat_completions_to_openai_responses"
                      || converter == "openai_chat_completions_to_gemini_generate_content"))
                 || (path == "/v1/responses" &&
                     (|| converter == "openai_responses_to_openai_chat_completions"
                      || converter == "openai_responses_to_gemini_generate_content"))
                 || (converter == "gemini_generate_content_to_openai_chat_completions"
                     && (Contains(path, ":generateContent") || Contains(path, ":streamGenerateContent")))
  {
  }

  /** No authentication, or a header or query parameter with a name and a value that are not blank. */
  lemma AuthAccepted(r: Route)
    ensures AuthOk(r)
       <==> || r.auth.None?
            || TrimSpace(r.auth.value.kind) == "none"
            || ((TrimSpace(r.auth.value.kind) == "header" || TrimSpace(r.auth.value.kind) == "query")
                && TrimSpace(r.auth.value.name) != "" && TrimSpace(r.auth.value.value) != "")
  {
  }

  /** The rules of a route are its trimmed names in order, without blank ones. */
  lemma RulesAre(model: string, rest: seq<string>)
    ensures Rules([]) == []
    ensures Rules([model] + rest) == (if TrimSpace(model) == "" then [] else [TrimSpace(model)]) + Rules(rest)
  {
    assert ([model] + rest)[1..] == rest;
  }

  /** A rule "re:p" needs a pattern that compiles, and matches what the pattern matches; any other rule is fine
      and matches the name that it is. */
  lemma RegexRule(pattern: string, model: string, env: Env)
    ensures var rule := "re:" + pattern;
            && (RuleOk(rule, env) <==> pattern != "" && env.compiles(pattern))
            && (RuleMatches(rule, model, env)
                <==> pattern != "" && env.compiles(pattern) && env.matches(pattern, model))
  {
    var rule := "re:" + pattern;
    assert rule[..3] == "re:" && rule[3..] == pattern;
    assert pattern == "" ==> rule == "re:";
    assert pattern != "" ==> |rule| > 3;
  }

  lemma ExactRule(rule: string, model: string, env: Env)
    requires |rule| < 3 || rule[..3] != "re:"
    ensures RuleOk(rule, env) && (RuleMatches(rule, model, env) <==> rule == model)
  {
  }

  /** A route serves a request if its path matches and it has no rule or one that matches the model. */
  lemma RouteServes(r: Route, request: string, model: string, env: Env)
    ensures RouteMatches(r, request, model, env)
       <==> && MatchesPath(TrimSpace(r.incomingPath), request)
            && (|| Rules(r.models) == []
                || exists i :: 0 <= i < |Rules(r.models)| && RuleMatches(Rules(r.models)[i], model, env))
  {
  }
}
