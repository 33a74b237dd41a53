/** Reconciling a channel's models with its upstream (controller/channel_upstream_update.go): detect what
    to add and remove, and apply what was selected.

    Fetching the upstream list and the regular expression engine are parameters; storing a channel does
    not fail. */
module UpstreamSync {
  import opened Prelude
  import opened Text
  import opened ModelNames

  /** Does a pattern compile and match a name? */
  type Regex = (string, string) -> bool

  const REGEX := "regex:"

  // ------------------------------------------------------------- detection

  predicate RuleIgnores(rule: string, name: string, rx: Regex) {
    if HasPrefix(rule, REGEX) then rx(TrimSpace(TrimPrefix(rule, REGEX)), name) else rule == name
  }

  predicate Ignores(rules: seq<string>, name: string, rx: Regex) {
    exists rule :: rule in rules && RuleIgnores(rule, name, rx)
  }

  predicate Addable(name: string, names: seq<string>, rules: seq<string>, mapping: map<string, string>, rx: Regex) {
    name !in names && name !in mapping.Values && !Ignores(rules, name, rx)
  }

  /** Upstream names that are neither served, nor the target of a redirect, nor ignored. */
  function PendingAdd(names: seq<string>, upstream: seq<string>, rules: seq<string>, mapping: map<string, string>,
                      rx: Regex): seq<string> {
    Filter(upstream, name => Addable(name, names, rules, mapping, rx))
  }

  /** Served names that upstream lacks, except the sources of redirects. */
  function PendingRemove(names: seq<string>, upstream: seq<string>, mapping: map<string, string>): seq<string> {
    Filter(names, name => name !in mapping && name !in upstream)
  }

  /** To add, in upstream's order: what upstream has, what is neither served nor the target of a redirect, and what
      no rule ignores.  To remove, in local order: what is served, what upstream lacks, and what is no source of
      a redirect. */
  ghost predicate IsPending(add: seq<string>, remove: seq<string>, names: seq<string>, upstream: seq<string>,
                            rules: seq<string>, mapping: map<string, string>, rx: Regex)
  {
    && (forall name :: name in add <==>
          && name in upstream && name !in names && !Ignores(rules, name, rx)
          && (forall source :: source in mapping ==> mapping[source] != name))
    && (forall name :: name in remove <==> name in names && name !in upstream && name !in mapping.Keys)
    && IsSublist(add, upstream) && IsSublist(remove, names)
  }

  /** A rule "regex:p" ignores the names that p matches, white space around p aside; any other rule ignores the
      name that it is. */
  lemma IgnoresIff(rules: seq<string>, name: string, rx: Regex)
    ensures Ignores(rules, name, rx)
       <==> || (exists p :: "regex:" + p in rules && rx(TrimSpace(p), name))
            || (name in rules && !(|name| >= 6 && name[..6] == "regex:"))
  {
    if rule :| rule in rules && RuleIgnores(rule, name, rx) {
      if HasPrefix(rule, REGEX) {
        assert rule == "regex:" + rule[6..];
      }
    }
    if p :| "regex:" + p in rules && rx(TrimSpace(p), name) {
      var rule := "regex:" + p;
      assert rule[..6] == "regex:" && rule[6..] == p;
      assert RuleIgnores(rule, name, rx);
    }
    if name in rules && !(|name| >= 6 && name[..6] == "regex:") {
      assert RuleIgnores(name, name, rx);
    }
  }

  /** collectPendingUpstreamModelChangesFromModels */
  method Collect(localModels: seq<string>, upstreamModels: seq<string>, ignoredModels: seq<string>,
                 mapping: map<string, string>, rx: Regex)
    returns (add: seq<string>, remove: seq<string>)
    ensures add == PendingAdd(Normalize(localModels), Normalize(upstreamModels), Normalize(ignoredModels), mapping, rx)
    ensures remove == PendingRemove(Normalize(localModels), Normalize(upstreamModels), mapping)
    ensures Normal(add) && Normal(remove)
    ensures IsPending(add, remove, Normalize(localModels), Normalize(upstreamModels), Normalize(ignoredModels),
                      mapping, rx)
  {
    var names, upstream, rules := Normalize(localModels), Normalize(upstreamModels), Normalize(ignoredModels);
    var localSet, upstreamSet := set name | name in names, set name | name in upstream;
    var redirectSources, redirectTargets := mapping.Keys, mapping.Values;
    var covered := localSet + redirectTargets;
    var keepAdd := name => name !in covered && !Ignores(rules, name, rx);
    var keepRemove := name => name !in redirectSources && name !in upstreamSet;
    add, remove := Filter(upstream, keepAdd), Filter(names, keepRemove);

    FilterSame(upstream, keepAdd, name => Addable(name, names, rules, mapping, rx));
    FilterSame(names, keepRemove, name => name !in mapping && name !in upstream);
    NormalizeNormal(upstreamModels);
    NormalizeNormal(localModels);
    FilterNormal(upstream, keepAdd);
    FilterNormal(names, keepRemove);
    FilterSublist(upstream, keepAdd);
    FilterSublist(names, keepRemove);
    NormalizeNormal(add);
    NormalizeNormal(remove);
    add, remove := Normalize(add), Normalize(remove);
  }

  lemma {:induction false} FilterSame(names: seq<string>, p: string -> bool, q: string -> bool)
    requires forall name :: name in names ==> p(name) == q(name)
    ensures Filter(names, p) == Filter(names, q)
  {
    if names != [] {
      var init, last := names[..|names| - 1], names[|names| - 1];
      assert names == init + [last];
      assert last in names;
      FilterSame(init, p, q);
    }
  }

  // ------------------------------------------------------------ the channel

  class Channel {
    var models: string
    const mapping: map<string, string>
    var ignored: seq<string>
    var detected: seq<string>
    var removed: seq<string>
    var lastCheck: int

    constructor (models: string, mapping: map<string, string>, ignored: seq<string>)
      ensures this.models == models
          && this.mapping == mapping && this.ignored == ignored && detected == [] && removed == []
    {
      this.models, this.mapping, this.ignored := models, mapping, ignored;
      detected, removed, lastCheck := [], [], 0;
    }

    /** checkAndPersistChannelUpstreamModelUpdates, forced and without auto-apply: the manual detect. */
    method Detect(upstream: Option<seq<string>>, now: int, rx: Regex) returns (ok: bool)
      modifies this
      ensures ok == upstream.Some? && lastCheck == now
      ensures models == old(models) && ignored == old(ignored)
      ensures !ok ==> detected == old(detected) && removed == old(removed)
      ensures ok ==>
        && detected == PendingAdd(Names(models), Normalize(upstream.value), Normalize(ignored), mapping, rx)
        && removed == PendingRemove(Names(models), Normalize(upstream.value), mapping)
        && Normal(detected) && Normal(removed)
        && IsPending(detected, removed, Names(models), Normalize(upstream.value), Normalize(ignored), mapping, rx)
    {
      lastCheck := now;
      if upstream.None? { return false; }
      var add, remove := Collect(GetModels(models), upstream.value, ignored, mapping, rx);
      detected, removed := add, remove;
      return true;
    }

    /** The scheduled check of a channel with auto-sync: additions are taken over at once. */
    method DetectAndAdd(upstream: seq<string>, now: int, rx: Regex) returns (autoAdded: nat)
      modifies this
      ensures ignored == old(ignored) && lastCheck == now
      ensures var add := PendingAdd(Names(old(models)), Normalize(upstream), Normalize(ignored), mapping, rx);
              && autoAdded == |add| && detected == []
              && models == (if add == [] then old(models) else Join(Names(old(models)) + add))
      ensures removed == PendingRemove(Names(old(models)), Normalize(upstream), mapping)
    {
      lastCheck := now;
      var pendingAdd, pendingRemove := Collect(GetModels(models), upstream, ignored, mapping, rx);
      autoAdded := 0;
      if |pendingAdd| > 0 {
        var merged := TakeOver(models, pendingAdd);
        if |merged| > |Names(models)| {
          autoAdded := |merged| - |Names(models)|;
          models := Join(merged);
        }
        detected := [];
      } else {
        detected := pendingAdd;
      }
      removed := pendingRemove;
    }

    /** applyChannelUpstreamModelUpdates.  Of what is asked for, only pending names count; adding wins
        over removing.  Pending additions split into added, ignored and still pending; pending removals
        into removed and still pending; an added name leaves the ignore list. */
    method Apply(addInput: seq<string>, ignoreInput: seq<string>, removeInput: seq<string>, now: int)
      returns (added: seq<string>, gone: seq<string>, changed: bool)
      modifies this
      ensures Applied(old(Lists()), Asked(addInput, ignoreInput, removeInput), Lists(), added, gone, changed)
      ensures lastCheck == now
    {
      var lists;
      var asked := Asked(addInput, ignoreInput, removeInput);
      lists, added, gone, changed := ApplyTo(StoredLists(models, ignored, detected, removed), asked);
      models, ignored, detected, removed, lastCheck := lists.models, lists.ignored, lists.detected, lists.removed, now;
    }

    ghost function Lists(): StoredLists
      reads this
    {
      StoredLists(models, ignored, detected, removed)
    }
  }

  datatype StoredLists = StoredLists(models: string, ignored: seq<string>, detected: seq<string>, removed: seq<string>)

  datatype Asked = Asked(add: seq<string>, ignore: seq<string>, remove: seq<string>)

  /** The whole effect of a request on the stored lists. */
  ghost predicate Applied(was: StoredLists, asked: Asked, now: StoredLists, added: seq<string>, gone: seq<string>,
                          changed: bool)
  {
    && added == Wanted(asked.add, was.detected)
    && gone == Minus(Wanted(asked.remove, was.removed), added)
    && now.detected == Minus(Normalize(was.detected), added + Wanted(asked.ignore, was.detected))
    && now.removed == Minus(Normalize(was.removed), gone)
    && now.ignored == Minus(Merge(was.ignored, Wanted(asked.ignore, was.detected)), added)
    && (now.models, changed) == Resaved(was.models, Replaced(Names(was.models), added, gone))
  }

  method ApplyTo(was: StoredLists, asked: Asked)
    returns (now: StoredLists, added: seq<string>, gone: seq<string>, changed: bool)
    ensures Applied(was, asked, now, added, gone, changed)
  {
    var ignoreModels, stillAdd, stillRemove;
    added, ignoreModels, gone, stillAdd, stillRemove :=
      Select(was.detected, was.removed, asked.add, asked.ignore, asked.remove);
    var modelsNow;
    modelsNow, changed := NextModels(was.models, added, gone);
    var ignoredNow := NextIgnored(was.ignored, ignoreModels, added);
    now := StoredLists(modelsNow, ignoredNow, stillAdd, stillRemove);
  }

  /** What is asked for and pending. */
  function Wanted(input: seq<string>, pending: seq<string>): seq<string> {
    Common(Normalize(input), Normalize(pending))
  }

  /** The models a channel serves after a change: what stays, in the old order, then what is new. */
  function Replaced(origin: seq<string>, added: seq<string>, gone: seq<string>): seq<string> {
    Minus(origin, gone) + Minus(added, origin)
  }

  /** The stored models after a change to these names, and whether that is a change at all. */
  function Resaved(models: string, next: seq<string>): (string, bool) {
    if next != Names(models) then (Join(next), true) else (models, false)
  }

  predicate Within(part: seq<string>, whole: seq<string>) {
    forall name :: name in part ==> name in whole
  }

  predicate Apart(names: seq<string>, others: seq<string>) {
    forall name :: name in names ==> name !in others
  }

  method TakeOver(models: string, pendingAdd: seq<string>) returns (merged: seq<string>)
    requires Normal(pendingAdd) && forall name :: name in pendingAdd ==> name !in Names(models)
    ensures merged == Names(models) + pendingAdd
  {
    var originModels := Normalize(GetModels(models));
    merged := MergeModelNames(originModels, pendingAdd);
    NormalizeNormal(GetModels(models));
    MergeNormal(originModels, pendingAdd);
    FilterAll(pendingAdd, name => name !in originModels);
  }

  /** The part of a request that concerns pending names, and what stays pending. */
  method Select(detected: seq<string>, removed: seq<string>, addInput: seq<string>, ignoreInput: seq<string>,
                removeInput: seq<string>)
    returns (add: seq<string>, ignore: seq<string>, remove: seq<string>, stillAdd: seq<string>,
             stillRemove: seq<string>)
    ensures add == Wanted(addInput, detected) && ignore == Wanted(ignoreInput, detected)
    ensures remove == Minus(Wanted(removeInput, removed), add)
    ensures stillAdd == Minus(Normalize(detected), add + ignore) && stillRemove == Minus(Normalize(removed), remove)
    ensures Normal(add) && Normal(ignore) && Normal(remove) && Apart(remove, add)
  {
    var pendingAdd, pendingRemove := Normalize(detected), Normalize(removed);
    NormalizeNormal(detected);
    NormalizeNormal(removed);
    add := Intersect(addInput, pendingAdd);
    ignore := Intersect(ignoreInput, pendingAdd);
    remove := Intersect(removeInput, pendingRemove);
    Selected(addInput, pendingAdd);
    Selected(ignoreInput, pendingAdd);
    Selected(removeInput, pendingRemove);
    SubtractNormal(remove, add);
    remove := Subtract(remove, add);
    Remaining(pendingAdd, add, ignore);
    SubtractNormal(pendingRemove, remove);
    stillAdd := Subtract(pendingAdd, add + ignore);
    stillRemove := Subtract(pendingRemove, remove);
  }

  lemma ReplacedMeaning(models: string, add: seq<string>, remove: seq<string>)
    requires Normal(add) && Normal(remove) && Apart(remove, add)
    ensures ApplySelected(Names(models), add, remove) == Replaced(Names(models), add, remove)
    ensures Normal(Replaced(Names(models), add, remove)) && Within(add, Replaced(Names(models), add, remove))
  {
    NormalizeNormal(GetModels(models));
    ApplySelectedMeaning(Names(models), add, remove);
    FilterAll(remove, name => name !in add);
  }

  method NextModels(models: string, add: seq<string>, remove: seq<string>) returns (stored: string, changed: bool)
    requires Normal(add) && Normal(remove) && Apart(remove, add)
    ensures (stored, changed) == Resaved(models, Replaced(Names(models), add, remove))
  {
    var origin := Normalize(GetModels(models));
    var next := ApplySelected(origin, add, remove);
    changed := origin != next;
    stored := if changed then Join(next) else models;
    ReplacedMeaning(models, add, remove);
  }

  /** Whatever is requested, the new model list is normal, and an added name is in it and no longer ignored. */
  lemma AddedIsServed(models: string, ignored: seq<string>, detected: seq<string>, removed: seq<string>,
                      addInput: seq<string>, ignoreInput: seq<string>, removeInput: seq<string>)
    ensures var added := Wanted(addInput, detected);
            var gone := Minus(Wanted(removeInput, removed), added);
            var next := Replaced(Names(models), added, gone);
            && Normal(next) && Within(added, next)
            && Apart(added, Minus(Merge(ignored, Wanted(ignoreInput, detected)), added))
  {
    var added := Wanted(addInput, detected);
    var asked := Wanted(removeInput, removed);
    WantedNormal(addInput, detected);
    WantedNormal(removeInput, removed);
    FilterNormal(asked, name => name !in added);
    ReplacedMeaning(models, added, Minus(asked, added));
    FilterMembers(Merge(ignored, Wanted(ignoreInput, detected)), name => name !in added);
  }

  /** What a request changes, name by name. */
  lemma AppliedMeans(models: string, ignored: seq<string>, detected: seq<string>, removed: seq<string>,
                     addInput: seq<string>, ignoreInput: seq<string>, removeInput: seq<string>, name: string)
    ensures var added := Wanted(addInput, detected);
            var gone := Minus(Wanted(removeInput, removed), added);
            && (name in added <==> name in Normalize(addInput) && name in Normalize(detected))
            && (name in gone <==> name in Normalize(removeInput) && name in Normalize(removed) && name !in added)
            && (name in Replaced(Names(models), added, gone)
                <==> name in added || (name in Names(models) && name !in gone))
            && (name in Minus(Normalize(detected), added + Wanted(ignoreInput, detected))
                <==> name in Normalize(detected) && name !in Normalize(addInput) && name !in Normalize(ignoreInput))
            && (name in Minus(Normalize(removed), gone) <==> name in Normalize(removed) && name !in gone)
            && (name in Minus(Merge(ignored, Wanted(ignoreInput, detected)), added)
                <==> || (name in Normalize(ignored) && name !in added)
                     || (name in Normalize(ignoreInput) && name in Normalize(detected) && name !in added))
  {
    var added, ignore := Wanted(addInput, detected), Wanted(ignoreInput, detected);
    var asked := Wanted(removeInput, removed);
    var gone := Minus(asked, added);
    WantedMembers(addInput, detected, name);
    WantedMembers(ignoreInput, detected, name);
    WantedMembers(removeInput, removed, name);
    MinusMembers(asked, added, name);
    MinusMembers(Names(models), gone, name);
    MinusMembers(added, Names(models), name);
    MinusMembers(Normalize(detected), added + ignore, name);
    MinusMembers(Normalize(removed), gone, name);
    MinusMembers(Normalize(ignore), Normalize(ignored), name);
    MinusMembers(Merge(ignored, ignore), added, name);
    WantedNormal(ignoreInput, detected);
    NormalizeNormal(ignore);
  }

  lemma WantedMembers(input: seq<string>, pending: seq<string>, name: string)
    ensures name in Wanted(input, pending) <==> name in Normalize(input) && name in Normalize(pending)
  {
    FilterMembers(Normalize(input), other => other in Normalize(pending));
  }

  lemma MinusMembers(names: seq<string>, removed: seq<string>, name: string)
    ensures name in Minus(names, removed) <==> name in names && name !in removed
  {
    FilterMembers(names, other => other !in removed);
  }

  /** The new list is what stays of the old one, in its order, and then new names in the order asked for. */
  lemma AppliedOrder(models: string, added: seq<string>, gone: seq<string>)
    returns (kept: seq<string>, fresh': seq<string>)
    ensures Replaced(Names(models), added, gone) == kept + fresh'
    ensures IsSublist(kept, Names(models)) && IsSublist(fresh', added)
    ensures forall name :: name in kept ==> name !in gone
    ensures forall name :: name in fresh' ==> name !in Names(models)
  {
    kept, fresh' := Minus(Names(models), gone), Minus(added, Names(models));
    FilterSublist(Names(models), name => name !in gone);
    FilterSublist(added, name => name !in Names(models));
    FilterMembers(Names(models), name => name !in gone);
    FilterMembers(added, name => name !in Names(models));
  }

  lemma WantedNormal(input: seq<string>, pending: seq<string>)
    ensures Normal(Wanted(input, pending))
  {
    NormalizeNormal(input);
    FilterNormal(Normalize(input), name => name in Normalize(pending));
  }

  method NextIgnored(ignored: seq<string>, ignore: seq<string>, add: seq<string>) returns (next: seq<string>)
    requires Normal(add) && Normal(ignore)
    ensures next == Minus(Merge(ignored, ignore), add)
  {
    next := MergeModelNames(ignored, ignore);
    IgnoreLess(ignored, ignore, add);
    if |add| > 0 {
      next := Subtract(next, add);
    }
  }

  lemma Selected(input: seq<string>, pending: seq<string>)
    requires Normal(pending)
    ensures Intersect(input, pending) == Common(Normalize(input), pending) && Normal(Intersect(input, pending))
  {
    IntersectNormal(input, pending);
    NormalizeNormal(pending);
  }

  /** What is neither added nor ignored stays pending. */
  lemma Remaining(pending: seq<string>, add: seq<string>, ignore: seq<string>)
    requires Normal(pending) && Normal(add) && Normal(ignore)
    ensures Subtract(pending, add + ignore) == Minus(pending, add + ignore)
  {
    NormalizeNormal(pending);
    assert AllTrimmed(add + ignore);
    CleanedTrims(add + ignore);
    UniqDistinct(add + ignore);
    FilterSame(pending, name => name !in Normalize(add + ignore), name => name !in add + ignore);
  }

  /** The handled and the remaining names together are the pending ones, and no name is both. */
  ghost predicate SplitsInto(pending: seq<string>, handled: seq<string>, remaining: seq<string>) {
    && (forall name :: name in pending <==> name in handled || name in remaining)
    && Apart(handled, remaining) && Normal(remaining)
  }

  lemma MinusSplits(pending: seq<string>, handled: seq<string>)
    requires Normal(pending) && Within(handled, pending)
    ensures SplitsInto(pending, handled, Minus(pending, handled))
  {
    FilterNormal(pending, name => name !in handled);
  }

  /** A request handles part of what is pending and leaves the rest: the pending additions split into those added
      or ignored and those that remain ... */
  lemma AdditionsSplit(pendingAdd: seq<string>, addInput: seq<string>, ignoreInput: seq<string>)
    requires Normal(pendingAdd)
    ensures var handled := Common(Normalize(addInput), pendingAdd) + Common(Normalize(ignoreInput), pendingAdd);
            SplitsInto(pendingAdd, handled, Minus(pendingAdd, handled))
  {
    FilterMembers(Normalize(addInput), name => name in pendingAdd);
    FilterMembers(Normalize(ignoreInput), name => name in pendingAdd);
    MinusSplits(pendingAdd, Common(Normalize(addInput), pendingAdd) + Common(Normalize(ignoreInput), pendingAdd));
  }

  /** ... and the pending removals into those removed and those that remain. */
  lemma RemovalsSplit(pendingRemove: seq<string>, removeInput: seq<string>, add: seq<string>)
    requires Normal(pendingRemove)
    ensures var gone := Minus(Common(Normalize(removeInput), pendingRemove), add);
            SplitsInto(pendingRemove, gone, Minus(pendingRemove, gone))
  {
    FilterMembers(Normalize(removeInput), name => name in pendingRemove);
    FilterMembers(Common(Normalize(removeInput), pendingRemove), name => name !in add);
    MinusSplits(pendingRemove, Minus(Common(Normalize(removeInput), pendingRemove), add));
  }

  lemma IgnoreLess(ignored: seq<string>, more: seq<string>, add: seq<string>)
    requires Normal(add) && Normal(more)
    ensures var merged := Merge(ignored, more);
            && Normal(merged)
            && (if add == [] then merged else Subtract(merged, add)) == Minus(merged, add)
            && forall name :: name in Minus(merged, add) <==> name in merged && name !in add
  {
    NormalizeNormal(ignored);
    NormalizeNormal(Normalize(ignored));
    NormalizeNormal(more);
    MergeNormal(Normalize(ignored), more);
    var merged := Merge(ignored, more);
    SubtractNormal(merged, add);
    FilterAll(merged, name => name !in []);
    if add == [] {
      FilterSame(merged, name => name !in add, name => name !in []);
    }
  }

  // -------------------------------------------------- detect, apply, detect

  /** What was ignored before additions took their names off the ignore list is ignored still. */
  predicate RulesSurvive(names: seq<string>, upstream: seq<string>, rules: seq<string>, mapping: map<string, string>,
                         rx: Regex) {
    var left := Minus(rules, PendingAdd(names, upstream, rules, mapping, rx));
    forall name :: name in upstream && name !in names && name !in mapping.Values && Ignores(rules, name, rx) ==>
      Ignores(left, name, rx)
  }

  lemma FilterNone(names: seq<string>, keep: string -> bool)
    ensures Filter(names, keep) == [] <==> forall name :: name in names ==> !keep(name)
  {
  }

  /** Once everything pending was applied, nothing is left to remove. */
  lemma NothingToRemove(names: seq<string>, upstream: seq<string>, rules: seq<string>, mapping: map<string, string>,
                        rx: Regex)
    ensures var next := Replaced(names, PendingAdd(names, upstream, rules, mapping, rx),
                                 PendingRemove(names, upstream, mapping));
            PendingRemove(next, upstream, mapping) == []
  {
    var add, remove := PendingAdd(names, upstream, rules, mapping, rx), PendingRemove(names, upstream, mapping);
    var next := Replaced(names, add, remove);
    FilterMembers(upstream, name => Addable(name, names, rules, mapping, rx));
    FilterMembers(names, name => name !in mapping && name !in upstream);
    FilterMembers(names, name => name !in remove);
    FilterMembers(add, name => name !in names);
    FilterNone(next, name => name !in mapping && name !in upstream);
  }

  /** ... and nothing is left to add if and only if no ignore rule was lost. */
  lemma NothingToAddIff(names: seq<string>, upstream: seq<string>, rules: seq<string>, mapping: map<string, string>,
                        rx: Regex)
    ensures var add := PendingAdd(names, upstream, rules, mapping, rx);
            var next := Replaced(names, add, PendingRemove(names, upstream, mapping));
            PendingAdd(next, upstream, Minus(rules, add), mapping, rx) == []
            <==> RulesSurvive(names, upstream, rules, mapping, rx)
  {
    var add, remove := PendingAdd(names, upstream, rules, mapping, rx), PendingRemove(names, upstream, mapping);
    var next, left := Replaced(names, add, remove), Minus(rules, add);
    FilterMembers(upstream, name => Addable(name, names, rules, mapping, rx));
    FilterMembers(names, name => name !in mapping && name !in upstream);
    FilterMembers(names, name => name !in remove);
    FilterMembers(add, name => name !in names);
    FilterNone(upstream, name => Addable(name, next, left, mapping, rx));
  }

  /** A name with a comma is never read back, so it is found missing again. */
  lemma CommaStaysPending(models: string, name: string, upstream: seq<string>, rules: seq<string>, gone: seq<string>,
                          mapping: map<string, string>, rx: Regex)
    requires ',' in name && name in upstream && name !in mapping.Values && !Ignores(rules, name, rx)
    ensures PendingAdd(Names(models), upstream, Minus(rules, gone), mapping, rx) != []
  {
    NamesCommaFree(models);
    FilterMembers(rules, rule => rule !in gone);
    FilterNone(upstream, other => Addable(other, Names(models), Minus(rules, gone), mapping, rx));
  }

  /** What the channel serves after its pending changes were applied. */
  lemma ReplacedIsRead(models: string, add: seq<string>, gone: seq<string>)
    requires CommaFree(add) && Normal(Replaced(Names(models), add, gone))
    ensures Names(Join(Replaced(Names(models), add, gone))) == Replaced(Names(models), add, gone)
  {
    NamesCommaFree(models);
    FilterMembers(Names(models), name => name !in gone);
    FilterMembers(add, name => name !in Names(models));
    StoredNamesIff(Replaced(Names(models), add, gone));
  }

  /** Detecting, applying all of it and detecting again leaves nothing pending if and only if the new names
      hold no comma and taking them off the ignore list loses no rule that is needed. */
  lemma SettledIff(models: string, modelsNow: string, upstream: seq<string>, rules: seq<string>,
                   mapping: map<string, string>, rx: Regex)
    requires var names := Names(models);
             var next := Replaced(names, PendingAdd(names, upstream, rules, mapping, rx),
                                  PendingRemove(names, upstream, mapping));
             Normal(next) && modelsNow == (if next == names then models else Join(next))
    ensures var add := PendingAdd(Names(models), upstream, rules, mapping, rx);
            && PendingAdd(Names(modelsNow), upstream, Minus(rules, add), mapping, rx) == []
            && PendingRemove(Names(modelsNow), upstream, mapping) == []
            <==> CommaFree(add) && RulesSurvive(Names(models), upstream, rules, mapping, rx)
  {
    var names := Names(models);
    var add := PendingAdd(names, upstream, rules, mapping, rx);
    if CommaFree(add) {
      ReplacedIsRead(models, add, PendingRemove(names, upstream, mapping));
      NothingToRemove(names, upstream, rules, mapping, rx);
      NothingToAddIff(names, upstream, rules, mapping, rx);
    } else {
      var name :| name in add && ',' in name;
      FilterMembers(upstream, other => Addable(other, names, rules, mapping, rx));
      CommaStaysPending(modelsNow, name, upstream, rules, add, mapping, rx);
    }
  }

  /** No new name is spelled like a regular expression rule, so no rule is lost: an exact rule for a new
      name would have kept that name from being detected. */
  lemma PlainNamesLoseNoRule(names: seq<string>, upstream: seq<string>, rules: seq<string>,
                             mapping: map<string, string>, rx: Regex)
    requires forall name :: name in upstream ==> !HasPrefix(name, REGEX)
    ensures Minus(rules, PendingAdd(names, upstream, rules, mapping, rx)) == rules
    ensures RulesSurvive(names, upstream, rules, mapping, rx)
  {
    var add := PendingAdd(names, upstream, rules, mapping, rx);
    FilterMembers(upstream, name => Addable(name, names, rules, mapping, rx));
    forall rule | rule in rules
      ensures rule !in add
    {
      if rule in upstream {
        assert RuleIgnores(rule, rule, rx);
      }
    }
    FilterAll(rules, rule => rule !in add);
  }

  lemma FilterPair(a: string, b: string, keep: string -> bool)
    ensures Filter([a, b], keep) == (if keep(a) then [a] else []) + if keep(b) then [b] else []
  {
    assert [a, b][..1] == [a] && [a][..0] == [];
    assert Filter([a], keep) == if keep(a) then [a] else [];
  }

  lemma OnlyRule(rule: string, name: string, rx: Regex)
    ensures Ignores([rule], name, rx) <==> RuleIgnores(rule, name, rx)
  {
    assert rule in [rule];
  }

  /** A rule lost: the new name "regex:^b" is spelled like the rule that hides "ba". */
  lemma LostRuleExample(rx: Regex)
    requires rx("^b", "ba") && !rx("^b", "regex:^b")
    ensures PendingAdd([], ["regex:^b", "ba"], ["regex:^b"], map[], rx) == ["regex:^b"]
    ensures !RulesSurvive([], ["regex:^b", "ba"], ["regex:^b"], map[], rx)
  {
    var rule := "regex:^b";
    assert TrimPrefix(rule, REGEX) == "^b" && TrimSpace("^b") == "^b" by { TrimSpaceTrims("^b"); }
    OnlyRule(rule, rule, rx);
    OnlyRule(rule, "ba", rx);
    FilterPair(rule, "ba", name => Addable(name, [], [rule], map[], rx));
    NothingLeft(rule);
    assert "ba" in [rule, "ba"] && !Ignores([], "ba", rx);
  }

  lemma NothingLeft(rule: string)
    ensures Minus([rule], [rule]) == []
  {
    FilterNone([rule], name => name !in [rule]);
  }

  /** Detect, apply all (ApplyAllChannelUpstreamModelUpdates) and detect again. */
  method DetectApplyDetect(c: Channel, upstream: seq<string>, now: int, rx: Regex)
    modifies c
    ensures var names, rules := Names(old(c.models)), Normalize(old(c.ignored));
            && c.detected == [] && c.removed == []
            <==> CommaFree(PendingAdd(names, Normalize(upstream), rules, c.mapping, rx))
                 && RulesSurvive(names, Normalize(upstream), rules, c.mapping, rx)
  {
    ghost var before := c.models;
    ghost var rules := Normalize(c.ignored);
    ghost var names := Names(c.models);
    var ok := c.Detect(Some(upstream), now, rx);
    ghost var add := c.detected;
    AllOf(c.detected);
    AllOf(c.removed);
    ApplyAllIgnores(c.ignored, c.detected);
    FilterMembers(Normalize(upstream), name => Addable(name, names, rules, c.mapping, rx));
    FilterMembers(names, name => name !in c.mapping && name !in Normalize(upstream));
    FilterAll(c.removed, name => name !in add);
    AddedIsServed(c.models, c.ignored, c.detected, c.removed, c.detected, [], c.removed);
    var added, gone, changed := c.Apply(c.detected, [], c.removed, now);
    SettledIff(before, c.models, Normalize(upstream), rules, c.mapping, rx);
    ok := c.Detect(Some(upstream), now, rx);
  }

  /** All of a pending list is selected. */
  lemma AllOf(pending: seq<string>)
    requires Normal(pending)
    ensures Normalize(pending) == pending && Common(pending, pending) == pending
  {
    NormalizeNormal(pending);
    FilterAll(pending, name => name in pending);
  }

  lemma ApplyAllIgnores(ignored: seq<string>, add: seq<string>)
    ensures Common(Normalize([]), add) == [] && Merge(ignored, []) == Normalize(ignored)
    ensures Normalize(Minus(Normalize(ignored), add)) == Minus(Normalize(ignored), add)
  {
    NormalizeNormal(ignored);
    FilterNormal(Normalize(ignored), name => name !in add);
    NormalizeNormal(Minus(Normalize(ignored), add));
    assert Minus(Normalize([]), Normalize(ignored)) == [];
  }
}
