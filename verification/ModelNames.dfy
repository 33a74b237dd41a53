/** Ordered sets of model names (controller/channel_upstream_update.go) and their storage as a
    comma-separated string (model/channel.go). */
module ModelNames {
  import opened Text

  // ---------------------------------------------------------- name lists

  /** The trimmed, non-empty names, in order. */
  function Cleaned(models: seq<string>): seq<string> {
    if models == [] then []
    else
      var name := TrimSpace(models[|models| - 1]);
      Cleaned(models[..|models| - 1]) + if name == "" then [] else [name]
  }

  /** lo.Uniq: the first occurrence of each. */
  function Uniq(names: seq<string>): seq<string> {
    if names == [] then []
    else
      var init, last := names[..|names| - 1], names[|names| - 1];
      Uniq(init) + if last in init then [] else [last]
  }

  function Normalize(models: seq<string>): seq<string> {
    Uniq(Cleaned(models))
  }

  function Filter(names: seq<string>, keep: string -> bool): seq<string> {
    if names == [] then []
    else
      var last := names[|names| - 1];
      Filter(names[..|names| - 1], keep) + if keep(last) then [last] else []
  }

  function Minus(names: seq<string>, removed: seq<string>): seq<string> {
    Filter(names, name => name !in removed)
  }

  function Common(names: seq<string>, allowed: seq<string>): seq<string> {
    Filter(names, name => name in allowed)
  }

  /** subtractModelNames */
  function Subtract(base: seq<string>, removed: seq<string>): seq<string> {
    Minus(Normalize(base), Normalize(removed))
  }

  /** intersectModelNames */
  function Intersect(base: seq<string>, allowed: seq<string>): seq<string> {
    Common(Normalize(base), Normalize(allowed))
  }

  /** mergeModelNames */
  function Merge(base: seq<string>, appended: seq<string>): seq<string> {
    Normalize(base) + Minus(Normalize(appended), Normalize(base))
  }

  method MergeModelNames(base: seq<string>, appended: seq<string>) returns (merged: seq<string>)
    ensures merged == Merge(base, appended)
  {
    var first, extra := Normalize(base), Normalize(appended);
    NormalizeNormal(appended);
    var seen := Members(first);
    ghost var taken: seq<string> := [];
    merged := first;
    for i := 0 to |extra|
      invariant taken == Minus(extra[..i], first) && merged == first + taken
      invariant seen == Members(first) + Members(extra[..i])
    {
      DistinctAt(extra, i);
      MinusStep(extra, i, first);
      if extra[i] !in seen {
        seen := seen + {extra[i]};
        taken := taken + [extra[i]];
        merged := merged + [extra[i]];
      }
      MembersStep(extra, i);
    }
    assert extra[..|extra|] == extra;
  }

  lemma MinusStep(names: seq<string>, i: nat, removed: seq<string>)
    requires i < |names|
    ensures Minus(names[..i + 1], removed)
         == Minus(names[..i], removed) + if names[i] in removed then [] else [names[i]]
  {
    assert names[..i + 1][..i] == names[..i];
  }

  function Members(names: seq<string>): set<string> {
    set name | name in names
  }

  lemma MembersStep(names: seq<string>, i: nat)
    requires i < |names|
    ensures Members(names[..i + 1]) == Members(names[..i]) + {names[i]}
  {
    assert names[..i + 1] == names[..i] + [names[i]];
  }

  /** applySelectedModelChanges */
  function ApplySelected(origin: seq<string>, add: seq<string>, remove: seq<string>): seq<string> {
    Subtract(Merge(origin, Normalize(add)), Subtract(Normalize(remove), Normalize(add)))
  }

  // ---------------------------------------------------------------- laws

  predicate Distinct(names: seq<string>) {
    names == [] || (names[|names| - 1] !in names[..|names| - 1] && Distinct(names[..|names| - 1]))
  }

  lemma DistinctSnoc(names: seq<string>, name: string)
    ensures Distinct(names + [name]) <==> Distinct(names) && name !in names
  {
  }

  lemma {:induction false} DistinctAt(names: seq<string>, i: nat)
    requires Distinct(names) && i < |names|
    ensures names[i] !in names[..i]
  {
    if i < |names| - 1 {
      DistinctAt(names[..|names| - 1], i);
      assert names[..|names| - 1][..i] == names[..i];
    }
  }

  lemma {:induction false} DistinctConcat(a: seq<string>, b: seq<string>)
    requires Distinct(a) && Distinct(b) && forall name :: name in b ==> name !in a
    ensures Distinct(a + b)
  {
    if b == [] {
      assert a + b == a;
    } else {
      var n := |b| - 1;
      DistinctConcat(a, b[..n]);
      assert (a + b)[..|a + b| - 1] == a + b[..n];
    }
  }

  predicate AllTrimmed(names: seq<string>) {
    forall name :: name in names ==> name != "" && Trimmed(name)
  }

  /** What normalisation produces and keeps. */
  predicate Normal(names: seq<string>) {
    Distinct(names) && AllTrimmed(names)
  }

  lemma {:induction false} CleanedTrims(models: seq<string>)
    ensures AllTrimmed(Cleaned(models))
    ensures AllTrimmed(models) ==> Cleaned(models) == models
  {
    if models != [] {
      var init, last := models[..|models| - 1], models[|models| - 1];
      CleanedTrims(init);
      TrimSpaceTrims(last);
      assert AllTrimmed(models) ==> AllTrimmed(init) && last in models;
    }
  }

  lemma {:induction false} UniqDistinct(names: seq<string>)
    ensures Distinct(Uniq(names))
    ensures forall name :: name in Uniq(names) <==> name in names
  {
    if names != [] {
      var init, last := names[..|names| - 1], names[|names| - 1];
      UniqDistinct(init);
      DistinctSnoc(Uniq(init), last);
      assert Uniq(init) + [] == Uniq(init);
      assert names == init + [last];
    }
  }

  lemma {:induction false} UniqKeeps(names: seq<string>)
    requires Distinct(names)
    ensures Uniq(names) == names
  {
    if names != [] {
      UniqKeeps(names[..|names| - 1]);
    }
  }

  lemma NormalizeNormal(models: seq<string>)
    ensures Normal(Normalize(models))
    ensures Normal(models) ==> Normalize(models) == models
  {
    CleanedTrims(models);
    UniqDistinct(Cleaned(models));
    if Normal(models) { UniqKeeps(models); }
  }

  /** Normalising a longer list adds the trimmed new name, if it is neither empty nor there already. */
  lemma NormalizeSnoc(models: seq<string>, model: string)
    ensures Normalize([]) == []
    ensures var name := TrimSpace(model);
            Normalize(models + [model])
            == Normalize(models) + if name == "" || name in Normalize(models) then [] else [name]
  {
    var cleaned, name := Cleaned(models), TrimSpace(model);
    assert (models + [model])[..|models|] == models;
    assert Cleaned(models + [model]) == cleaned + if name == "" then [] else [name];
    UniqDistinct(cleaned);
    if name == "" {
      assert cleaned + [] == cleaned && Uniq(cleaned) + [] == Uniq(cleaned);
    } else {
      assert (cleaned + [name])[..|cleaned|] == cleaned;
    }
  }

  /** A filter keeps the order. */
  lemma {:induction false} FilterSublist(names: seq<string>, keep: string -> bool)
    ensures IsSublist(Filter(names, keep), names)
  {
    if names != [] {
      var n := |names| - 1;
      FilterSublist(names[..n], keep);
      var kept := Filter(names[..n], keep);
      if keep(names[n]) {
        assert (kept + [names[n]])[..|kept|] == kept;
      } else {
        assert kept + [] == kept;
      }
    }
  }

  lemma {:induction false} FilterMembers(names: seq<string>, keep: string -> bool)
    ensures forall name :: name in Filter(names, keep) <==> name in names && keep(name)
  {
    if names != [] {
      var init, last := names[..|names| - 1], names[|names| - 1];
      FilterMembers(init, keep);
      assert names == init + [last];
    }
  }

  lemma {:induction false} FilterDistinct(names: seq<string>, keep: string -> bool)
    requires Distinct(names)
    ensures Distinct(Filter(names, keep))
  {
    if names != [] {
      var init, last := names[..|names| - 1], names[|names| - 1];
      FilterDistinct(init, keep);
      FilterMembers(init, keep);
      DistinctSnoc(Filter(init, keep), last);
      assert Filter(init, keep) + [] == Filter(init, keep);
    }
  }

  lemma {:induction false} FilterAll(names: seq<string>, keep: string -> bool)
    requires forall name :: name in names ==> keep(name)
    ensures Filter(names, keep) == names
  {
    if names != [] {
      var init, last := names[..|names| - 1], names[|names| - 1];
      assert names == init + [last];
      assert keep(last);
      FilterAll(init, keep);
    }
  }

  lemma FilterNormal(names: seq<string>, keep: string -> bool)
    requires Normal(names)
    ensures Normal(Filter(names, keep)) && forall name :: name in Filter(names, keep) <==> name in names && keep(name)
  {
    FilterMembers(names, keep);
    FilterDistinct(names, keep);
  }

  lemma {:induction false} FilterConcat(a: seq<string>, b: seq<string>, keep: string -> bool)
    ensures Filter(a + b, keep) == Filter(a, keep) + Filter(b, keep)
  {
    if b == [] {
      assert a + b == a;
    } else {
      var n := |b| - 1;
      FilterConcat(a, b[..n], keep);
      assert (a + b)[..|a + b| - 1] == a + b[..n];
      assert Filter(a, keep) + (Filter(b[..n], keep) + if keep(b[n]) then [b[n]] else [])
          == (Filter(a, keep) + Filter(b[..n], keep)) + if keep(b[n]) then [b[n]] else [];
    }
  }

  lemma MergeNormal(base: seq<string>, appended: seq<string>)
    requires Normal(base) && Normal(appended)
    ensures Merge(base, appended) == base + Minus(appended, base) && Normal(Merge(base, appended))
  {
    NormalizeNormal(base);
    NormalizeNormal(appended);
    FilterNormal(appended, name => name !in base);
    DistinctConcat(base, Minus(appended, base));
  }

  lemma SubtractNormal(base: seq<string>, removed: seq<string>)
    requires Normal(base) && Normal(removed)
    ensures Subtract(base, removed) == Minus(base, removed) && Normal(Subtract(base, removed))
    ensures forall name :: name in Subtract(base, removed) <==> name in base && name !in removed
  {
    NormalizeNormal(base);
    NormalizeNormal(removed);
    FilterNormal(base, name => name !in removed);
  }

  lemma IntersectNormal(base: seq<string>, allowed: seq<string>)
    requires Normal(allowed)
    ensures Normal(Intersect(base, allowed))
    ensures forall name :: name in Intersect(base, allowed) <==> name in Normalize(base) && name in allowed
  {
    NormalizeNormal(base);
    NormalizeNormal(allowed);
    FilterNormal(Normalize(base), name => name in allowed);
  }

  /** The new model list: what was there and is not removed, in the old order, then the new names in the
      order asked for.  An added name is never lost, not even if it is to be removed as well. */
  lemma ApplySelectedMeaning(origin: seq<string>, add: seq<string>, remove: seq<string>)
    requires Normal(origin) && Normal(add) && Normal(remove)
    ensures var removed := Minus(remove, add);
            && ApplySelected(origin, add, remove) == Minus(origin, removed) + Minus(add, origin)
            && Normal(ApplySelected(origin, add, remove))
    ensures forall name ::
              name in ApplySelected(origin, add, remove) <==> name in add || (name in origin && name !in remove)
  {
    NormalizeNormal(add);
    NormalizeNormal(remove);
    SubtractNormal(remove, add);
    MergeNormal(origin, add);
    var removed, fresh' := Minus(remove, add), Minus(add, origin);
    SubtractNormal(origin + fresh', removed);
    FilterConcat(origin, fresh', name => name !in removed);
    FilterNormal(add, name => name !in origin);
    FilterNormal(origin, name => name !in removed);
    FilterAll(fresh', name => name !in removed);
  }

  // --------------------------------------------------- the stored string

  function Join(names: seq<string>): string {
    JoinWith(names, ',')
  }

  /** Channel.GetModels */
  function GetModels(models: string): seq<string> {
    if models == "" then [] else Split(TrimChar(models, ','), ",")
  }

  /** The models of a channel, as detect and apply see them. */
  function Names(models: string): seq<string> {
    Normalize(GetModels(models))
  }

  predicate CommaFree(names: seq<string>) {
    FreeOf(names, ',')
  }

  lemma {:induction false} TrimLeftChars(s: string)
    ensures forall c :: c in TrimLeft(s) ==> c in s
  {
    if s != "" && IsSpace(s[0]) { TrimLeftChars(s[1..]); }
  }

  lemma {:induction false} CleanedCommaFree(models: seq<string>)
    requires CommaFree(models)
    ensures CommaFree(Cleaned(models))
  {
    if models != [] {
      var init, last := models[..|models| - 1], models[|models| - 1];
      assert models == init + [last];
      CleanedCommaFree(init);
      TrimLeftChars(last);
      TrimRightTrims(TrimLeft(last));
      assert last in models;
      assert forall i :: 0 <= i < |TrimSpace(last)| ==> TrimSpace(last)[i] == TrimLeft(last)[i];
    }
  }

  /** Whatever is stored, the names read back hold no comma. */
  lemma NamesCommaFree(models: string)
    ensures CommaFree(Names(models)) && Normal(Names(models))
  {
    SplitFree(TrimChar(models, ','), ',');
    CleanedCommaFree(GetModels(models));
    UniqDistinct(Cleaned(GetModels(models)));
    NormalizeNormal(GetModels(models));
  }

  /** A name list survives being stored and read back if and only if no name has a comma. */
  lemma StoredNamesIff(names: seq<string>)
    requires Normal(names)
    ensures Names(Join(names)) == names <==> CommaFree(names)
  {
    NamesCommaFree(Join(names));
    NormalizeNormal(names);
    if names != [] && CommaFree(names) {
      assert names[0] in names && names[|names| - 1] in names;
      JoinTrimmed(names, ',');
      SplitJoin(names, ',');
    }
  }
}
