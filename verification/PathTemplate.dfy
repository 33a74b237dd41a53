/** Matching a request path against a configured path (dto/channel_settings.go). */
module PathTemplate {
  import opened Prelude
  import opened Text

  const PLACEHOLDER := "{model}"
  const GENERATE := ":generateContent"
  const STREAM := ":streamGenerateContent"

  /** matchAdvancedCustomIncomingPathTemplate */
  predicate MatchesTemplate(configured: string, request: string) {
    if !Contains(configured, PLACEHOLDER) then configured == request
    else
      var parts := Split(configured, PLACEHOLDER);
      && |parts| == 2
      && HasPrefix(request, parts[0]) && HasSuffix(request, parts[1])
      && var name := TrimSuffix(TrimPrefix(request, parts[0]), parts[1]);
         name != "" && !Contains(name, "/")
  }

  /** matchAdvancedCustomIncomingPath */
  predicate MatchesPath(configured: string, request: string) {
    || MatchesTemplate(configured, request)
    || (Contains(configured, GENERATE) && MatchesTemplate(ReplaceFirst(configured, GENERATE, STREAM), request))
  }

  predicate IsName(name: string) {
    name != "" && !Contains(name, "/")
  }

  ghost predicate IsInstance(prefix: string, suffix: string, request: string) {
    exists name :: IsName(name) && request == prefix + name + suffix
  }

  // ------------------------------------------------------- one placeholder

  /** The placeholder cannot overlap itself, so it occurs in prefix + placeholder + suffix first at its place. */
  lemma PlaceholderFirst(prefix: string, suffix: string)
    requires !Contains(prefix, PLACEHOLDER)
    ensures Index(prefix + PLACEHOLDER + suffix, PLACEHOLDER) == Some(|prefix|)
  {
    var s := prefix + PLACEHOLDER + suffix;
    assert OccursAt(s, PLACEHOLDER, |prefix|);
    forall j | 0 <= j < |prefix|
      ensures !OccursAt(s, PLACEHOLDER, j)
    {
      var window, at := s[j..j + |PLACEHOLDER|], |prefix| - j;
      if at < |PLACEHOLDER| {
        assert window[at] == s[j + at] == PLACEHOLDER[0];
        assert PLACEHOLDER[at] != '{';
      } else {
        assert forall k :: 0 <= k < |PLACEHOLDER| ==> window[k] == s[j + k] == prefix[j + k];
        assert prefix[j..j + |PLACEHOLDER|] == window;
        assert !OccursAt(prefix, PLACEHOLDER, j);
      }
    }
  }

  lemma SplitAtPlaceholder(prefix: string, suffix: string)
    requires !Contains(prefix, PLACEHOLDER) && !Contains(suffix, PLACEHOLDER)
    ensures var s := prefix + PLACEHOLDER + suffix;
            Contains(s, PLACEHOLDER) && Split(s, PLACEHOLDER) == [prefix, suffix]
  {
    var s := prefix + PLACEHOLDER + suffix;
    PlaceholderFirst(prefix, suffix);
    assert s[..|prefix|] == prefix && s[|prefix| + |PLACEHOLDER|..] == suffix;
    assert Split(suffix, PLACEHOLDER) == [suffix];
  }

  /** In a request shorter than prefix and suffix together the two overlap, and what follows the prefix
      is taken for the name. */
  predicate Overlaps(prefix: string, suffix: string, request: string) {
    && |request| < |prefix| + |suffix| && HasPrefix(request, prefix) && HasSuffix(request, suffix)
    && IsName(request[|prefix|..])
  }

  /** A template with one placeholder matches exactly its instances and the overlapping requests. */
  lemma TemplateMatchesIff(prefix: string, suffix: string, request: string)
    requires !Contains(prefix, PLACEHOLDER) && !Contains(suffix, PLACEHOLDER)
    ensures MatchesTemplate(prefix + PLACEHOLDER + suffix, request) <==>
            IsInstance(prefix, suffix, request) || Overlaps(prefix, suffix, request)
    ensures |request| >= |prefix| + |suffix| ==>
            (MatchesTemplate(prefix + PLACEHOLDER + suffix, request) <==> IsInstance(prefix, suffix, request))
  {
    SplitAtPlaceholder(prefix, suffix);
    if |request| >= |prefix| + |suffix| && HasPrefix(request, prefix) && HasSuffix(request, suffix) {
      var name := request[|prefix|..|request| - |suffix|];
      var rest := request[|prefix|..];
      assert rest[|rest| - |suffix|..] == request[|request| - |suffix|..];
      assert TrimSuffix(rest, suffix) == name;
      assert request == prefix + name + suffix;
    }
    if name :| IsName(name) && request == prefix + name + suffix {
      assert request[|prefix|..|request| - |suffix|] == name;
    }
  }

  /** The overlap is real: "/a:b" is accepted by "/a:{model}:b" although no name fits. */
  lemma OverlapExample()
    ensures MatchesTemplate("/a:" + PLACEHOLDER + ":b", "/a:b") && !IsInstance("/a:", ":b", "/a:b")
  {
    var prefix, suffix, request := "/a:", ":b", "/a:b";
    NotContained(prefix, PLACEHOLDER);
    NotContained(suffix, PLACEHOLDER);
    NotContained("b", "/");
    assert request[..3] == prefix && request[2..] == suffix && request[3..] == "b";
    TemplateMatchesIff(prefix, suffix, request);
  }

  lemma NotContained(s: string, part: string)
    requires (part != "" && part[0] !in s) || |s| < |part|
    ensures !Contains(s, part)
  {
  }

  // ------------------------------------------------------ stream equivalence

  lemma StreamForeign()
    ensures Foreign(PLACEHOLDER, STREAM) && Foreign(GENERATE, PLACEHOLDER)
  {
  }

  /** Replacing ":generateContent" brings no placeholder into a string that had none. */
  lemma ReplaceKeepsFree(s: string)
    requires !Contains(s, PLACEHOLDER) && Contains(s, GENERATE)
    ensures !Contains(ReplaceFirst(s, GENERATE, STREAM), PLACEHOLDER)
  {
    var i := Index(s, GENERATE).value;
    var a, b := s[..i], s[i + |GENERATE|..];
    assert s == a + GENERATE + b;
    StreamForeign();
    forall j: nat
      ensures !OccursAt(a + STREAM + b, PLACEHOLDER, j)
    {
      OccursInWhole(a, GENERATE, b, PLACEHOLDER, j);
      if j >= |a| + |STREAM| {
        OccursInWhole(a, GENERATE, b, PLACEHOLDER, j - |a| - |STREAM|);
      }
      if OccursAt(a + STREAM + b, PLACEHOLDER, j) {
        Around(a, STREAM, b, PLACEHOLDER, j);
      }
    }
  }

  /** The first ":generateContent" of a template whose prefix has none is the first one of its suffix. */
  lemma ReplaceInSuffix(prefix: string, suffix: string)
    requires !Contains(prefix, GENERATE) && Contains(suffix, GENERATE)
    ensures var configured := prefix + PLACEHOLDER + suffix;
            && Contains(configured, GENERATE)
            && ReplaceFirst(configured, GENERATE, STREAM)
               == prefix + PLACEHOLDER + ReplaceFirst(suffix, GENERATE, STREAM)
  {
    var head := prefix + PLACEHOLDER;
    var configured := head + suffix;
    var i, n := Index(suffix, GENERATE).value, |GENERATE|;
    StreamForeign();
    OccursInWhole(prefix, PLACEHOLDER, suffix, GENERATE, i);
    forall j: nat | j < |head| + i
      ensures !OccursAt(configured, GENERATE, j)
    {
      if OccursAt(configured, GENERATE, j) {
        Around(prefix, PLACEHOLDER, suffix, GENERATE, j);
      }
    }
    assert Index(configured, GENERATE) == Some(|head| + i);
    assert configured[..|head| + i] == head + suffix[..i];
    assert configured[|head| + i + n..] == suffix[i + n..];
  }

  /** If the prefix has a ":generateContent", its first one is the first one of the template. */
  lemma ReplaceInPrefix(prefix: string, suffix: string)
    requires Contains(prefix, GENERATE)
    ensures var configured := prefix + PLACEHOLDER + suffix;
            && Contains(configured, GENERATE)
            && ReplaceFirst(configured, GENERATE, STREAM)
               == ReplaceFirst(prefix, GENERATE, STREAM) + PLACEHOLDER + suffix
  {
    var configured := prefix + PLACEHOLDER + suffix;
    var i, n := Index(prefix, GENERATE).value, |GENERATE|;
    StreamForeign();
    OccursInWhole(prefix, PLACEHOLDER, suffix, GENERATE, i);
    forall j: nat | j < i
      ensures !OccursAt(configured, GENERATE, j)
    {
      if OccursAt(configured, GENERATE, j) {
        Around(prefix, PLACEHOLDER, suffix, GENERATE, j);
      }
    }
    assert Index(configured, GENERATE) == Some(i);
    assert configured[..i] == prefix[..i];
    assert configured[i + n..] == prefix[i + n..] + PLACEHOLDER + suffix;
  }

  /** A route for ":generateContent" also serves ":streamGenerateContent", for the same names, wherever
      in the template the action stands. */
  lemma StreamEquivalent(prefix: string, suffix: string, name: string)
    requires !Contains(prefix, PLACEHOLDER) && !Contains(suffix, PLACEHOLDER) && IsName(name)
    requires Contains(prefix, GENERATE) || Contains(suffix, GENERATE)
    ensures var configured := prefix + PLACEHOLDER + suffix;
            var before := ReplaceFirst(prefix, GENERATE, STREAM);
            var behind := if Contains(prefix, GENERATE) then suffix else ReplaceFirst(suffix, GENERATE, STREAM);
            MatchesPath(configured, prefix + name + suffix) && MatchesPath(configured, before + name + behind)
  {
    var before := ReplaceFirst(prefix, GENERATE, STREAM);
    var behind := if Contains(prefix, GENERATE) then suffix else ReplaceFirst(suffix, GENERATE, STREAM);
    if Contains(prefix, GENERATE) {
      ReplaceKeepsFree(prefix);
      ReplaceInPrefix(prefix, suffix);
    } else {
      ReplaceKeepsFree(suffix);
      ReplaceInSuffix(prefix, suffix);
    }
    TemplateMatchesIff(prefix, suffix, prefix + name + suffix);
    TemplateMatchesIff(before, behind, before + name + behind);
    assert IsInstance(prefix, suffix, prefix + name + suffix);
    assert IsInstance(before, behind, before + name + behind);
  }

  // --------------------------------------------------- all matching paths

  /** A request of this form, or so short that prefix and suffix overlap. */
  ghost predicate Fits(prefix: string, suffix: string, request: string) {
    IsInstance(prefix, suffix, request) || Overlaps(prefix, suffix, request)
  }

  lemma NeitherContains(prefix: string, suffix: string)
    requires !Contains(prefix, GENERATE) && !Contains(suffix, GENERATE)
    ensures !Contains(prefix + PLACEHOLDER + suffix, GENERATE)
  {
    StreamForeign();
    forall j: nat
      ensures !OccursAt(prefix + PLACEHOLDER + suffix, GENERATE, j)
    {
      if OccursAt(prefix + PLACEHOLDER + suffix, GENERATE, j) { Around(prefix, PLACEHOLDER, suffix, GENERATE, j); }
    }
  }

  /** A path with one placeholder matches the requests that fit it, or fit it with its first ":generateContent"
      replaced by ":streamGenerateContent", and no others. */
  lemma PathMatchesIff(prefix: string, suffix: string, request: string)
    requires !Contains(prefix, "{model}") && !Contains(suffix, "{model}")
    ensures var before := ReplaceFirst(prefix, ":generateContent", ":streamGenerateContent");
            var behind := ReplaceFirst(suffix, ":generateContent", ":streamGenerateContent");
            MatchesPath(prefix + "{model}" + suffix, request)
            <==> || Fits(prefix, suffix, request)
                 || (Contains(prefix, ":generateContent") && Fits(before, suffix, request))
                 || (!Contains(prefix, ":generateContent") && Contains(suffix, ":generateContent")
                     && Fits(prefix, behind, request))
  {
    TemplateMatchesIff(prefix, suffix, request);
    if Contains(prefix, GENERATE) {
      ReplaceKeepsFree(prefix);
      ReplaceInPrefix(prefix, suffix);
      TemplateMatchesIff(ReplaceFirst(prefix, GENERATE, STREAM), suffix, request);
    } else if Contains(suffix, GENERATE) {
      ReplaceKeepsFree(suffix);
      ReplaceInSuffix(prefix, suffix);
      TemplateMatchesIff(prefix, ReplaceFirst(suffix, GENERATE, STREAM), request);
    } else {
      NeitherContains(prefix, suffix);
    }
  }

  /** A path without a placeholder matches itself and, if it has ":generateContent", its stream form. */
  lemma PlainPathMatchesIff(configured: string, request: string)
    requires !Contains(configured, "{model}")
    ensures MatchesPath(configured, request)
       <==> || request == configured
            || (Contains(configured, ":generateContent")
                && request == ReplaceFirst(configured, ":generateContent", ":streamGenerateContent"))
  {
    if Contains(configured, GENERATE) { ReplaceKeepsFree(configured); }
  }

  /** With two placeholders a path matches nothing. */
  lemma TwoPlaceholders(prefix: string, suffix: string, request: string)
    requires !Contains(prefix, "{model}") && Contains(suffix, "{model}")
    ensures !MatchesTemplate(prefix + "{model}" + suffix, request)
  {
    var s := prefix + PLACEHOLDER + suffix;
    PlaceholderFirst(prefix, suffix);
    assert s[|prefix| + |PLACEHOLDER|..] == suffix;
    var i := Index(suffix, PLACEHOLDER).value;
    assert |Split(suffix, PLACEHOLDER)| >= 2;
    assert Split(s, PLACEHOLDER) == [s[..|prefix|]] + Split(suffix, PLACEHOLDER);
  }
}
