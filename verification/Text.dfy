/** The string functions of Go that the model uses. */
module Text {
  import opened Prelude

  /** Unicode white space. */
  predicate IsSpace(c: char) {
    || c in {' ', '\t', '\n', '\r', '\U{000B}', '\U{000C}', '\U{0085}', '\U{00A0}', '\U{1680}'}
    || '\U{2000}' <= c <= '\U{200A}'
    || c in {'\U{2028}', '\U{2029}', '\U{202F}', '\U{205F}', '\U{3000}'}
  }

  /** By code point. */
  lemma IsSpaceIff(c: char)
    ensures var n := c as int;
            IsSpace(c)
            <==> || 9 <= n <= 13 || n == 0x20 || n == 0x85 || n == 0xA0 || n == 0x1680 || 0x2000 <= n <= 0x200A
                 || n == 0x2028 || n == 0x2029 || n == 0x202F || n == 0x205F || n == 0x3000
  {
  }

  function TrimLeft(s: string): string {
    if s != "" && IsSpace(s[0]) then TrimLeft(s[1..]) else s
  }

  function TrimRight(s: string): string {
    if s != "" && IsSpace(s[|s| - 1]) then TrimRight(s[..|s| - 1]) else s
  }

  function TrimSpace(s: string): string {
    TrimRight(TrimLeft(s))
  }

  predicate Trimmed(s: string) {
    s != "" ==> !IsSpace(s[0]) && !IsSpace(s[|s| - 1])
  }

  lemma {:induction false} TrimLeftTrims(s: string)
    ensures TrimLeft(s) != "" ==> !IsSpace(TrimLeft(s)[0])
  {
    if s != "" && IsSpace(s[0]) { TrimLeftTrims(s[1..]); }
  }

  lemma {:induction false} TrimRightTrims(s: string)
    ensures var t := TrimRight(s); t <= s && (t != "" ==> !IsSpace(t[|t| - 1]))
  {
    if s != "" && IsSpace(s[|s| - 1]) { TrimRightTrims(s[..|s| - 1]); }
  }

  /** Trimming leaves no space at either end, and a trimmed string alone. */
  lemma TrimSpaceTrims(s: string)
    ensures Trimmed(TrimSpace(s))
    ensures Trimmed(s) ==> TrimSpace(s) == s
  {
    TrimLeftTrims(s);
    TrimRightTrims(TrimLeft(s));
  }

  predicate HasPrefix(s: string, prefix: string) {
    |prefix| <= |s| && s[..|prefix|] == prefix
  }

  predicate HasSuffix(s: string, suffix: string) {
    |suffix| <= |s| && s[|s| - |suffix|..] == suffix
  }

  function TrimPrefix(s: string, prefix: string): string {
    if HasPrefix(s, prefix) then s[|prefix|..] else s
  }

  function TrimSuffix(s: string, suffix: string): string {
    if HasSuffix(s, suffix) then s[..|s| - |suffix|] else s
  }

  predicate OccursAt(s: string, part: string, i: nat) {
    i + |part| <= |s| && s[i..i + |part|] == part
  }

  /** The first occurrence, if any. */
  function Index(s: string, part: string): (r: Option<nat>)
    ensures r.Some? ==> OccursAt(s, part, r.value) && forall j :: 0 <= j < r.value ==> !OccursAt(s, part, j)
    ensures r.None? ==> forall j :: 0 <= j ==> !OccursAt(s, part, j)
  {
    IndexFrom(s, part, 0)
  }

  function IndexFrom(s: string, part: string, i: nat): (r: Option<nat>)
    ensures r.Some? ==>
        r.value >= i && OccursAt(s, part, r.value) && forall j :: i <= j < r.value ==> !OccursAt(s, part, j)
    ensures r.None? ==> forall j :: i <= j ==> !OccursAt(s, part, j)
    decreases |s| - i
  {
    if i + |part| > |s| then None
    else if OccursAt(s, part, i) then Some(i)
    else IndexFrom(s, part, i + 1)
  }

  predicate Contains(s: string, part: string) {
    Index(s, part).Some?
  }

  /** strings.Split by a non-empty separator. */
  function Split(s: string, sep: string): (parts: seq<string>)
    requires sep != ""
    ensures parts != []
    decreases |s|
  {
    match Index(s, sep)
    case None => [s]
    case Some(i) => [s[..i]] + Split(s[i + |sep|..], sep)
  }

  /** strings.Replace with a count of one. */
  function ReplaceFirst(s: string, part: string, by': string): string {
    match Index(s, part)
    case None => s
    case Some(i) => s[..i] + by' + s[i + |part|..]
  }

  /** Neither string starts with a character of the other, so an occurrence of one cannot touch the other. */
  predicate Foreign(part: string, mid: string) {
    part != "" && mid != "" && part[0] !in mid && mid[0] !in part
  }

  /** An occurrence around a foreign middle lies wholly before or wholly behind it. */
  lemma Around(a: string, mid: string, b: string, part: string, j: nat)
    requires Foreign(part, mid) && OccursAt(a + mid + b, part, j)
    ensures OccursAt(a, part, j) || (j >= |a| + |mid| && OccursAt(b, part, j - |a| - |mid|))
  {
    var s, n := a + mid + b, |part|;
    var found := s[j..j + n];
    assert forall k :: 0 <= k < n ==> found[k] == s[j + k];
    assert s[|a|] == mid[0] && s[|a|..|a| + |mid|] == mid;
    if j + n <= |a| {
      assert a[j..j + n] == s[j..j + n];
    } else if j >= |a| + |mid| {
      var k := j - |a| - |mid|;
      assert b[k..k + n] == s[j..j + n];
    }
  }

  lemma OccursInWhole(a: string, mid: string, b: string, part: string, j: nat)
    ensures OccursAt(a, part, j) ==> OccursAt(a + mid + b, part, j)
    ensures OccursAt(b, part, j) ==> OccursAt(a + mid + b, part, |a| + |mid| + j)
  {
  }

  // ------------------------------------------- lists joined by a character

  /** strings.Join */
  function JoinWith(parts: seq<string>, sep: char): string {
    if parts == [] then "" else if |parts| == 1 then parts[0] else parts[0] + [sep] + JoinWith(parts[1..], sep)
  }

  /** strings.Trim */
  function TrimChar(s: string, c: char): string {
    if s != "" && s[0] == c then TrimChar(s[1..], c)
    else if s != "" && s[|s| - 1] == c then TrimChar(s[..|s| - 1], c)
    else s
  }

  predicate FreeOf(parts: seq<string>, sep: char) {
    forall part :: part in parts ==> sep !in part
  }

  lemma SepIndex(part: string, rest: string, sep: char)
    requires sep !in part
    ensures Index(part + [sep] + rest, [sep]) == Some(|part|)
    ensures Index(part, [sep]).None?
  {
    var s := part + [sep] + rest;
    assert OccursAt(s, [sep], |part|);
    forall j: nat | j < |part|
      ensures !OccursAt(s, [sep], j) && !OccursAt(part, [sep], j)
    {
      assert s[j..j + 1][0] == part[j] && part[j..j + 1][0] == part[j];
    }
  }

  lemma {:induction false} SplitJoin(parts: seq<string>, sep: char)
    requires parts != [] && FreeOf(parts, sep)
    ensures Split(JoinWith(parts, sep), [sep]) == parts
  {
    var part, rest := parts[0], JoinWith(parts[1..], sep);
    SepIndex(part, rest, sep);
    if |parts| > 1 {
      var s := part + [sep] + rest;
      assert s[..|part|] == part && s[|part| + 1..] == rest;
      SplitJoin(parts[1..], sep);
    }
  }

  lemma {:induction false} JoinSplit(s: string, sep: char)
    ensures JoinWith(Split(s, [sep]), sep) == s
    decreases |s|
  {
    var first := Index(s, [sep]);
    if first.Some? {
      JoinSplit(s[first.value + 1..], sep);
      assert s == s[..first.value] + [sep] + s[first.value + 1..];
    }
  }

  lemma {:induction false} SplitFree(s: string, sep: char)
    ensures FreeOf(Split(s, [sep]), sep)
    decreases |s|
  {
    var first := Index(s, [sep]);
    var piece := if first.Some? then s[..first.value] else s;
    forall j: nat | j < |piece|
      ensures piece[j] != sep
    {
      assert !OccursAt(s, [sep], j);
      assert s[j..j + 1] == [s[j]];
    }
    if first.Some? {
      SplitFree(s[first.value + 1..], sep);
    }
  }

  /** The string starts and ends with another character than c. */
  predicate NoEnds(s: string, c: char) {
    s != "" && s[0] != c && s[|s| - 1] != c
  }

  /** The joined string starts or ends with the separator if the first or last part is empty, and of
      separator-free parts only then. */
  lemma {:induction false} JoinEndsIff(parts: seq<string>, sep: char)
    requires parts != []
    ensures NoEnds(JoinWith(parts, sep), sep) ==> parts[0] != "" && parts[|parts| - 1] != ""
    ensures FreeOf(parts, sep) && parts[0] != "" && parts[|parts| - 1] != "" ==> NoEnds(JoinWith(parts, sep), sep)
    ensures |parts| > 1 && parts[|parts| - 1] == "" ==> JoinWith(parts, sep)[|JoinWith(parts, sep)| - 1] == sep
    ensures |parts| > 1 ==> JoinWith(parts, sep) != ""
    ensures FreeOf(parts, sep) && parts[|parts| - 1] != "" ==>
              JoinWith(parts, sep) != "" && JoinWith(parts, sep)[|JoinWith(parts, sep)| - 1] != sep
  {
    var first, last := parts[0], parts[|parts| - 1];
    assert first in parts && last in parts;
    assert first != "" ==> first[0] in first;
    assert last != "" ==> last[|last| - 1] in last;
    if |parts| > 1 {
      JoinEndsIff(parts[1..], sep);
    }
  }

  lemma {:induction false} TrimCharTrims(s: string, c: char)
    ensures TrimChar(s, c) != "" ==> NoEnds(TrimChar(s, c), c)
    ensures NoEnds(s, c) ==> TrimChar(s, c) == s
    decreases |s|
  {
    if s != "" && s[0] == c {
      TrimCharTrims(s[1..], c);
    } else if s != "" && s[|s| - 1] == c {
      TrimCharTrims(s[..|s| - 1], c);
    }
  }

  lemma JoinTrimmed(parts: seq<string>, sep: char)
    requires parts != [] && FreeOf(parts, sep) && parts[0] != "" && parts[|parts| - 1] != ""
    ensures JoinWith(parts, sep) != "" && TrimChar(JoinWith(parts, sep), sep) == JoinWith(parts, sep)
  {
    JoinEndsIff(parts, sep);
    TrimCharTrims(JoinWith(parts, sep), sep);
  }

  // ------------------------------------------------------------- sublists

  /** Some of the strings, in order. */
  predicate IsSublist(part: seq<string>, whole: seq<string>) {
    part == [] ||
    (&& whole != []
     && (|| (part[|part| - 1] == whole[|whole| - 1] && IsSublist(part[..|part| - 1], whole[..|whole| - 1]))
         || IsSublist(part, whole[..|whole| - 1])))
  }

  lemma {:induction false} SublistShorter(part: seq<string>, whole: seq<string>)
    requires IsSublist(part, whole)
    ensures |part| <= |whole| && (|part| == |whole| ==> part == whole)
    ensures forall key :: key in part ==> key in whole
  {
    if part != [] {
      var init := whole[..|whole| - 1];
      assert whole == init + [whole[|whole| - 1]];
      if part[|part| - 1] == whole[|whole| - 1] && IsSublist(part[..|part| - 1], init) {
        SublistShorter(part[..|part| - 1], init);
        assert part == part[..|part| - 1] + [part[|part| - 1]];
      } else {
        SublistShorter(part, init);
      }
    }
  }

  lemma {:induction false} SublistOfAll(keys: seq<string>)
    ensures IsSublist(keys, keys)
  {
    if keys != [] { SublistOfAll(keys[..|keys| - 1]); }
  }

  // ------------------------------------------------- trimming, in plain terms

  predicate AllSpace(s: string) {
    forall i :: 0 <= i < |s| ==> IsSpace(s[i])
  }

  lemma {:induction false} TrimLeftStrips(s: string) returns (front: string)
    ensures s == front + TrimLeft(s) && AllSpace(front)
  {
    if s != "" && IsSpace(s[0]) {
      var rest := TrimLeftStrips(s[1..]);
      front := [s[0]] + rest;
    } else {
      front := "";
    }
  }

  lemma {:induction false} TrimRightStrips(s: string) returns (back: string)
    ensures s == TrimRight(s) + back && AllSpace(back)
  {
    if s != "" && IsSpace(s[|s| - 1]) {
      var rest := TrimRightStrips(s[..|s| - 1]);
      back := rest + [s[|s| - 1]];
    } else {
      back := "";
    }
  }

  /** Trimming takes off white space at the ends, all of it and nothing else. */
  lemma TrimSpaceStrips(s: string) returns (front: string, back: string)
    ensures s == front + TrimSpace(s) + back && AllSpace(front) && AllSpace(back) && Trimmed(TrimSpace(s))
  {
    front := TrimLeftStrips(s);
    back := TrimRightStrips(TrimLeft(s));
    TrimSpaceTrims(s);
  }

  // ------------------------------------------------------ in plain terms

  lemma ContainsChar(s: string, c: char)
    ensures Contains(s, [c]) <==> c in s
  {
    if i: nat :| OccursAt(s, [c], i) {
      assert s[i] == s[i..i + 1][0];
    }
    if i :| 0 <= i < |s| && s[i] == c {
      assert s[i..i + 1] == [c] && OccursAt(s, [c], i);
    }
  }

  /** The part that is replaced is the first one. */
  lemma ReplacesFirst(front: string, part: string, back: string, by': string)
    requires forall j :: 0 <= j < |front| ==> !OccursAt(front + part + back, part, j)
    ensures ReplaceFirst(front + part + back, part, by') == front + by' + back
  {
    var s := front + part + back;
    assert s[|front|..|front| + |part|] == part && s[..|front|] == front && s[|front| + |part|..] == back;
    assert OccursAt(s, part, |front|);
  }

  lemma StartsWithChar(s: string, c: char)
    ensures HasPrefix(s, [c]) <==> s != "" && s[0] == c
  {
    if s != "" { assert s[..1] == [s[0]]; }
  }
}
