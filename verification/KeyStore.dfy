/** How a channel stores its keys in one string (GetKeys and Channel.Update of model/channel.go): one key
    per line, or a JSON array.  The JSON parser is a parameter. */
module KeyStore {
  import opened Prelude
  import opened Text

  /** The elements of a JSON array as raw text, None for anything else. */
  type Json = string -> Option<seq<string>>

  /** What is known of the parser: an array is longer than its elements joined by single characters. */
  ghost predicate Shrinks(json: Json) {
    forall s :: json(s).Some? ==> |Joined(json(s).value)| < |s|
  }

  function Joined(keys: seq<string>): string {
    JoinWith(keys, '\n')
  }

  function JsonKeys(json: Json, key: string): Option<seq<string>> {
    var trimmed := TrimSpace(key);
    if HasPrefix(trimmed, "[") then json(trimmed) else None
  }

  function Lines(key: string): seq<string> {
    Split(TrimChar(key, '\n'), "\n")
  }

  /** Channel.GetKeys */
  function GetKeys(json: Json, key: string): seq<string> {
    if key == "" then []
    else match JsonKeys(json, key)
         case Some(keys) => keys
         case None => Lines(key)
  }

  /** The keys as Channel.Update counts them: an empty array counts as one line. */
  function CountedKeys(json: Json, key: string): seq<string> {
    if key != "" && JsonKeys(json, key) == Some([]) then Lines(key) else GetKeys(json, key)
  }

  /** The list is read back from its stored form. */
  predicate Storable(json: Json, keys: seq<string>) {
    keys == [] ||
    (&& FreeOf(keys, '\n')
     && keys[0] != "" && keys[|keys| - 1] != ""
     && JsonKeys(json, Joined(keys)).None?)
  }

  /** A list of keys survives being joined and read again if and only if no key spans lines, the outer keys
      are not empty, and the lines together are not a JSON array. */
  lemma KeysSurviveIff(json: Json, keys: seq<string>)
    requires Shrinks(json)
    ensures GetKeys(json, Joined(keys)) == keys <==> Storable(json, keys)
  {
    var s := Joined(keys);
    if Storable(json, keys) {
      StorableSurvives(json, keys);
    } else if GetKeys(json, s) == keys {
      if JsonKeys(json, s).Some? {
        TrimSpaceShortens(s);
        assert false;
      } else {
        TrimCharTrims(s, '\n');
        JoinSplit(TrimChar(s, '\n'), '\n');
        SplitFree(TrimChar(s, '\n'), '\n');
        JoinEndsIff(keys, '\n');
        assert false;
      }
    }
  }

  lemma StorableSurvives(json: Json, keys: seq<string>)
    requires Storable(json, keys)
    ensures GetKeys(json, Joined(keys)) == keys && CountedKeys(json, Joined(keys)) == keys
    ensures keys != [] ==> Joined(keys) != ""
  {
    if keys != [] {
      JoinTrimmed(keys, '\n');
      SplitJoin(keys, '\n');
    }
  }

  /** A list is stored as the empty string only if it is empty or a single empty key. */
  lemma JoinedEmptyIff(keys: seq<string>)
    ensures Joined(keys) == "" <==> keys == [] || keys == [""]
  {
    if |keys| > 1 { JoinEndsIff(keys, '\n'); }
  }

  lemma TrimSpaceShortens(s: string)
    ensures |TrimSpace(s)| <= |s|
  {
    TrimLeftShortens(s);
    TrimRightTrims(TrimLeft(s));
  }

  lemma {:induction false} TrimLeftShortens(s: string)
    ensures |TrimLeft(s)| <= |s|
  {
    if s != "" && IsSpace(s[0]) { TrimLeftShortens(s[1..]); }
  }

  // ------------------------------------------------------------ plain keys

  /** One line that is not blank and does not look like the start of a JSON array. */
  predicate Plain(key: string) {
    '\n' !in key && TrimLeft(key) != "" && TrimLeft(key)[0] != '['
  }

  predicate AllPlain(keys: seq<string>) {
    forall i :: 0 <= i < |keys| ==> Plain(keys[i])
  }

  lemma {:induction false} TrimLeftConcat(a: string, b: string)
    requires TrimLeft(a) != ""
    ensures TrimLeft(a + b) == TrimLeft(a) + b
  {
    if IsSpace(a[0]) {
      assert (a + b)[1..] == a[1..] + b;
      TrimLeftConcat(a[1..], b);
    }
  }

  lemma {:induction false} TrimRightKeepsFirst(s: string)
    requires s != "" && !IsSpace(s[0])
    ensures TrimRight(s) != "" && TrimRight(s)[0] == s[0]
  {
    if IsSpace(s[|s| - 1]) { TrimRightKeepsFirst(s[..|s| - 1]); }
  }

  /** Behind a plain first key nothing is read as JSON. */
  lemma FirstPlainStorable(json: Json, keys: seq<string>)
    requires keys != [] && Plain(keys[0]) && FreeOf(keys, '\n') && keys[|keys| - 1] != ""
    ensures Storable(json, keys)
  {
    var rest := if |keys| == 1 then "" else "\n" + Joined(keys[1..]);
    assert Joined(keys) == keys[0] + rest;
    TrimLeftConcat(keys[0], rest);
    TrimLeftTrims(keys[0]);
    TrimRightKeepsFirst(TrimLeft(keys[0]) + rest);
  }

  /** Lists of plain keys can be stored, whatever the parser. */
  lemma PlainStorable(json: Json, keys: seq<string>)
    requires AllPlain(keys)
    ensures Storable(json, keys)
  {
    if keys != [] {
      assert Plain(keys[0]) && Plain(keys[|keys| - 1]);
      FirstPlainStorable(json, keys);
    }
  }

  // ------------------------------------------------------ in plain terms

  /** A string that starts with a bracket, white space aside, is read as a JSON array where it is one. */
  lemma ArrayRead(json: Json, key: string, keys: seq<string>)
    requires TrimSpace(key) != "" && TrimSpace(key)[0] == '[' && json(TrimSpace(key)) == Some(keys)
    ensures GetKeys(json, key) == keys
  {
    StartsWithChar(TrimSpace(key), '[');
    TrimSpaceShortens(key);
  }

  /** Line breaks around the lines do not count. */
  lemma LinesRead(json: Json, keys: seq<string>, front: nat, back: nat)
    requires keys != [] && FreeOf(keys, '\n') && keys[0] != "" && keys[|keys| - 1] != ""
    requires var key := Breaks(front) + Joined(keys) + Breaks(back); JsonKeys(json, key).None?
    ensures GetKeys(json, Breaks(front) + Joined(keys) + Breaks(back)) == keys
  {
    JoinEndsIff(keys, '\n');
    SplitJoin(keys, '\n');
    BreaksTrimmed(Joined(keys), front, back);
  }

  function Breaks(n: nat): string {
    if n == 0 then "" else "\n" + Breaks(n - 1)
  }

  lemma {:induction false} BreaksBack(n: nat)
    ensures n > 0 ==> Breaks(n) == Breaks(n - 1) + "\n"
  {
    if n > 1 { BreaksBack(n - 1); }
  }

  lemma {:induction false} BreaksTrimmed(s: string, front: nat, back: nat)
    requires NoEnds(s, '\n')
    ensures TrimChar(Breaks(front) + s + Breaks(back), '\n') == s
    decreases front + back
  {
    var whole := Breaks(front) + s + Breaks(back);
    if front > 0 {
      assert whole[1..] == Breaks(front - 1) + s + Breaks(back);
      BreaksTrimmed(s, front - 1, back);
    } else if back > 0 {
      BreaksBack(back);
      assert whole == s + Breaks(back - 1) + "\n";
      assert whole[..|whole| - 1] == Breaks(0) + s + Breaks(back - 1);
      BreaksTrimmed(s, 0, back - 1);
    } else {
      assert whole == s;
    }
  }
}
