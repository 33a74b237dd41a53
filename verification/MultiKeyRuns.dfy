/** When the stored channel of a multi-key channel follows the plain list of records: after one action, along
    a run, and on every run, from any stored state and from creation. */
module MultiKeyRuns {
  import opened Prelude
  import opened Text
  import opened KeyStore
  import opened KeyRecords
  import opened MultiKey

  // ----------------------------------------------------------- one action

  /** MultiKeySize is the number of keys, and stays so when it is counted again. */
  predicate Consistent(json: Json, st: Stored) {
    CountedKeys(json, st.key) == GetKeys(json, st.key) && st.size == |GetKeys(json, st.key)|
  }

  predicate Within<T>(m: map<int, T>, n: int) {
    forall i :: i in m ==> 0 <= i < n
  }

  predicate InBounds(st: Stored) {
    Within(st.status, st.size) && Within(st.time, st.size) && Within(st.reason, st.size)
  }

  /** A consistent state stays consistent and its maps within bounds. */
  ghost predicate StaysSound(json: Json, st: Stored, after: Stored) {
    Consistent(json, st) ==> Consistent(json, after) && (InBounds(st) ==> InBounds(after))
  }

  /** When an action does to the stored channel what it does to the records.  Single keys must lie below
      MultiKeySize; of two ways to have no effect, an index that is refused and one beyond the keys, the first
      changes nothing and the second may store the keys again. */
  predicate Fits(json: Json, st: Stored, action: Action) {
    var recs := Recs(json, st);
    match action
    case DisableKey(index) =>
      InRange(index, recs) ==> Accepted(st, index) || recs[index.value].status == MANUALLY_DISABLED
    case EnableKey(index) =>
      InRange(index, recs) ==> Accepted(st, index) || recs[index.value] == Enable(recs[index.value])
    case DisableAllKeys => forall i :: 0 <= i < |recs| && recs[i].status == ENABLED ==> i < st.size
    case DeleteKey(index) =>
      if InRange(index, recs) then
        |recs| > 1 ==> Accepted(st, index) && Storable(json, KeysOf(RemoveAt(recs, index.value)))
      else Accepted(st, index) && recs != [] ==> Resavable(json, KeysOf(recs))
    case DeleteDisabledKeys =>
      !NoneAuto(recs) && Survivors(recs) != [] ==> Storable(json, KeysOf(Survivors(recs)))
    case _ => true
  }

  /** Storing the keys again leaves them as they are: a single empty key is not stored at all. */
  predicate Resavable(json: Json, keys: seq<string>) {
    Storable(json, keys) || keys == [""]
  }

  /** Channel.Update on the records.  Afterwards MultiKeySize is the number of keys if and only if the stored
      string is not an empty JSON array. */
  lemma UpdatedRecords(json: Json, st: Stored, key: string, d: Draft)
    ensures var stored, after := if key != "" then key else st.key, Updated(json, st, key, d);
            && after.key == stored
            && Recs(json, after) == Records(GetKeys(json, stored), d.status, d.time, d.reason)
            && (after.size == |GetKeys(json, stored)| <==> stored == "" || JsonKeys(json, stored) != Some([]))
            && (CountedKeys(json, stored) == GetKeys(json, stored) ==> Consistent(json, after))
  {
  }

  /** Channel.Update drops the statuses from MultiKeySize on and nothing else. */
  lemma UpdatedKeeps(json: Json, st: Stored, key: string, d: Draft, i: int)
    ensures var after := Updated(json, st, key, d);
            && Lookup(after.status, i) == (if i < after.size then Lookup(d.status, i) else None)
            && after.time == d.time && after.reason == d.reason
            && after.channelStatus == st.channelStatus && after.note == st.note
  {
  }

  lemma UpdatedInBounds(json: Json, st: Stored, key: string, d: Draft, n: nat)
    requires Within(d.status, n) && Within(d.time, n) && Within(d.reason, n) && Updated(json, st, key, d).size >= n
    ensures InBounds(Updated(json, st, key, d))
  {
  }

  lemma SameKeysRecords(json: Json, st: Stored, d: Draft)
    ensures var after := Updated(json, st, st.key, d);
            && Recs(json, after) == Records(GetKeys(json, st.key), d.status, d.time, d.reason)
            && (Consistent(json, st) ==> Consistent(json, after) && after.size == st.size)
  {
    UpdatedRecords(json, st, st.key, d);
  }

  lemma DraftWithin(recs: seq<Rec>)
    ensures var d := DraftOf(recs);
            Within(d.status, |recs|) && Within(d.time, |recs|) && Within(d.reason, |recs|)
  {
  }

  lemma SavedStorable(json: Json, st: Stored, recs: seq<Rec>)
    requires recs != [] && Storable(json, KeysOf(recs))
    ensures var saved := Saved(json, st, recs);
            Recs(json, saved) == recs && Consistent(json, saved) && InBounds(saved)
  {
    var keys, d := KeysOf(recs), DraftOf(recs);
    StorableSurvives(json, keys);
    UpdatedRecords(json, st, Joined(keys), d);
    DraftHolds(recs);
    DraftWithin(recs);
    UpdatedInBounds(json, st, Joined(keys), d, |recs|);
  }

  lemma SavedOtherKeys(json: Json, st: Stored, recs: seq<Rec>)
    requires Shrinks(json) && |recs| < |GetKeys(json, st.key)| && !(recs != [] && Storable(json, KeysOf(recs)))
    ensures KeysOf(Recs(json, Saved(json, st, recs))) != KeysOf(recs)
  {
    var keys := KeysOf(recs);
    UpdatedRecords(json, st, Joined(keys), DraftOf(recs));
    KeysOfRecs(json, Saved(json, st, recs));
    if recs != [] {
      KeysSurviveIff(json, keys);
    } else {
      assert keys == [];
    }
  }

  /** Fewer records than before are stored faithfully if and only if there are any and their keys are storable. */
  lemma SavedIff(json: Json, st: Stored, recs: seq<Rec>)
    requires Shrinks(json) && |recs| < |GetKeys(json, st.key)|
    ensures Recs(json, Saved(json, st, recs)) == recs <==> recs != [] && Storable(json, KeysOf(recs))
    ensures recs != [] && Storable(json, KeysOf(recs)) ==>
              Consistent(json, Saved(json, st, recs)) && InBounds(Saved(json, st, recs))
  {
    if recs != [] && Storable(json, KeysOf(recs)) {
      SavedStorable(json, st, recs);
    } else {
      SavedOtherKeys(json, st, recs);
    }
  }

  lemma KeysOfRecs(json: Json, st: Stored)
    ensures KeysOf(Recs(json, st)) == GetKeys(json, st.key)
  {
  }

  /** When no record survives, the stored keys stay, all of them enabled. */
  lemma NoneSaved(json: Json, st: Stored)
    ensures Recs(json, Saved(json, st, [])) == MapRecords(Recs(json, st), Enable)
    ensures StaysSound(json, st, Saved(json, st, []))
  {
    assert KeysOf([]) == [];
    SameKeysRecords(json, st, DraftOf([]));
    DraftWithin([]);
    UpdatedInBounds(json, st, "", DraftOf([]), 0);
  }

  /** Storing all records again. */
  lemma ResavedIff(json: Json, st: Stored)
    requires Shrinks(json) && Recs(json, st) != []
    ensures var recs := Recs(json, st);
            Recs(json, Saved(json, st, recs)) == recs <==> Resavable(json, KeysOf(recs))
  {
    var recs := Recs(json, st);
    var keys := KeysOf(recs);
    KeysOfRecs(json, st);
    if Storable(json, keys) {
      SavedStorable(json, st, recs);
    } else if keys == [""] {
      assert Joined(keys) == "";
      SameKeysRecords(json, st, DraftOf(recs));
      DraftHolds(recs);
    } else {
      JoinedEmptyIff(keys);
      KeysSurviveIff(json, keys);
      UpdatedRecords(json, st, Joined(keys), DraftOf(recs));
      KeysOfRecs(json, Saved(json, st, recs));
    }
  }

  lemma DisabledRecords(json: Json, st: Stored)
    ensures var recs, after := Recs(json, st), Recs(json, AllKeysDisabled(json, st));
            && |after| == |recs|
            && forall i :: 0 <= i < |recs| ==> after[i] == if i < st.size then DisableIfEnabled(recs[i]) else recs[i]
  {
    var recs, after := Recs(json, st), AllKeysDisabled(json, st);
    var enabled := set i | 0 <= i < st.size && StatusAt(st.status, i) == ENABLED;
    SameKeysRecords(json, st, DraftIn(st).(status := st.status + map i | i in enabled :: MANUALLY_DISABLED));
    forall i | 0 <= i < |recs|
      ensures Recs(json, after)[i] == if i < st.size then DisableIfEnabled(recs[i]) else recs[i]
    {
      assert i in enabled <==> i < st.size && recs[i].status == ENABLED;
    }
  }

  lemma DisabledSound(json: Json, st: Stored)
    ensures StaysSound(json, st, AllKeysDisabled(json, st))
  {
    var enabled := set i | 0 <= i < st.size && StatusAt(st.status, i) == ENABLED;
    var d := DraftIn(st).(status := st.status + map i | i in enabled :: MANUALLY_DISABLED);
    SameKeysRecords(json, st, d);
    if Consistent(json, st) && InBounds(st) { UpdatedInBounds(json, st, st.key, d, st.size); }
  }

  lemma AllDisabledIff(json: Json, st: Stored)
    ensures Recs(json, AllKeysDisabled(json, st)) == MapRecords(Recs(json, st), DisableIfEnabled)
       <==> Fits(json, st, DisableAllKeys)
    ensures StaysSound(json, st, AllKeysDisabled(json, st))
  {
    DisabledRecords(json, st);
    DisabledSound(json, st);
    var recs, after := Recs(json, st), Recs(json, AllKeysDisabled(json, st));
    if Fits(json, st, DisableAllKeys) {
      assert after == MapRecords(recs, DisableIfEnabled);
    } else {
      var i :| 0 <= i < |recs| && recs[i].status == ENABLED && i >= st.size;
      assert after[i] != MapRecords(recs, DisableIfEnabled)[i];
    }
  }

  lemma RecordDisabled(keys: seq<string>, d: Draft, i: int)
    ensures var recs := Records(keys, d.status, d.time, d.reason);
            Records(keys, d.status[i := MANUALLY_DISABLED], d.time, d.reason)
            == if 0 <= i < |keys| then recs[i := recs[i].(status := MANUALLY_DISABLED)] else recs
  {
  }

  lemma OneDisabledIff(json: Json, st: Stored, index: Option<int>)
    ensures Recs(json, KeyDisabled(json, st, index)) == Apply(Recs(json, st), DisableKey(index))
       <==> Fits(json, st, DisableKey(index))
    ensures StaysSound(json, st, KeyDisabled(json, st, index))
  {
    if Accepted(st, index) {
      var d := DraftIn(st).(status := st.status[index.value := MANUALLY_DISABLED]);
      SameKeysRecords(json, st, d);
      RecordDisabled(GetKeys(json, st.key), DraftIn(st), index.value);
      if Consistent(json, st) && InBounds(st) { UpdatedInBounds(json, st, st.key, d, st.size); }
    } else {
      assert KeyDisabled(json, st, index) == st;
    }
  }

  lemma RecordCleared(keys: seq<string>, d: Draft, i: int)
    ensures var recs := Records(keys, d.status, d.time, d.reason);
            Records(keys, d.status - {i}, d.time - {i}, d.reason - {i})
            == if 0 <= i < |keys| then recs[i := Enable(recs[i])] else recs
  {
  }

  lemma OneEnabledIff(json: Json, st: Stored, index: Option<int>)
    ensures Recs(json, KeyEnabled(json, st, index)) == Apply(Recs(json, st), EnableKey(index))
       <==> Fits(json, st, EnableKey(index))
    ensures StaysSound(json, st, KeyEnabled(json, st, index))
  {
    if Accepted(st, index) {
      var i := index.value;
      var d := Draft([], st.status - {i}, st.time - {i}, st.reason - {i});
      SameKeysRecords(json, st, d);
      RecordCleared(GetKeys(json, st.key), DraftIn(st), i);
      if Consistent(json, st) && InBounds(st) { UpdatedInBounds(json, st, st.key, d, st.size); }
    } else {
      assert KeyEnabled(json, st, index) == st;
    }
  }

  lemma AllEnabled(json: Json, st: Stored)
    ensures Recs(json, Updated(json, st, st.key, DraftOf([]))) == MapRecords(Recs(json, st), Enable)
    ensures StaysSound(json, st, Updated(json, st, st.key, DraftOf([])))
  {
    SameKeysRecords(json, st, DraftOf([]));
    DraftWithin([]);
    UpdatedInBounds(json, st, st.key, DraftOf([]), 0);
  }

  lemma RecordSet(keys: seq<string>, d: Draft, i: nat, status: int, now: int, why: string)
    requires i < |keys|
    ensures Records(keys, d.status[i := status], d.time[i := now], d.reason[i := why])
         == Records(keys, d.status, d.time, d.reason)[i := Rec(keys[i], status, Some(now), Some(why))]
    ensures var recs := Records(keys, d.status, d.time, d.reason);
            Records(keys, d.status - {i}, d.time, d.reason) == recs[i := recs[i].(status := ENABLED)]
  {
  }

  lemma RestatedSame(json: Json, st: Stored, status: int, now: int)
    ensures var after := Restated(json, st, status, now);
            && Recs(json, after) == Recs(json, st) && StaysSound(json, st, after)
            && (Consistent(json, st) ==> Consistent(json, after)) && (InBounds(st) ==> InBounds(after))
  {
  }

  lemma FoundReport(json: Json, st: Stored, key: string, status: int, now: int, why: string)
    requires FirstOf(Recs(json, st), key) < |Recs(json, st)|
    ensures Recs(json, KeyReported(json, st, key, status, now, why))
         == Apply(Recs(json, st), ReportKey(key, status, now, why))
    ensures StaysSound(json, st, KeyReported(json, st, key, status, now, why))
  {
    var i := FirstOf(Recs(json, st), key);
    var marked := Marked(st, i, status, now, why);
    MarkedRecords(json, st, i, status, now, why);
    RestatedSame(json, marked, status, now);
    assert KeyReported(json, st, key, status, now, why) == Restated(json, marked, status, now);
  }

  lemma ReportFollows(json: Json, st: Stored, key: string, status: int, now: int, why: string)
    ensures Recs(json, KeyReported(json, st, key, status, now, why))
         == Apply(Recs(json, st), ReportKey(key, status, now, why))
    ensures StaysSound(json, st, KeyReported(json, st, key, status, now, why))
  {
    if FirstOf(Recs(json, st), key) < |Recs(json, st)| { FoundReport(json, st, key, status, now, why); }
  }

  lemma MarkedRecords(json: Json, st: Stored, i: nat, status: int, now: int, why: string)
    requires i < |Recs(json, st)|
    ensures var recs, marked := Recs(json, st), Marked(st, i, status, now, why);
            && Recs(json, marked)
               == recs[i := if status == ENABLED then recs[i].(status := ENABLED)
                            else Rec(recs[i].key, status, Some(now), Some(why))]
            && StaysSound(json, st, marked)
  {
    RecordSet(GetKeys(json, st.key), DraftIn(st), i, status, now, why);
  }

  lemma DeletedIff(json: Json, st: Stored, index: Option<int>)
    requires Shrinks(json)
    ensures Recs(json, KeyDeleted(json, st, index)) == Apply(Recs(json, st), DeleteKey(index))
       <==> Fits(json, st, DeleteKey(index))
    ensures Fits(json, st, DeleteKey(index)) ==> StaysSound(json, st, KeyDeleted(json, st, index))
  {
    var recs := Recs(json, st);
    if Accepted(st, index) && recs != [] {
      if InRange(index, recs) {
        if |recs| > 1 { SavedIff(json, st, RemoveAt(recs, index.value)); }
      } else {
        ResavedIff(json, st);
      }
    }
  }

  lemma DisabledDeletedIff(json: Json, st: Stored)
    requires Shrinks(json)
    ensures Recs(json, DisabledKeysDeleted(json, st)) == Apply(Recs(json, st), DeleteDisabledKeys)
       <==> Fits(json, st, DeleteDisabledKeys)
    ensures Fits(json, st, DeleteDisabledKeys) ==> StaysSound(json, st, DisabledKeysDeleted(json, st))
  {
    var recs := Recs(json, st);
    if !NoneAuto(recs) {
      SurvivorsFewer(recs);
      if Survivors(recs) == [] { NoneSaved(json, st); } else { SavedIff(json, st, Survivors(recs)); }
    }
  }

  /** In any stored state an action does to the channel what it does to the records if and only if it fits. */
  lemma StepExactIff(json: Json, st: Stored, action: Action)
    requires Shrinks(json)
    ensures Recs(json, Step(json, st, action)) == Apply(Recs(json, st), action) <==> Fits(json, st, action)
    ensures Fits(json, st, action) ==> StaysSound(json, st, Step(json, st, action))
  {
    match action
    case DisableKey(index) => OneDisabledIff(json, st, index);
    case EnableKey(index) => OneEnabledIff(json, st, index);
    case EnableAllKeys => AllEnabled(json, st);
    case DisableAllKeys => AllDisabledIff(json, st);
    case DeleteKey(index) => DeletedIff(json, st, index);
    case DeleteDisabledKeys => DisabledDeletedIff(json, st);
    case ReportKey(key, status, now, why) => ReportFollows(json, st, key, status, now, why);
  }

  /** A report for a known key takes the channel down, with a note, exactly if no key is enabled afterwards; a
      recovered key brings it up; otherwise status and note stay. */
  lemma ChannelAfterReport(json: Json, st: Stored, i: nat, status: int, now: int, why: string)
    requires i < |Recs(json, st)|
    ensures var after := KeyReported(json, st, Recs(json, st)[i].key, status, now, why);
            if forall j :: 0 <= j < |Recs(json, after)| ==> Recs(json, after)[j].status != 1 then
              after.channelStatus == 3 && after.note == Some(Note("All keys are disabled", now))
            else after.note == st.note && after.channelStatus == if status == 1 then 1 else st.channelStatus
  {
    var recs, key := Recs(json, st), Recs(json, st)[i].key;
    var first := FirstOf(recs, key);
    var marked := Marked(st, first, status, now, why);
    MarkedRecords(json, st, first, status, now, why);
    RestatedSame(json, marked, status, now);
    assert forall j :: 0 <= j < |recs| ==> Recs(json, marked)[j].status == StatusAt(marked.status, j);
  }

  /** A report for an unknown key has no effect; one without a key sets the status of the channel and notes the
      reason, and so does any report for a channel without keys, but for the note. */
  lemma ChannelWithoutKey(json: Json, st: Stored, key: string, status: int, now: int, why: string)
    requires forall j :: 0 <= j < |Recs(json, st)| ==> Recs(json, st)[j].key != key
    ensures KeyReported(json, st, key, status, now, why)
         == if Recs(json, st) == [] then st.(channelStatus := status)
            else if key == "" then st.(channelStatus := status, note := Some(Note(why, now)))
            else st
  {
  }

  // ------------------------------------------------------------- one run

  /** After every action of the run the channel shows the list of records. */
  predicate FollowsAlong(json: Json, st: Stored, actions: seq<Action>)
    decreases |actions|
  {
    actions == [] ||
    (&& Recs(json, Step(json, st, actions[0])) == Apply(Recs(json, st), actions[0])
     && FollowsAlong(json, Step(json, st, actions[0]), actions[1..]))
  }

  predicate FitsAlong(json: Json, st: Stored, actions: seq<Action>)
    decreases |actions|
  {
    actions == [] || (Fits(json, st, actions[0]) && FitsAlong(json, Step(json, st, actions[0]), actions[1..]))
  }

  /** A run on the string and the maps is step by step the same run on the list of records, if and only if each
      action fits.  Then a MultiKeySize that is the key count stays so, and maps within it stay within. */
  lemma {:induction false} RunSimulates(json: Json, st: Stored, actions: seq<Action>)
    requires Shrinks(json)
    ensures FollowsAlong(json, st, actions) <==> FitsAlong(json, st, actions)
    ensures FitsAlong(json, st, actions) ==>
              && Recs(json, RunAll(json, st, actions)) == ApplyAll(Recs(json, st), actions)
              && StaysSound(json, st, RunAll(json, st, actions))
    decreases |actions|
  {
    if actions != [] {
      StepExactIff(json, st, actions[0]);
      RunSimulates(json, Step(json, st, actions[0]), actions[1..]);
    }
  }

  // ------------------------------------------------------------ every run

  /** Every list that deleting keys one by one can leave is storable. */
  predicate SublistsStorable(json: Json, keys: seq<string>)
    decreases |keys|
  {
    |keys| <= 1 ||
    forall i :: 0 <= i < |keys| ==> Storable(json, RemoveAt(keys, i)) && SublistsStorable(json, RemoveAt(keys, i))
  }

  lemma KeysOfRemoved(recs: seq<Rec>, i: int)
    ensures KeysOf(RemoveAt(recs, i)) == RemoveAt(KeysOf(recs), i)
  {
  }

  lemma {:induction false} SurvivorsWithout(recs: seq<Rec>, i: nat)
    requires i < |recs| && recs[i].status == AUTO_DISABLED
    ensures Survivors(RemoveAt(recs, i)) == Survivors(recs)
  {
    var n := |recs| - 1;
    if i < n {
      SurvivorsWithout(recs[..n], i);
      RemoveAtExtends(recs, i, n);
      assert recs[..n + 1] == recs;
      var fewer := RemoveAt(recs[..n], i);
      assert (fewer + [recs[n]])[..n - 1] == fewer;
    } else {
      assert RemoveAt(recs, i) == recs[..n];
    }
  }

  lemma {:induction false} NoneAutoKeys(recs: seq<Rec>)
    requires NoneAuto(recs)
    ensures KeysOf(Survivors(recs)) == KeysOf(recs)
  {
    if recs != [] {
      var init := recs[..|recs| - 1];
      assert NoneAuto(init);
      NoneAutoKeys(init);
      assert KeysOf(recs) == KeysOf(init) + [recs[|recs| - 1].key];
      assert KeysOf(Survivors(recs)) == KeysOf(Survivors(init)) + [recs[|recs| - 1].key];
    }
  }

  /** Deleting several keys at once is deleting them one by one. */
  lemma {:induction false} SurvivorsStorable(json: Json, recs: seq<Rec>)
    requires SublistsStorable(json, KeysOf(recs)) && !NoneAuto(recs) && Survivors(recs) != []
    ensures Storable(json, KeysOf(Survivors(recs))) && SublistsStorable(json, KeysOf(Survivors(recs)))
    decreases |recs|
  {
    var i :| 0 <= i < |recs| && recs[i].status == AUTO_DISABLED;
    var fewer := RemoveAt(recs, i);
    SurvivorsWithout(recs, i);
    KeysOfRemoved(recs, i);
    assert |recs| > 1;
    if NoneAuto(fewer) {
      NoneAutoKeys(fewer);
    } else {
      SurvivorsStorable(json, fewer);
    }
  }

  /** MultiKeySize covers the keys.  If it exceeds them, an index between makes delete_key store all keys
      again; and every list that deletions can leave is storable. */
  predicate AlwaysFits(json: Json, st: Stored) {
    var keys := GetKeys(json, st.key);
    keys == [] ||
    (|keys| <= st.size && (|keys| < st.size ==> Resavable(json, keys)) && SublistsStorable(json, keys))
  }

  lemma ApplyStorable(json: Json, recs: seq<Rec>, action: Action)
    requires SublistsStorable(json, KeysOf(recs))
    ensures SublistsStorable(json, KeysOf(Apply(recs, action))) && (recs != [] ==> Apply(recs, action) != [])
    ensures action.DeleteDisabledKeys? && !NoneAuto(recs) && Survivors(recs) != [] ==>
              Storable(json, KeysOf(Survivors(recs)))
  {
    match action
    case DeleteKey(index) => if InRange(index, recs) { KeysOfRemoved(recs, index.value); }
    case DeleteDisabledKeys =>
      if !NoneAuto(recs) && Survivors(recs) != [] {
        SurvivorsStorable(json, recs);
      } else {
        assert KeysOf(Apply(recs, action)) == KeysOf(recs);
      }
    case _ => assert KeysOf(Apply(recs, action)) == KeysOf(recs);
  }

  /** An action leaves key and size alone, or counts the keys again. */
  lemma SizeAfter(json: Json, st: Stored, action: Action)
    ensures var after := Step(json, st, action);
            || (after.key == st.key && after.size == st.size)
            || after.size == |CountedKeys(json, after.key)|
    ensures GetKeys(json, st.key) == [] ==> Step(json, st, action).key == st.key
  {
  }

  lemma AlwaysFitsNow(json: Json, st: Stored, action: Action)
    requires AlwaysFits(json, st)
    ensures Fits(json, st, action)
  {
    var recs := Recs(json, st);
    KeysOfRecs(json, st);
    if recs != [] {
      ApplyStorable(json, recs, action);
      if action.DeleteKey? && InRange(action.index, recs) { KeysOfRemoved(recs, action.index.value); }
    }
  }

  lemma AlwaysFitsNext(json: Json, st: Stored, action: Action)
    requires Shrinks(json) && AlwaysFits(json, st)
    ensures AlwaysFits(json, Step(json, st, action))
  {
    var after := Step(json, st, action);
    AlwaysFitsNow(json, st, action);
    StepExactIff(json, st, action);
    SizeAfter(json, st, action);
    KeysOfRecs(json, st);
    KeysOfRecs(json, after);
    if Recs(json, st) != [] { ApplyStorable(json, Recs(json, st), action); }
  }

  lemma {:induction false} AlwaysFitsAlong(json: Json, st: Stored, actions: seq<Action>)
    requires Shrinks(json) && AlwaysFits(json, st)
    ensures FitsAlong(json, st, actions)
    decreases |actions|
  {
    if actions != [] {
      AlwaysFitsNow(json, st, actions[0]);
      AlwaysFitsNext(json, st, actions[0]);
      AlwaysFitsAlong(json, Step(json, st, actions[0]), actions[1..]);
    }
  }

  /** After the run the channel shows what the run makes of the list of records. */
  ghost predicate Agrees(json: Json, st: Stored, recs: seq<Rec>, actions: seq<Action>) {
    Recs(json, RunAll(json, st, actions)) == ApplyAll(recs, actions)
  }

  lemma FirstAction(json: Json, st: Stored, recs: seq<Rec>, action: Action, rest: seq<Action>)
    ensures RunAll(json, st, [action] + rest) == RunAll(json, Step(json, st, action), rest)
    ensures ApplyAll(recs, [action] + rest) == ApplyAll(Apply(recs, action), rest)
  {
    assert ([action] + rest)[1..] == rest;
  }

  lemma NoAction(json: Json, st: Stored, recs: seq<Rec>)
    ensures RunAll(json, st, []) == st && ApplyAll(recs, []) == recs
  {
  }

  lemma MisfitParts(json: Json, st: Stored, action: Action)
    requires Shrinks(json) && !Fits(json, st, action)
    ensures !Agrees(json, st, Recs(json, st), [action])
  {
    StepExactIff(json, st, action);
    FirstAction(json, st, Recs(json, st), action, []);
    NoAction(json, Step(json, st, action), Apply(Recs(json, st), action));
    assert [action] + [] == [action];
  }

  lemma PartsLater(json: Json, st: Stored, action: Action, rest: seq<Action>)
    requires Recs(json, Step(json, st, action)) == Apply(Recs(json, st), action)
    requires !Agrees(json, Step(json, st, action), Recs(json, Step(json, st, action)), rest)
    ensures !Agrees(json, st, Recs(json, st), [action] + rest)
  {
    FirstAction(json, st, Recs(json, st), action, rest);
  }

  lemma StorableDeletion(json: Json, st: Stored, i: nat)
    requires Shrinks(json) && |GetKeys(json, st.key)| <= st.size
    requires i < |GetKeys(json, st.key)| && |GetKeys(json, st.key)| > 1
    requires Storable(json, RemoveAt(GetKeys(json, st.key), i))
    ensures var after := Step(json, st, DeleteKey(Some(i)));
            && GetKeys(json, after.key) == RemoveAt(GetKeys(json, st.key), i)
            && after.size == |GetKeys(json, after.key)|
            && Recs(json, after) == Apply(Recs(json, st), DeleteKey(Some(i)))
  {
    var after := Step(json, st, DeleteKey(Some(i)));
    KeysOfRecs(json, st);
    KeysOfRemoved(Recs(json, st), i);
    StepExactIff(json, st, DeleteKey(Some(i)));
    SizeAfter(json, st, DeleteKey(Some(i)));
    KeysOfRecs(json, after);
  }

  /** If some list that deletions can leave is not storable, a run of deletions shows it. */
  lemma {:induction false} Diverges(json: Json, st: Stored) returns (actions: seq<Action>)
    requires Shrinks(json) && |GetKeys(json, st.key)| <= st.size && !SublistsStorable(json, GetKeys(json, st.key))
    ensures !Agrees(json, st, Recs(json, st), actions)
    decreases |GetKeys(json, st.key)|
  {
    var keys := GetKeys(json, st.key);
    var i :| 0 <= i < |keys| && !(Storable(json, RemoveAt(keys, i)) && SublistsStorable(json, RemoveAt(keys, i)));
    var first := Action.DeleteKey(Some(i));
    if Storable(json, RemoveAt(keys, i)) {
      StorableDeletion(json, st, i);
      var rest := Diverges(json, Step(json, st, first));
      PartsLater(json, st, first, rest);
      actions := [first] + rest;
    } else {
      UnstorableMisfit(json, st, i);
      MisfitParts(json, st, first);
      actions := [first];
    }
  }

  lemma UnstorableMisfit(json: Json, st: Stored, i: nat)
    requires i < |GetKeys(json, st.key)| && |GetKeys(json, st.key)| > 1
    requires !Storable(json, RemoveAt(GetKeys(json, st.key), i))
    ensures !Fits(json, st, DeleteKey(Some(i)))
  {
    KeysOfRecs(json, st);
    KeysOfRemoved(Recs(json, st), i);
  }

  /** A key beyond MultiKeySize cannot be disabled or, if it is disabled, not be enabled. */
  lemma BeyondSize(json: Json, st: Stored) returns (action: Action)
    requires GetKeys(json, st.key) != [] && st.size < |GetKeys(json, st.key)|
    ensures !Fits(json, st, action)
  {
    var i := if st.size < 0 then 0 else st.size;
    if Recs(json, st)[i].status == MANUALLY_DISABLED {
      action := Action.EnableKey(Some(i));
    } else {
      action := Action.DisableKey(Some(i));
    }
  }

  /** From any stored state: the channel follows the list of records on every run, if and only if MultiKeySize
      covers the keys, keys that could be stored again survive it, and every list that deletions can leave is
      storable. */
  lemma EveryRunIff(json: Json, st: Stored)
    requires Shrinks(json)
    ensures (forall actions :: Agrees(json, st, Recs(json, st), actions)) <==> AlwaysFits(json, st)
  {
    if AlwaysFits(json, st) {
      EveryRunAgrees(json, st);
    } else {
      var actions := Unfit(json, st);
    }
  }

  lemma EveryRunAgrees(json: Json, st: Stored)
    requires Shrinks(json) && AlwaysFits(json, st)
    ensures forall actions :: Agrees(json, st, Recs(json, st), actions)
  {
    forall actions
      ensures Agrees(json, st, Recs(json, st), actions)
    {
      AlwaysFitsAlong(json, st, actions);
      RunSimulates(json, st, actions);
    }
  }

  lemma Unfit(json: Json, st: Stored) returns (actions: seq<Action>)
    requires Shrinks(json) && !AlwaysFits(json, st)
    ensures !Agrees(json, st, Recs(json, st), actions)
  {
    var keys := GetKeys(json, st.key);
    KeysOfRecs(json, st);
    if st.size < |keys| {
      var action := BeyondSize(json, st);
      MisfitParts(json, st, action);
      actions := [action];
    } else if !SublistsStorable(json, keys) {
      actions := Diverges(json, st);
    } else {
      MisfitParts(json, st, DeleteKey(Some(|keys|)));
      actions := [DeleteKey(Some(|keys|))];
    }
  }

  // --------------------------------------------------------- from creation

  /** The given keys, all enabled. */
  function Fresh(keys: seq<string>): (recs: seq<Rec>)
    ensures |recs| == |keys|
  {
    seq(|keys|, i requires 0 <= i < |keys| => Rec(keys[i], ENABLED, None, None))
  }

  lemma CreatedRecords(json: Json, keys: seq<string>)
    requires Shrinks(json)
    ensures Recs(json, Created(keys)) == Fresh(keys) <==> Storable(json, keys)
    ensures Storable(json, keys) ==> Consistent(json, Created(keys)) && InBounds(Created(keys))
    ensures KeysOf(Fresh(keys)) == keys
  {
    KeysSurviveIff(json, keys);
    KeysOfRecs(json, Created(keys));
    if Storable(json, keys) { StorableSurvives(json, keys); }
  }

  /** A new channel follows the list of its keys on every run, if and only if the keys and every list that
      deletions can leave of them are storable. */
  lemma CreatedFollowsIff(json: Json, keys: seq<string>)
    requires Shrinks(json)
    ensures (forall actions :: Agrees(json, Created(keys), Fresh(keys), actions))
       <==> Storable(json, keys) && SublistsStorable(json, keys)
  {
    CreatedRecords(json, keys);
    EveryRunIff(json, Created(keys));
    if Storable(json, keys) {
      StorableSurvives(json, keys);
    } else {
      CreatedOtherwise(json, keys);
    }
  }

  lemma CreatedOtherwise(json: Json, keys: seq<string>)
    requires Recs(json, Created(keys)) != Fresh(keys)
    ensures !Agrees(json, Created(keys), Fresh(keys), [])
  {
  }

  /** A key with a line break, as an element of a JSON array may have: it is stored as one key and read as two,
      of which the second can be neither disabled nor deleted. */
  lemma BrokenElement(json: Json, a: string, b: string)
    requires Plain(a) && Plain(b)
    ensures var st := Created([a + "\n" + b]);
            && GetKeys(json, st.key) == [a, b] && st.size == 1
            && Step(json, st, DisableKey(Some(1))) == Step(json, st, DeleteKey(Some(1))) == st
            && !Fits(json, st, DisableKey(Some(1))) && !Fits(json, st, DeleteKey(Some(1)))
  {
    JoinedPair(a, b);
    assert Joined([a + "\n" + b]) == Joined([a, b]);
    FirstPlainStorable(json, [a, b]);
    StorableSurvives(json, [a, b]);
  }

  /** An empty array in place of the keys reads as no key and counts as one. */
  lemma EmptyArray(json: Json, st: Stored, d: Draft)
    requires json("[]") == Some([])
    ensures var after := Updated(json, st, "[]", d);
            Recs(json, after) == [] && after.size == 1
  {
    TrimSpaceTrims("[]");
    TrimCharTrims("[]", '\n');
    assert Joined(["[]"]) == "[]" && FreeOf(["[]"], '\n');
    SplitJoin(["[]"], '\n');
  }

  /** So it does when every key is one line that is neither blank nor starts like an array. */
  lemma {:induction false} PlainSublists(json: Json, keys: seq<string>)
    requires AllPlain(keys)
    ensures SublistsStorable(json, keys)
    decreases |keys|
  {
    if |keys| > 1 {
      forall i | 0 <= i < |keys|
        ensures Storable(json, RemoveAt(keys, i)) && SublistsStorable(json, RemoveAt(keys, i))
      {
        PlainStorable(json, RemoveAt(keys, i));
        PlainSublists(json, RemoveAt(keys, i));
      }
    }
  }

  // --------------------------------------------- the condition, spelt out

  lemma {:induction false} SingleIsSublist(keys: seq<string>, i: nat)
    requires i < |keys|
    ensures IsSublist([keys[i]], keys)
  {
    assert [keys[i]][..0] == [];
    if i < |keys| - 1 { SingleIsSublist(keys[..|keys| - 1], i); }
  }

  lemma RemoveAtInit(keys: seq<string>, i: nat)
    requires i < |keys| - 1
    ensures var fewer := RemoveAt(keys, i);
            fewer[..|fewer| - 1] == RemoveAt(keys[..|keys| - 1], i) && fewer[|fewer| - 1] == keys[|keys| - 1]
  {
  }

  /** A shorter sublist misses some key. */
  lemma {:induction false} SublistMisses(part: seq<string>, whole: seq<string>) returns (i: nat)
    requires IsSublist(part, whole) && |part| < |whole|
    ensures i < |whole| && IsSublist(part, RemoveAt(whole, i))
  {
    var n := |whole| - 1;
    var init := whole[..n];
    if part != [] && part[|part| - 1] == whole[n] && IsSublist(part[..|part| - 1], init) {
      i := SublistMisses(part[..|part| - 1], init);
      RemoveAtInit(whole, i);
    } else {
      i := n;
      assert RemoveAt(whole, n) == init;
    }
  }

  /** What is a sublist after a deletion was one before. */
  lemma {:induction false} SublistOfRemoved(part: seq<string>, whole: seq<string>, i: nat)
    requires i < |whole| && IsSublist(part, RemoveAt(whole, i))
    ensures IsSublist(part, whole)
  {
    var n := |whole| - 1;
    if i == n {
      assert RemoveAt(whole, n) == whole[..n];
    } else if part != [] {
      RemoveAtInit(whole, i);
      if part[|part| - 1] == whole[n] && IsSublist(part[..|part| - 1], RemoveAt(whole[..n], i)) {
        SublistOfRemoved(part[..|part| - 1], whole[..n], i);
      } else {
        SublistOfRemoved(part, whole[..n], i);
      }
    }
  }

  /** No proper part of the keys is read as a JSON array when it is joined. */
  ghost predicate NoArrayInside(json: Json, keys: seq<string>) {
    forall part :: IsSublist(part, keys) && 0 < |part| < |keys| ==> JsonKeys(json, Joined(part)).None?
  }

  predicate AllLines(keys: seq<string>) {
    forall key :: key in keys ==> key != "" && '\n' !in key
  }

  lemma {:induction false} PartsStorable(json: Json, keys: seq<string>, part: seq<string>)
    requires SublistsStorable(json, keys) && IsSublist(part, keys) && 0 < |part| < |keys|
    ensures Storable(json, part)
    decreases |keys|
  {
    var i := SublistMisses(part, keys);
    SublistShorter(part, RemoveAt(keys, i));
    if |part| < |keys| - 1 { PartsStorable(json, RemoveAt(keys, i), part); }
  }

  lemma FewerLines(json: Json, keys: seq<string>, i: nat)
    requires AllLines(keys) && NoArrayInside(json, keys) && |keys| > 1 && i < |keys|
    ensures var fewer := RemoveAt(keys, i);
            |fewer| == |keys| - 1 && AllLines(fewer) && NoArrayInside(json, fewer) && Storable(json, fewer)
  {
    var fewer := RemoveAt(keys, i);
    SublistOfAll(fewer);
    SublistOfRemoved(fewer, keys, i);
    SublistShorter(fewer, keys);
    forall part | IsSublist(part, fewer) && 0 < |part| < |fewer|
      ensures JsonKeys(json, Joined(part)).None?
    {
      SublistOfRemoved(part, keys, i);
    }
    assert fewer[0] in fewer && fewer[|fewer| - 1] in fewer;
  }

  lemma {:induction false} LinesStorable(json: Json, keys: seq<string>)
    requires AllLines(keys) && NoArrayInside(json, keys)
    ensures SublistsStorable(json, keys)
    decreases |keys|
  {
    if |keys| > 1 {
      forall i | 0 <= i < |keys|
        ensures Storable(json, RemoveAt(keys, i)) && SublistsStorable(json, RemoveAt(keys, i))
      {
        FewerLines(json, keys, i);
        LinesStorable(json, RemoveAt(keys, i));
      }
    }
  }

  /** With two keys or more: all deletions leave storable keys if and only if no key is empty or spans lines, and
      no proper part of the keys is read as an array. */
  lemma SublistsStorableIff(json: Json, keys: seq<string>)
    requires |keys| >= 2
    ensures SublistsStorable(json, keys) <==> AllLines(keys) && NoArrayInside(json, keys)
  {
    if SublistsStorable(json, keys) {
      forall i | 0 <= i < |keys|
        ensures keys[i] != "" && '\n' !in keys[i]
      {
        SingleIsSublist(keys, i);
        PartsStorable(json, keys, [keys[i]]);
        assert keys[i] in [keys[i]];
      }
      forall part | IsSublist(part, keys) && 0 < |part| < |keys|
        ensures JsonKeys(json, Joined(part)).None?
      {
        PartsStorable(json, keys, part);
      }
    } else if AllLines(keys) && NoArrayInside(json, keys) {
      LinesStorable(json, keys);
    }
  }

  // -------------------------------------------------- the two deletions

  lemma ViewsTellKeys(a: seq<Rec>, b: seq<Rec>)
    ensures Views(a) == Views(b) ==> KeysOf(a) == KeysOf(b)
  {
    assert forall i :: 0 <= i < |a| ==> Views(a)[i].key == a[i].key;
    assert forall i :: 0 <= i < |b| ==> Views(b)[i].key == b[i].key;
  }

  /** A listing tells the keys, so records that are not stored faithfully show. */
  lemma SavedViewsIff(json: Json, st: Stored, recs: seq<Rec>)
    requires Shrinks(json) && |recs| < |GetKeys(json, st.key)|
    ensures Views(Recs(json, Saved(json, st, recs))) == Views(recs) <==> recs != [] && Storable(json, KeysOf(recs))
  {
    if recs != [] && Storable(json, KeysOf(recs)) {
      SavedStorable(json, st, recs);
    } else {
      SavedOtherKeys(json, st, recs);
      ViewsTellKeys(Recs(json, Saved(json, st, recs)), recs);
    }
  }

  lemma ViewsOfRemoved(recs: seq<Rec>, i: nat)
    requires i < |recs|
    ensures Views(RemoveAt(recs, i)) == Views(recs)[..i] + Views(recs)[i + 1..]
  {
  }

  /** delete_key takes away exactly one line of the listing and moves the later ones up, if and only if the
      index lies below MultiKeySize and the other keys are storable. */
  lemma DeleteKeyExactIff(json: Json, st: Stored, i: nat)
    requires Shrinks(json) && i < |Recs(json, st)| && |Recs(json, st)| > 1
    ensures var recs := Recs(json, st);
            Views(Recs(json, KeyDeleted(json, st, Some(i)))) == Views(recs)[..i] + Views(recs)[i + 1..]
            <==> i < st.size && Storable(json, KeysOf(RemoveAt(recs, i)))
  {
    var left := RemoveAt(Recs(json, st), i);
    ViewsOfRemoved(Recs(json, st), i);
    if i < st.size {
      SavedViewsIff(json, st, left);
      assert KeyDeleted(json, st, Some(i)) == Saved(json, st, left);
    }
  }

  /** The last key it never takes: at index 0 nothing changes, and at an index beyond, should MultiKeySize allow
      one, the key is stored again. */
  lemma LastKeyStays(json: Json, st: Stored, index: Option<int>)
    requires |Recs(json, st)| == 1
    ensures KeyDeleted(json, st, index)
         == if Accepted(st, index) && index.value > 0 then Saved(json, st, Recs(json, st)) else st
  {
  }

  /** delete_disabled_keys keeps the line of every key that was not auto-disabled, and drops the others, if
      and only if there is nothing to drop, or something is left and its keys are storable. */
  lemma DeleteDisabledExactIff(json: Json, st: Stored)
    requires Shrinks(json)
    ensures var recs, left := Recs(json, st), Survivors(Recs(json, st));
            Views(Recs(json, DisabledKeysDeleted(json, st))) == NotAuto(Views(recs))
            <==> NoneAuto(recs) || (left != [] && Storable(json, KeysOf(left)))
  {
    var recs := Recs(json, st);
    SurvivorsView(recs);
    SurvivorsFewer(recs);
    if NoneAuto(recs) {
      NoneAutoViews(Views(recs));
    } else {
      SavedViewsIff(json, st, Survivors(recs));
      assert DisabledKeysDeleted(json, st) == Saved(json, st, Survivors(recs));
    }
  }

  /** Records that are stored as the empty string leave the old keys, with entries for the first of them only. */
  lemma SavedAsNothing(json: Json, st: Stored, recs: seq<Rec>)
    requires Joined(KeysOf(recs)) == ""
    ensures var before, after := Recs(json, st), Recs(json, Saved(json, st, recs));
            && KeysOf(after) == KeysOf(before)
            && forall i :: |recs| <= i < |after| ==> after[i] == Enable(before[i])
  {
    var d := DraftOf(recs);
    DraftWithin(recs);
    SameKeysRecords(json, st, d);
    assert Saved(json, st, recs) == Updated(json, st, st.key, d);
    assert forall i :: i >= |recs| ==> i !in d.status && i !in d.time && i !in d.reason;
  }

  /** Where no key, or only an empty one, would be left, no key is deleted: all of them stay, and all but
      the first are enabled. */
  lemma DeleteDisabledRevives(json: Json, st: Stored)
    requires !NoneAuto(Recs(json, st))
    requires KeysOf(Survivors(Recs(json, st))) == [] || KeysOf(Survivors(Recs(json, st))) == [""]
    ensures var recs, after := Recs(json, st), Recs(json, DisabledKeysDeleted(json, st));
            && KeysOf(after) == KeysOf(recs)
            && (forall i :: 1 <= i < |after| ==> after[i] == Enable(recs[i]))
            && (Survivors(recs) == [] ==> after == MapRecords(recs, Enable))
  {
    var left := Survivors(Recs(json, st));
    JoinedEmptyIff(KeysOf(left));
    SavedAsNothing(json, st, left);
    assert |left| == |KeysOf(left)| <= 1;
    if left == [] { NoneSaved(json, st); }
  }

  function BlankLine(a: string, b: string): string {
    a + "\n\n" + b
  }

  lemma JoinedPair(a: string, b: string)
    ensures Joined([a, b]) == a + "\n" + b
  {
    assert [a, b][1..] == [b];
    assert Joined([b]) == b;
  }

  lemma BlankLineKeys(json: Json, a: string, b: string)
    requires Plain(a) && Plain(b)
    ensures GetKeys(json, BlankLine(a, b)) == CountedKeys(json, BlankLine(a, b)) == [a, "", b]
  {
    var keys := [a, "", b];
    JoinedPair("", b);
    assert keys[1..] == ["", b];
    assert Joined(keys) == a + ['\n'] + Joined(["", b]) == BlankLine(a, b);
    FirstPlainStorable(json, keys);
    StorableSurvives(json, keys);
  }

  lemma SurvivorInTheMiddle(a: Rec, b: Rec, c: Rec)
    requires a.status == c.status == AUTO_DISABLED && b.status != AUTO_DISABLED
    ensures Survivors([a, b, c]) == [Tidy(b)]
  {
    assert [a, b, c][..2] == [a, b] && [a, b][..1] == [a];
    assert Survivors([a]) == [];
  }

  /** A blank line between two auto-disabled keys: deleting the disabled keys deletes none and enables both. */
  lemma BlankLineRevives(json: Json, a: string, b: string, time: map<int, int>, reason: map<int, string>)
    requires Plain(a) && Plain(b)
    ensures var status := map[0 := AUTO_DISABLED, 2 := AUTO_DISABLED];
            var st := Stored(BlankLine(a, b), 3, status, time, reason, ENABLED, None);
            KeysOf(Survivors(Recs(json, st))) == [""]
            && Recs(json, DisabledKeysDeleted(json, st)) == MapRecords(Recs(json, st), Enable)
  {
    var st := Stored(BlankLine(a, b), 3, map[0 := AUTO_DISABLED, 2 := AUTO_DISABLED], time, reason, ENABLED, None);
    BlankLineKeys(json, a, b);
    var recs := Recs(json, st);
    assert recs == [recs[0], recs[1], recs[2]] && recs[0].status == recs[2].status == AUTO_DISABLED;
    SurvivorInTheMiddle(recs[0], recs[1], recs[2]);
    DeleteDisabledRevives(json, st);
    var after := Recs(json, DisabledKeysDeleted(json, st));
    assert DraftOf([Tidy(recs[1])]).status == map[];
    assert after[0] == Enable(recs[0]);
  }

  /** Records whose first key is empty lose it when they are stored: the next key takes its place, its status
      and its entries, and the other entries lie beyond MultiKeySize. */
  lemma BlankFirst(json: Json, st: Stored, blank: Rec, other: Rec)
    requires blank.key == "" && Plain(other.key) && other.time.Some?
    ensures var after := Saved(json, st, [blank, other]);
            && Recs(json, after) == [Rec(other.key, blank.status, blank.time, blank.reason)]
            && after.size == 1 && !InBounds(after)
  {
    var left, b := [blank, other], other.key;
    var d := DraftOf(left);
    assert KeysOf(left) == ["", b];
    JoinedPair("", b);
    assert "" + "\n" == "\n";
    UpdatedRecords(json, st, "\n" + b, d);
    ShiftedKey(json, b);
    DraftHolds(left);
    FirstEntry(d, b);
    assert 1 in d.time;
  }

  lemma FirstEntry(d: Draft, key: string)
    requires d.keys != []
    ensures Records([key], d.status, d.time, d.reason) == [RecordsOf(d)[0].(key := key)]
  {
  }

  /** With a disabled key behind a blank line, deleting the key before it enables the disabled one. */
  lemma BlankLineShifts(json: Json, a: string, b: string, time: map<int, int>, reason: map<int, string>)
    requires Plain(a) && Plain(b) && 2 in time
    ensures var st := Stored(BlankLine(a, b), 3, map[2 := AUTO_DISABLED], time, reason, ENABLED, None);
            var after := KeyDeleted(json, st, Some(0));
            && Recs(json, after) == [Rec(b, ENABLED, Lookup(time, 1), Lookup(reason, 1))]
            && after.size == 1 && !InBounds(after)
  {
    var st := Stored(BlankLine(a, b), 3, map[2 := AUTO_DISABLED], time, reason, ENABLED, None);
    BlankLineKeys(json, a, b);
    var recs := Recs(json, st);
    assert RemoveAt(recs, 0) == [recs[1], recs[2]];
    BlankFirst(json, st, recs[1], recs[2]);
  }

  lemma ShiftedKey(json: Json, b: string)
    requires Plain(b)
    ensures GetKeys(json, "\n" + b) == CountedKeys(json, "\n" + b) == [b]
  {
    FirstPlainStorable(json, [b]);
    StorableSurvives(json, [b]);
    assert Joined([b]) == b && ("\n" + b)[1..] == b;
    assert TrimLeft("\n" + b) == TrimLeft(b);
    assert TrimChar("\n" + b, '\n') == TrimChar(b, '\n');
  }

  lemma StepKeepsKey(json: Json, st: Stored, action: Action)
    requires st.key != ""
    ensures Step(json, st, action).key != ""
  {
  }

  /** No run of actions erases the stored keys; the list reads empty only if they are an empty array. */
  lemma {:induction false} NeverErased(json: Json, st: Stored, actions: seq<Action>)
    requires st.key != ""
    ensures var after := RunAll(json, st, actions);
            after.key != "" && (GetKeys(json, after.key) == [] <==> JsonKeys(json, after.key) == Some([]))
    decreases |actions|
  {
    if actions != [] {
      StepKeepsKey(json, st, actions[0]);
      NeverErased(json, Step(json, st, actions[0]), actions[1..]);
    }
  }

  /** In particular no run empties a list that it follows. */
  lemma {:induction false} NeverEmptied(recs: seq<Rec>, actions: seq<Action>)
    requires recs != []
    ensures ApplyAll(recs, actions) != []
    decreases |actions|
  {
    if actions != [] {
      NeverEmptied(Apply(recs, actions[0]), actions[1..]);
    }
  }
}
