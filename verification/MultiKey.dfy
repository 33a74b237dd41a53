/** The key list of a multi-key channel (ManageMultiKeys in controller/channel.go, with Channel.Update
    and handlerMultiKeyUpdate of model/channel.go).

    A channel stores its keys as one string and everything else about them in three maps from key index to
    status, disable time and disable reason.  The specification is a plain list of records; the methods
    below work on the string and the maps.  What they store is proved for every state, and it is proved
    exactly when that does to the records what the specification says. */
module MultiKey {
  import opened Prelude
  import opened KeyStore
  import opened KeyRecords

  // --------------------------------------------------- maps as records

  function StatusAt(status: map<int, int>, i: int): int {
    if i in status then status[i] else ENABLED
  }

  function Lookup<T>(m: map<int, T>, i: int): Option<T> {
    if i in m then Some(m[i]) else None
  }

  function Records(keys: seq<string>, status: map<int, int>, time: map<int, int>,
                   reason: map<int, string>): (recs: seq<Rec>)
    ensures |recs| == |keys|
  {
    seq(|keys|, i requires 0 <= i < |keys| => Rec(keys[i], StatusAt(status, i), Lookup(time, i), Lookup(reason, i)))
  }

  /** A key list and its three maps. */
  datatype Draft = Draft(keys: seq<string>, status: map<int, int>, time: map<int, int>, reason: map<int, string>)

  function RecordsOf(d: Draft): seq<Rec> {
    Records(d.keys, d.status, d.time, d.reason)
  }

  function KeysOf(recs: seq<Rec>): (keys: seq<string>)
    ensures |keys| == |recs|
  {
    seq(|recs|, i requires 0 <= i < |recs| => recs[i].key)
  }

  function StatusEntry(r: Rec): Option<int> {
    if r.status != ENABLED then Some(r.status) else None
  }

  function TimeEntry(r: Rec): Option<int> {
    r.time
  }

  function ReasonEntry(r: Rec): Option<string> {
    r.reason
  }

  function Entries<T>(recs: seq<Rec>, entry: Rec -> Option<T>): map<int, T> {
    map i | 0 <= i < |recs| && entry(recs[i]).Some? :: entry(recs[i]).value
  }

  /** The lists that hold these records and nothing else. */
  function DraftOf(recs: seq<Rec>): Draft {
    Draft(
      KeysOf(recs),
      Entries(recs, StatusEntry),
      Entries(recs, TimeEntry),
      Entries(recs, ReasonEntry))
  }

  lemma DraftHolds(recs: seq<Rec>)
    ensures RecordsOf(DraftOf(recs)) == recs
  {
  }

  /** Copies an entry, if there is one, to index n. */
  function Put<T>(m: map<int, T>, n: int, entry: Option<T>): map<int, T> {
    if entry.Some? then m[n := entry.value] else m
  }

  lemma EntriesGrow<T>(recs: seq<Rec>, r: Rec, entry: Rec -> Option<T>)
    ensures Entries(recs + [r], entry) == Put(Entries(recs, entry), |recs|, entry(r))
  {
  }

  lemma DraftGrows(recs: seq<Rec>, r: Rec)
    ensures var d, n := DraftOf(recs), |recs|;
            DraftOf(recs + [r]) == Draft(d.keys + [r.key],
                                         Put(d.status, n, StatusEntry(r)),
                                         Put(d.time, n, r.time),
                                         Put(d.reason, n, r.reason))
  {
    assert KeysOf(recs + [r]) == KeysOf(recs) + [r.key];
    EntriesGrow(recs, r, StatusEntry);
    EntriesGrow(recs, r, TimeEntry);
    EntriesGrow(recs, r, ReasonEntry);
  }

  // ------------------------------------------------- the stored channel

  datatype Stored = Stored(
    key: string,                    // Key
    size: int,                      // MultiKeySize
    status: map<int, int>,          // MultiKeyStatusList
    time: map<int, int>,            // MultiKeyDisabledTime
    reason: map<int, string>,       // MultiKeyDisabledReason
    channelStatus: int,             // Status
    note: Option<Note>)             // status_reason and status_time in OtherInfo

  datatype Note = Note(reason: string, time: int)

  function Recs(json: Json, st: Stored): seq<Rec> {
    Records(GetKeys(json, st.key), st.status, st.time, st.reason)
  }

  /** Channel.Update: an empty key string leaves the stored one alone, the size is counted again, and
      statuses beyond it are dropped. */
  function Updated(json: Json, st: Stored, key: string, d: Draft): Stored {
    var stored := if key != "" then key else st.key;
    var size := |CountedKeys(json, stored)|;
    Stored(stored, size, map i | i in d.status && i < size :: d.status[i], d.time, d.reason, st.channelStatus, st.note)
  }

  function DraftIn(st: Stored): Draft {
    Draft([], st.status, st.time, st.reason)
  }

  /** What is stored when these records are to be kept. */
  function Saved(json: Json, st: Stored, recs: seq<Rec>): Stored {
    Updated(json, st, Joined(KeysOf(recs)), DraftOf(recs))
  }

  predicate AnyEnabled(keys: seq<string>, status: map<int, int>) {
    exists i :: 0 <= i < |keys| && StatusAt(status, i) == ENABLED
  }

  predicate Accepted(st: Stored, index: Option<int>) {
    index.Some? && 0 <= index.value < st.size
  }

  function KeyDisabled(json: Json, st: Stored, index: Option<int>): Stored {
    if !Accepted(st, index) then st
    else Updated(json, st, st.key, DraftIn(st).(status := st.status[index.value := MANUALLY_DISABLED]))
  }

  function KeyEnabled(json: Json, st: Stored, index: Option<int>): Stored {
    if !Accepted(st, index) then st
    else
      var i := index.value;
      Updated(json, st, st.key, Draft([], st.status - {i}, st.time - {i}, st.reason - {i}))
  }

  function AllKeysDisabled(json: Json, st: Stored): Stored {
    var enabled := set i | 0 <= i < st.size && StatusAt(st.status, i) == ENABLED;
    if enabled == {} then st
    else Updated(json, st, st.key, DraftIn(st).(status := st.status + map i | i in enabled :: MANUALLY_DISABLED))
  }

  function KeyDeleted(json: Json, st: Stored, index: Option<int>): Stored {
    if !Accepted(st, index) || RemoveAt(Recs(json, st), index.value) == [] then st
    else Saved(json, st, RemoveAt(Recs(json, st), index.value))
  }

  function DisabledKeysDeleted(json: Json, st: Stored): Stored {
    if NoneAuto(Recs(json, st)) then st else Saved(json, st, Survivors(Recs(json, st)))
  }

  /** The i-th key is reported. */
  function Marked(st: Stored, i: int, status: int, now: int, why: string): Stored {
    if status == ENABLED then st.(status := st.status - {i})
    else st.(status := st.status[i := status], time := st.time[i := now], reason := st.reason[i := why])
  }

  /** The channel goes down with its last enabled key, and comes back with a recovered one. */
  function Restated(json: Json, st: Stored, status: int, now: int): Stored {
    if !AnyEnabled(GetKeys(json, st.key), st.status)
    then st.(channelStatus := AUTO_DISABLED, note := Some(Note("All keys are disabled", now)))
    else if status == ENABLED then st.(channelStatus := ENABLED)
    else st
  }

  function KeyReported(json: Json, st: Stored, key: string, status: int, now: int, why: string): Stored {
    var recs := Recs(json, st);
    var i := FirstOf(recs, key);
    if i < |recs| then Restated(json, Marked(st, i, status, now, why), status, now)
    else if recs == [] then st.(channelStatus := status)
    else if key == "" then st.(channelStatus := status, note := Some(Note(why, now)))
    else st
  }

  /** What an action leaves stored, in every state. */
  function Step(json: Json, st: Stored, action: Action): Stored {
    match action
    case DisableKey(index) => KeyDisabled(json, st, index)
    case EnableKey(index) => KeyEnabled(json, st, index)
    case EnableAllKeys => Updated(json, st, st.key, DraftOf([]))
    case DisableAllKeys => AllKeysDisabled(json, st)
    case DeleteKey(index) => KeyDeleted(json, st, index)
    case DeleteDisabledKeys => DisabledKeysDeleted(json, st)
    case ReportKey(key, status, now, why) => KeyReported(json, st, key, status, now, why)
  }

  function RunAll(json: Json, st: Stored, actions: seq<Action>): Stored
    decreases |actions|
  {
    if actions == [] then st else RunAll(json, Step(json, st, actions[0]), actions[1..])
  }

  /** A new channel (multi_to_single): the keys are joined and counted. */
  function Created(keys: seq<string>): Stored {
    Stored(Joined(keys), |keys|, map[], map[], map[], ENABLED, None)
  }

  // ------------------------------------------------------------ the channel

  method DropBeyond(status: map<int, int>, size: int) returns (kept: map<int, int>)
    ensures kept == map i | i in status && i < size :: status[i]
  {
    kept := status;
    var todo := status.Keys;
    while exists i :: i in todo
      invariant todo <= status.Keys
      invariant kept.Keys == set i | i in status && (i in todo || i < size)
      invariant forall i :: i in kept ==> kept[i] == status[i]
      decreases |todo|
    {
      var idx :| idx in todo;
      if idx >= size {
        kept := kept - {idx};
      }
      todo := todo - {idx};
    }
  }

  /** The i-th key moves to the next index, with the entries it keeps. */
  method Move(c: Draft, i: nat, d: Draft, ghost moved: seq<Rec>) returns (d': Draft)
    requires i < |c.keys| && d == DraftOf(moved)
    ensures d' == DraftOf(moved + [RecordsOf(c)[i]])
  {
    var newIndex := |d.keys|;
    var kept := if i in c.status && c.status[i] != ENABLED then Some(c.status[i]) else None;
    DraftGrows(moved, RecordsOf(c)[i]);
    d' := Draft(d.keys + [c.keys[i]], Put(d.status, newIndex, kept),
                Put(d.time, newIndex, Lookup(c.time, i)), Put(d.reason, newIndex, Lookup(c.reason, i)));
  }

  /** The re-indexing loop of delete_key. */
  method Without(c: Draft, gone: int) returns (d: Draft)
    requires 0 <= gone
    ensures d == DraftOf(RemoveAt(RecordsOf(c), gone))
  {
    d := Draft([], map[], map[], map[]);
    ghost var recs := RecordsOf(c);
    ghost var kept: seq<Rec> := [];
    for i := 0 to |c.keys|
      invariant kept == RemoveAt(recs[..i], gone) && d == DraftOf(kept)
    {
      RemoveAtExtends(recs, gone, i);
      if i != gone {
        d := Move(c, i, d, kept);
      }
      kept := RemoveAt(recs[..i + 1], gone);
    }
    assert recs[..|recs|] == recs;
  }

  /** The i-th key stays, without the entries of an enabled one, unless it is auto-disabled. */
  method MoveUnlessAuto(c: Draft, i: nat, d: Draft, ghost moved: seq<Rec>) returns (d': Draft, deleted: bool)
    requires i < |c.keys| && d == DraftOf(moved)
    ensures var r := RecordsOf(c)[i];
            deleted == (r.status == AUTO_DISABLED) && d' == DraftOf(if deleted then moved else moved + [Tidy(r)])
  {
    var s := StatusAt(c.status, i);
    deleted := s == AUTO_DISABLED;
    if deleted {
      d' := d;
    } else if s != ENABLED {
      d' := Move(c, i, d, moved);
    } else {
      DraftGrows(moved, Tidy(RecordsOf(c)[i]));
      d' := d.(keys := d.keys + [c.keys[i]]);
    }
  }

  lemma SurvivorsStep(recs: seq<Rec>, i: nat)
    requires i < |recs|
    ensures Survivors(recs[..i + 1])
         == if recs[i].status == AUTO_DISABLED then Survivors(recs[..i]) else Survivors(recs[..i]) + [Tidy(recs[i])]
  {
    assert recs[..i + 1][..i] == recs[..i];
  }

  /** The re-indexing loop of delete_disabled_keys. */
  method WithoutAutoDisabled(c: Draft) returns (d: Draft, deletedCount: nat)
    ensures d == DraftOf(Survivors(RecordsOf(c))) && deletedCount == |c.keys| - |Survivors(RecordsOf(c))|
  {
    d, deletedCount := Draft([], map[], map[], map[]), 0;
    ghost var recs := RecordsOf(c);
    ghost var kept: seq<Rec> := [];
    for i := 0 to |c.keys|
      invariant kept == Survivors(recs[..i]) && d == DraftOf(kept) && deletedCount == i - |kept|
    {
      SurvivorsStep(recs, i);
      var deleted;
      d, deleted := MoveUnlessAuto(c, i, d, kept);
      if deleted {
        deletedCount := deletedCount + 1;
      }
      kept := Survivors(recs[..i + 1]);
    }
    assert recs[..|recs|] == recs;
  }

  /** The stored channel.  Each action reads it, works on its own copy and stores the result. */
  class Channel {
    const json: Json
    var key: string
    var size: int
    var status: map<int, int>
    var time: map<int, int>
    var reason: map<int, string>
    var channelStatus: int
    var note: Option<Note>

    ghost function State(): Stored
      reads this
    {
      Stored(key, size, status, time, reason, channelStatus, note)
    }

    /** A new channel (multi_to_single): the keys are joined and counted. */
    constructor (json: Json, keys: seq<string>)
      ensures this.json == json && State() == Created(keys)
    {
      this.json, key, size := json, Joined(keys), |keys|;
      status, time, reason, channelStatus, note := map[], map[], map[], ENABLED, None;
    }

    method Update(newKey: string, newStatus: map<int, int>, newTime: map<int, int>, newReason: map<int, string>)
      modifies this
      ensures State() == Updated(json, old(State()), newKey, Draft([], newStatus, newTime, newReason))
    {
      var stored := if newKey != "" then newKey else key;
      var counted := |CountedKeys(json, stored)|;
      var kept := DropBeyond(newStatus, counted);
      key, size, status, time, reason := stored, counted, kept, newTime, newReason;
    }

    /** get_key_status: the lines of all keys, those of one status, and one page of them. */
    method KeyStatus(wanted: Option<int>, page: int, pageSize: int) returns (shown: Listing)
      ensures shown == ListingOf(Recs(json, State()), wanted, page, pageSize)
    {
      ghost var recs := Recs(json, State());
      var lines, counts := AllLines(Draft(GetKeys(json, key), status, time, reason));
      if wanted.Some? {
        lines := FilterLines(lines, wanted.value);
      }
      shown := ShowPage(lines, page, pageSize, counts);
    }

    method DisableKey(index: Option<int>) returns (ok: bool)
      modifies this
      ensures ok == Accepted(old(State()), index)
      ensures State() == KeyDisabled(json, old(State()), index)
    {
      if index.None? || index.value < 0 || index.value >= size {
        return false;
      }
      Update(key, status[index.value := MANUALLY_DISABLED], time, reason);
      return true;
    }

    method EnableKey(index: Option<int>) returns (ok: bool)
      modifies this
      ensures ok == Accepted(old(State()), index)
      ensures State() == KeyEnabled(json, old(State()), index)
    {
      if index.None? || index.value < 0 || index.value >= size {
        return false;
      }
      Update(key, status - {index.value}, time - {index.value}, reason - {index.value});
      return true;
    }

    method EnableAllKeys() returns (ok: bool)
      modifies this
      ensures ok && State() == Updated(json, old(State()), old(key), DraftOf([]))
    {
      Update(key, map[], map[], map[]);
      return true;
    }

    method DisableAllKeys() returns (ok: bool, disabled: nat)
      modifies this
      ensures ok == (disabled > 0)
      ensures State() == AllKeysDisabled(json, old(State()))
    {
      var list;
      list, disabled := DisableEnabled(status, size);
      if disabled == 0 {
        return false, 0;
      }
      Update(key, list, time, reason);
      return true, disabled;
    }

    method DeleteKey(index: Option<int>) returns (ok: bool)
      modifies this
      ensures ok == (Accepted(old(State()), index) && RemoveAt(Recs(json, old(State())), index.value) != [])
      ensures State() == KeyDeleted(json, old(State()), index)
    {
      if index.None? || index.value < 0 || index.value >= size {
        return false;
      }
      var d := Without(Draft(GetKeys(json, key), status, time, reason), index.value);
      if |d.keys| == 0 {
        return false;
      }
      Update(Joined(d.keys), d.status, d.time, d.reason);
      return true;
    }

    method DeleteDisabledKeys() returns (ok: bool, deleted: nat)
      modifies this
      ensures ok == (deleted > 0)
      ensures deleted == |Recs(json, old(State()))| - |Survivors(Recs(json, old(State())))|
      ensures State() == DisabledKeysDeleted(json, old(State()))
    {
      SurvivorsFewer(Recs(json, State()));
      var d;
      d, deleted := WithoutAutoDisabled(Draft(GetKeys(json, key), status, time, reason));
      if deleted == 0 {
        return false, 0;
      }
      Update(Joined(d.keys), d.status, d.time, d.reason);
      return true, deleted;
    }

    /** handlerMultiKeyUpdate: the relay reports that a key failed, or works again. */
    method ReportKey(usingKey: string, newStatus: int, now: int, why: string)
      modifies this
      ensures State() == KeyReported(json, old(State()), usingKey, newStatus, now, why)
    {
      var keys := GetKeys(json, key);
      if |keys| == 0 {
        channelStatus := newStatus;
        return;
      }
      var keyIndex := IndexOfKey(keys, usingKey, Recs(json, State()));
      if keyIndex == |keys| {
        if usingKey != "" {
          return;
        }
        channelStatus, note := newStatus, Some(Note(why, now));
        return;
      }
      if newStatus == ENABLED {
        status := status - {keyIndex};
      } else {
        status := status[keyIndex := newStatus];
        reason := reason[keyIndex := why];
        time := time[keyIndex := now];
      }
      var enabled := HasEnabledKey(keys, status);
      if !enabled {
        channelStatus, note := AUTO_DISABLED, Some(Note("All keys are disabled", now));
      } else if newStatus == ENABLED {
        channelStatus := ENABLED;
      }
    }

    /** Any run of actions. */
    method Run(actions: seq<Action>)
      modifies this
      ensures State() == RunAll(json, old(State()), actions)
    {
      assert actions[0..] == actions;
      for n := 0 to |actions|
        invariant RunAll(json, State(), actions[n..]) == RunAll(json, old(State()), actions)
      {
        assert actions[n..][1..] == actions[n + 1..];
        Do(actions[n]);
      }
    }

    method Do(action: Action)
      modifies this
      ensures State() == Step(json, old(State()), action)
    {
      match action {
        case DisableKey(index) => var _ := DisableKey(index);
        case EnableKey(index) => var _ := EnableKey(index);
        case EnableAllKeys => var _ := EnableAllKeys();
        case DisableAllKeys => var _, _ := DisableAllKeys();
        case DeleteKey(index) => var _ := DeleteKey(index);
        case DeleteDisabledKeys => var _, _ := DeleteDisabledKeys();
        case ReportKey(key, newStatus, now, why) => ReportKey(key, newStatus, now, why);
      }
    }
  }

  /** The loop of get_key_status over all keys. */
  method AllLines(d: Draft) returns (lines: seq<Line>, counts: Counts)
    ensures lines == LinesOf(RecordsOf(d)) && counts == CountsOf(RecordsOf(d))
  {
    ghost var recs := RecordsOf(d);
    lines, counts := [], Counts(0, 0, 0);
    for i := 0 to |d.keys|
      invariant lines == LinesOf(recs)[..i] && counts == CountsOf(recs[..i])
    {
      CountsStep(recs, i);
      var s := StatusAt(d.status, i);
      if s == ENABLED {
        counts := counts.(enabled := counts.enabled + 1);
      } else if s == MANUALLY_DISABLED {
        counts := counts.(manual := counts.manual + 1);
      } else if s == AUTO_DISABLED {
        counts := counts.(auto := counts.auto + 1);
      }
      var disabledTime, why := 0, "";
      if s != ENABLED {
        if i in d.time { disabledTime := d.time[i]; }
        if i in d.reason { why := d.reason[i]; }
      }
      var keyPreview := if |d.keys[i]| > 10 then d.keys[i][..10] + "..." else d.keys[i];
      lines := lines + [Line(i, s, disabledTime, why, keyPreview)];
    }
    assert recs[..|recs|] == recs;
  }

  /** The loop of disable_all_keys. */
  method DisableEnabled(status: map<int, int>, size: int) returns (list: map<int, int>, disabled: nat)
    ensures var enabled := set i | 0 <= i < size && StatusAt(status, i) == ENABLED;
            && list == status + (map i | i in enabled :: MANUALLY_DISABLED)
            && (disabled == 0 <==> enabled == {})
  {
    list, disabled := status, 0;
    ghost var done: set<int> := {};
    var i := 0;
    while i < size
      invariant done == set j | 0 <= j < i && j < size && StatusAt(status, j) == ENABLED
      invariant list == status + map j | j in done :: MANUALLY_DISABLED
      invariant disabled == 0 <==> done == {}
    {
      if StatusAt(list, i) == ENABLED {
        list := list[i := MANUALLY_DISABLED];
        disabled := disabled + 1;
        done := done + {i};
      }
      i := i + 1;
    }
    assert done == set j | 0 <= j < size && StatusAt(status, j) == ENABLED;
  }

  method IndexOfKey(keys: seq<string>, usingKey: string, ghost recs: seq<Rec>) returns (keyIndex: nat)
    requires KeysOf(recs) == keys
    ensures keyIndex == FirstOf(recs, usingKey)
  {
    keyIndex := 0;
    assert forall j :: 0 <= j < |keys| ==> keys[j] == recs[j].key;
    while keyIndex < |keys| && keys[keyIndex] != usingKey
      invariant 0 <= keyIndex <= |keys|
      invariant forall j :: 0 <= j < keyIndex ==> recs[j].key != usingKey
    {
      keyIndex := keyIndex + 1;
    }
    ghost var first := FirstOf(recs, usingKey);
    assert keyIndex < |keys| ==> recs[keyIndex].key == usingKey;
  }

  /** hasEnabledMultiKey */
  method HasEnabledKey(keys: seq<string>, status: map<int, int>) returns (found: bool)
    ensures found == AnyEnabled(keys, status)
  {
    for i := 0 to |keys|
      invariant forall j :: 0 <= j < i ==> StatusAt(status, j) != ENABLED
    {
      if StatusAt(status, i) == ENABLED {
        return true;
      }
    }
    return false;
  }
}
