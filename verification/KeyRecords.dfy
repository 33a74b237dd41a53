/** The keys of a multi-key channel as a plain list of records: what the actions of ManageMultiKeys
    (controller/channel.go) do to the list, and what get_key_status shows of it. */
module KeyRecords {
  import opened Prelude

  const ENABLED := 1
  const MANUALLY_DISABLED := 2
  const AUTO_DISABLED := 3

  // -------------------------------------------------------- specification

  /** One key with all that is stored about it.  An enabled key may carry the time and reason of an
      earlier disabling. */
  datatype Rec = Rec(key: string, status: int, time: Option<int>, reason: Option<string>)

  function Enable(r: Rec): Rec {
    Rec(r.key, ENABLED, None, None)
  }

  function DisableIfEnabled(r: Rec): Rec {
    if r.status == ENABLED then r.(status := MANUALLY_DISABLED) else r
  }

  /** What is left of a record that survives delete_disabled_keys. */
  function Tidy(r: Rec): Rec {
    if r.status == ENABLED then Enable(r) else r
  }

  function MapRecords(recs: seq<Rec>, f: Rec -> Rec): (out: seq<Rec>)
    ensures |out| == |recs| && forall i :: 0 <= i < |recs| ==> out[i] == f(recs[i])
  {
    seq(|recs|, i requires 0 <= i < |recs| => f(recs[i]))
  }

  /** The tidied records that are not auto-disabled, in order. */
  function Survivors(recs: seq<Rec>): seq<Rec> {
    if recs == [] then []
    else
      var last := recs[|recs| - 1];
      Survivors(recs[..|recs| - 1]) + if last.status == AUTO_DISABLED then [] else [Tidy(last)]
  }

  function RemoveAt<T>(s: seq<T>, i: int): seq<T> {
    if 0 <= i < |s| then s[..i] + s[i + 1..] else s
  }

  lemma RemoveAtExtends(recs: seq<Rec>, gone: nat, i: nat)
    requires i < |recs|
    ensures RemoveAt(recs[..i + 1], gone)
         == if i == gone then RemoveAt(recs[..i], gone) else RemoveAt(recs[..i], gone) + [recs[i]]
  {
    var shorter, longer := recs[..i], recs[..i + 1];
    assert longer == shorter + [recs[i]];
    if gone < i {
      assert longer[gone + 1..] == shorter[gone + 1..] + [recs[i]];
    }
  }

  datatype Action =
    | DisableKey(index: Option<int>)
    | EnableKey(index: Option<int>)
    | EnableAllKeys
    | DisableAllKeys
    | DeleteKey(index: Option<int>)
    | DeleteDisabledKeys
    | ReportKey(usingKey: string, newStatus: int, now: int, why: string)   // a relay failure or recovery

  predicate NoneAuto(recs: seq<Rec>) {
    forall i :: 0 <= i < |recs| ==> recs[i].status != AUTO_DISABLED
  }

  predicate InRange(index: Option<int>, recs: seq<Rec>) {
    index.Some? && 0 <= index.value < |recs|
  }

  /** The first record of a key, or the number of records. */
  function FirstOf(recs: seq<Rec>, key: string): (i: nat)
    ensures i <= |recs| && (i < |recs| ==> recs[i].key == key)
    ensures forall j :: 0 <= j < i ==> recs[j].key != key
  {
    if recs == [] || recs[0].key == key then 0 else 1 + FirstOf(recs[1..], key)
  }

  /** What an action does to the list of records. */
  function Apply(recs: seq<Rec>, action: Action): seq<Rec> {
    match action
    case DisableKey(index) =>
      if InRange(index, recs) then recs[index.value := recs[index.value].(status := MANUALLY_DISABLED)] else recs
    case EnableKey(index) =>
      if InRange(index, recs) then recs[index.value := Enable(recs[index.value])] else recs
    case EnableAllKeys => MapRecords(recs, Enable)
    case DisableAllKeys => MapRecords(recs, DisableIfEnabled)
    case DeleteKey(index) =>
      if InRange(index, recs) && |recs| > 1 then RemoveAt(recs, index.value) else recs
    case DeleteDisabledKeys =>
      if NoneAuto(recs) then recs
      else if Survivors(recs) == [] then MapRecords(recs, Enable)
      else Survivors(recs)
    case ReportKey(key, status, now, why) =>
      var i := FirstOf(recs, key);
      if i == |recs| then recs
      else if status == ENABLED then recs[i := recs[i].(status := ENABLED)]
      else recs[i := Rec(key, status, Some(now), Some(why))]
  }

  function ApplyAll(recs: seq<Rec>, actions: seq<Action>): seq<Rec>
    decreases |actions|
  {
    if actions == [] then recs else ApplyAll(Apply(recs, actions[0]), actions[1..])
  }

  // ------------------------------------------------- what an administrator sees

  /** One line of get_key_status: disable data shows for keys that are not enabled. */
  datatype View = View(key: string, status: int, time: int, reason: string)

  function ViewOf(r: Rec): View {
    if r.status == ENABLED then View(r.key, ENABLED, 0, "")
    else View(r.key, r.status, if r.time.Some? then r.time.value else 0, if r.reason.Some? then r.reason.value else "")
  }

  function Views(recs: seq<Rec>): (views: seq<View>)
    ensures |views| == |recs|
  {
    seq(|recs|, i requires 0 <= i < |recs| => ViewOf(recs[i]))
  }

  function NotAuto(views: seq<View>): seq<View> {
    if views == [] then []
    else
      var last := views[|views| - 1];
      NotAuto(views[..|views| - 1]) + if last.status == AUTO_DISABLED then [] else [last]
  }

  lemma {:induction false} SurvivorsView(recs: seq<Rec>)
    ensures Views(Survivors(recs)) == NotAuto(Views(recs))
  {
    if recs != [] {
      var n := |recs| - 1;
      SurvivorsView(recs[..n]);
      assert Views(recs)[..n] == Views(recs[..n]);
      assert Views(recs)[n] == ViewOf(recs[n]);
      assert Views([Tidy(recs[n])]) == [ViewOf(recs[n])];
      ViewsConcat(Survivors(recs[..n]), if recs[n].status == AUTO_DISABLED then [] else [Tidy(recs[n])]);
    }
  }

  lemma ViewsConcat(a: seq<Rec>, b: seq<Rec>)
    ensures Views(a + b) == Views(a) + Views(b)
  {
  }

  lemma {:induction false} NoneAutoViews(views: seq<View>)
    requires forall i :: 0 <= i < |views| ==> views[i].status != AUTO_DISABLED
    ensures NotAuto(views) == views
  {
    if views != [] {
      NoneAutoViews(views[..|views| - 1]);
    }
  }

  lemma {:induction false} SurvivorsFewer(recs: seq<Rec>)
    ensures if NoneAuto(recs) then |Survivors(recs)| == |recs| else |Survivors(recs)| < |recs|
  {
    if recs != [] {
      var init := recs[..|recs| - 1];
      SurvivorsFewer(init);
      assert forall i :: 0 <= i < |init| ==> init[i] == recs[i];
    }
  }

  /** One row of get_key_status: the start of the key stands for it. */
  datatype Line = Line(index: nat, status: int, time: int, reason: string, preview: string)

  datatype Counts = Counts(enabled: nat, manual: nat, auto: nat)

  datatype Listing = Listing(rows: seq<Line>, total: nat, page: int, pageSize: int, totalPages: int, counts: Counts)

  function LineOf(i: nat, r: Rec): Line {
    var v := ViewOf(r);
    Line(i, v.status, v.time, v.reason, if |r.key| > 10 then r.key[..10] + "..." else r.key)
  }

  function LinesOf(recs: seq<Rec>): (lines: seq<Line>)
    ensures |lines| == |recs|
  {
    seq(|recs|, i requires 0 <= i < |recs| => LineOf(i, recs[i]))
  }

  function CountsOf(recs: seq<Rec>): Counts {
    Counts(CountOf(recs, ENABLED), CountOf(recs, MANUALLY_DISABLED), CountOf(recs, AUTO_DISABLED))
  }

  function CountOf(recs: seq<Rec>, status: int): nat {
    if recs == [] then 0
    else CountOf(recs[..|recs| - 1], status) + if recs[|recs| - 1].status == status then 1 else 0
  }

  function WithStatus(lines: seq<Line>, status: int): seq<Line> {
    if lines == [] then []
    else
      var last := lines[|lines| - 1];
      WithStatus(lines[..|lines| - 1], status) + if last.status == status then [last] else []
  }

  lemma CountsStep(recs: seq<Rec>, i: nat)
    requires i < |recs|
    ensures var counts, s := CountsOf(recs[..i]), recs[i].status;
            CountsOf(recs[..i + 1])
            == Counts(counts.enabled + (if s == ENABLED then 1 else 0),
                      counts.manual + (if s == MANUALLY_DISABLED then 1 else 0),
                      counts.auto + (if s == AUTO_DISABLED then 1 else 0))
  {
    assert recs[..i + 1][..i] == recs[..i];
  }

  method FilterLines(lines: seq<Line>, status: int) returns (filtered: seq<Line>)
    ensures filtered == WithStatus(lines, status)
  {
    filtered := [];
    for i := 0 to |lines|
      invariant filtered == WithStatus(lines[..i], status)
    {
      assert lines[..i + 1][..i] == lines[..i];
      if lines[i].status == status {
        filtered := filtered + [lines[i]];
      }
    }
    assert lines[..|lines|] == lines;
  }

  /** The number of pages, at least one. */
  function PageCount(n: nat, pageSize: int): int
    requires pageSize > 0
  {
    if n == 0 then 1 else (n + pageSize - 1) / pageSize
  }

  /** The lines at positions (page - 1) * pageSize and following. */
  function PageOf(lines: seq<Line>, page: int, pageSize: int): seq<Line>
    requires page > 0 && pageSize > 0
  {
    var start := (page - 1) * pageSize;
    if start >= |lines| then []
    else if start + pageSize > |lines| then lines[start..]
    else lines[start..start + pageSize]
  }

  function ListingOf(recs: seq<Rec>, wanted: Option<int>, page: int, pageSize: int): Listing {
    var all := LinesOf(recs);
    ShownOf(if wanted.Some? then WithStatus(all, wanted.value) else all, page, pageSize, CountsOf(recs))
  }

  function ShownOf(lines: seq<Line>, page: int, pageSize: int, counts: Counts): Listing {
    var size := if pageSize <= 0 then 50 else pageSize;
    var pages := PageCount(|lines|, size);
    PageCountPositive(|lines|, size);
    var shown := if page <= 0 then 1 else if page > pages then pages else page;
    Listing(PageOf(lines, shown, size), |lines|, shown, size, pages, counts)
  }

  method ShowPage(lines: seq<Line>, page: int, pageSize: int, counts: Counts) returns (listing: Listing)
    ensures listing == ShownOf(lines, page, pageSize, counts)
  {
    var shown := if page <= 0 then 1 else page;
    var size := if pageSize <= 0 then 50 else pageSize;
    var totalPages := (|lines| + size - 1) / size;
    PageCountPositive(|lines|, size);
    if totalPages == 0 {
      totalPages := 1;
    }
    if shown > totalPages {
      shown := totalPages;
    }
    var rows := CutPage(lines, shown, size);
    listing := Listing(rows, |lines|, shown, size, totalPages, counts);
  }

  method CutPage(lines: seq<Line>, page: int, pageSize: int) returns (rows: seq<Line>)
    requires page > 0 && pageSize > 0
    ensures rows == PageOf(lines, page, pageSize)
  {
    var start := (page - 1) * pageSize;
    var end := start + pageSize;
    PageStarts(page, pageSize);
    if end > |lines| {
      end := |lines|;
    }
    if start < |lines| {
      return lines[start..end];
    }
    return [];
  }

  lemma PageCountPositive(n: nat, pageSize: int)
    requires pageSize > 0
    ensures PageCount(n, pageSize) >= 1 && PageCount(n, pageSize) * pageSize >= n
    ensures n == 0 ==> (n + pageSize - 1) / pageSize == 0
    ensures n == 0 || (PageCount(n, pageSize) - 1) * pageSize < n
  {
    if n > 0 {
      var q, r := (n + pageSize - 1) / pageSize, (n + pageSize - 1) % pageSize;
      assert n + pageSize - 1 == q * pageSize + r;
    }
  }

  lemma PageStarts(page: int, pageSize: int)
    requires page >= 1 && pageSize > 0
    ensures (page - 1) * pageSize >= 0
  {
  }

  /** All pages up to the k-th, one after the other. */
  function Pages(lines: seq<Line>, k: nat, pageSize: int): seq<Line>
    requires pageSize > 0
  {
    if k == 0 then [] else Pages(lines, k - 1, pageSize) + PageOf(lines, k, pageSize)
  }

  lemma {:induction false} PagesAre(lines: seq<Line>, k: nat, pageSize: int)
    requires pageSize > 0
    ensures Pages(lines, k, pageSize) == if k * pageSize >= |lines| then lines else lines[..k * pageSize]
  {
    if k > 0 {
      PagesAre(lines, k - 1, pageSize);
      var start := (k - 1) * pageSize;
      PageStarts(k, pageSize);
      assert k * pageSize == start + pageSize;
    }
  }

  /** Leafing through all pages shows every line of the status once, in order. */
  lemma PagesShowAll(lines: seq<Line>, pageSize: int)
    requires pageSize > 0
    ensures Pages(lines, PageCount(|lines|, pageSize), pageSize) == lines
  {
    PageCountPositive(|lines|, pageSize);
    PagesAre(lines, PageCount(|lines|, pageSize), pageSize);
  }

  // ------------------------------------------------- the actions, in plain terms

  /** Only record i differs, and its key stays. */
  predicate OnlyAt(recs: seq<Rec>, after: seq<Rec>, i: nat) {
    && |after| == |recs| && i < |recs| && after[i].key == recs[i].key
    && forall j :: 0 <= j < |recs| && j != i ==> after[j] == recs[j]
  }

  /** Disabling a key sets its status to 2 and keeps an earlier time and reason; enabling it sets the status to 1
      and forgets them; an index out of range has no effect. */
  lemma SingleKeyActions(recs: seq<Rec>, i: int)
    ensures var disabled, enabled := Apply(recs, DisableKey(Some(i))), Apply(recs, EnableKey(Some(i)));
            if 0 <= i < |recs| then
              && OnlyAt(recs, disabled, i) && disabled[i].status == 2
              && disabled[i].time == recs[i].time && disabled[i].reason == recs[i].reason
              && OnlyAt(recs, enabled, i) && enabled[i].status == 1
              && enabled[i].time == None && enabled[i].reason == None
            else disabled == recs && enabled == recs
    ensures Apply(recs, DisableKey(None)) == recs && Apply(recs, EnableKey(None)) == recs
  {
  }

  /** Enabling all keys enables each; disabling all keys sets status 2 where it was 1 and leaves the others. */
  lemma AllKeyActions(recs: seq<Rec>, i: nat)
    requires i < |recs|
    ensures var enabled, disabled := Apply(recs, EnableAllKeys), Apply(recs, DisableAllKeys);
            && |enabled| == |disabled| == |recs|
            && enabled[i] == Rec(recs[i].key, 1, None, None)
            && disabled[i]
               == (if recs[i].status == 1 then Rec(recs[i].key, 2, recs[i].time, recs[i].reason) else recs[i])
  {
  }

  /** Deleting a key drops its record; of a list of one nothing is dropped. */
  lemma DeleteAction(recs: seq<Rec>, i: nat)
    requires i < |recs|
    ensures Apply(recs, DeleteKey(Some(i))) == if |recs| == 1 then recs else recs[..i] + recs[i + 1..]
  {
  }

  /** A report changes the first record of the key: its status, and for a failure its time and reason. */
  lemma ReportAction(recs: seq<Rec>, i: nat, status: int, now: int, why: string)
    requires i < |recs| && forall j :: 0 <= j < i ==> recs[j].key != recs[i].key
    ensures var after := Apply(recs, ReportKey(recs[i].key, status, now, why));
            && OnlyAt(recs, after, i) && after[i].status == status
            && after[i].time == (if status == 1 then recs[i].time else Some(now))
            && after[i].reason == (if status == 1 then recs[i].reason else Some(why))
  {
  }

  lemma UnknownReport(recs: seq<Rec>, key: string, status: int, now: int, why: string)
    requires forall j :: 0 <= j < |recs| ==> recs[j].key != key
    ensures Apply(recs, ReportKey(key, status, now, why)) == recs
  {
  }

  /** What stays after deleting the disabled keys is what had another status than 3; an enabled record that stays
      loses its old time and reason. */
  lemma {:induction false} SurvivorsAre(recs: seq<Rec>)
    ensures forall r :: r in Survivors(recs) <==>
              exists q :: q in recs && q.status != 3 && r == if q.status == 1 then Rec(q.key, 1, None, None) else q
  {
    if recs != [] {
      var init, last := recs[..|recs| - 1], recs[|recs| - 1];
      assert recs == init + [last];
      SurvivorsAre(init);
      forall r
        ensures r in Survivors(recs) <==>
                  exists q :: q in recs && q.status != 3 && r == if q.status == 1 then Rec(q.key, 1, None, None) else q
      {
        if last.status != 3 && r == Tidy(last) { assert last in recs; }
        if r in Survivors(init) {
          var q :| q in init && q.status != 3 && r == if q.status == 1 then Rec(q.key, 1, None, None) else q;
          assert q in recs;
        }
      }
    }
  }

  // --------------------------------------------- the listing, in plain terms

  /** A line shows index and status, the time and reason of a key that is not enabled, and the first ten
      characters of a longer key. */
  lemma LineShows(recs: seq<Rec>, i: nat)
    requires i < |recs|
    ensures var line, r := LinesOf(recs)[i], recs[i];
            && line.index == i && line.status == r.status
            && line.time == (if r.status == 1 || r.time.None? then 0 else r.time.value)
            && line.reason == (if r.status == 1 || r.reason.None? then "" else r.reason.value)
            && line.preview == (if |r.key| <= 10 then r.key else r.key[..10] + "...")
  {
  }

  /** Filtering keeps exactly the lines of the status. */
  lemma {:induction false} WithStatusAre(lines: seq<Line>, status: int)
    ensures forall line :: line in WithStatus(lines, status) <==> line in lines && line.status == status
  {
    if lines != [] {
      var init, last := lines[..|lines| - 1], lines[|lines| - 1];
      assert lines == init + [last];
      WithStatusAre(init, status);
    }
  }

  /** A page number below 1 is page 1, one beyond the last page is the last; a size below 1 is 50. */
  lemma PageShown(lines: seq<Line>, page: int, pageSize: int, counts: Counts, k: nat)
    ensures var shown := ShownOf(lines, page, pageSize, counts);
            && shown.pageSize == (if pageSize >= 1 then pageSize else 50)
            && 1 <= shown.page <= shown.totalPages && shown.total == |lines| && shown.counts == counts
            && (1 <= page <= shown.totalPages ==> shown.page == page)
            && (page > shown.totalPages ==> shown.page == shown.totalPages) && (page < 1 ==> shown.page == 1)
            && |shown.rows| <= shown.pageSize
            && (k < |shown.rows| ==> var at := (shown.page - 1) * shown.pageSize + k;
                                     0 <= at < |lines| && shown.rows[k] == lines[at])
  {
    var size := if pageSize >= 1 then pageSize else 50;
    PageCountPositive(|lines|, size);
    PageStarts(ShownOf(lines, page, pageSize, counts).page, size);
  }

  /** The counts are the numbers of records of status 1, 2 and 3. */
  lemma CountsCount(recs: seq<Rec>, r: Rec)
    ensures CountsOf([]) == Counts(0, 0, 0)
    ensures CountsOf(recs + [r]).enabled == CountsOf(recs).enabled + if r.status == 1 then 1 else 0
    ensures CountsOf(recs + [r]).manual == CountsOf(recs).manual + if r.status == 2 then 1 else 0
    ensures CountsOf(recs + [r]).auto == CountsOf(recs).auto + if r.status == 3 then 1 else 0
  {
    assert (recs + [r])[..|recs|] == recs;
  }
}
