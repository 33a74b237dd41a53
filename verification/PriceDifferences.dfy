/** Comparing local prices with those of upstream channels (controller/ratio_sync.go, buildDifferences). */
module PriceDifferences {
  import opened Prelude
  import opened Pricing

  type Table = map<string, Value>

  /** For each pricing field a table of models. */
  type Data = map<string, Table>

  datatype Channel = Channel(name: string, data: Data)

  /** The fields are pricingSyncFields; what is proved holds for any list of fields. */
  datatype Input = Input(fields: seq<string>, local: Data, channels: seq<Channel>)

  datatype Item = Item(current: Value, upstreams: map<string, Value>, confidence: map<string, bool>)

  type Row = map<string, Item>

  type Report = map<string, Row>

  const SAME := Text("same")

  // --------------------------------------------------------- specification

  function ValueMap(data: Data, field: string): Table {
    if field in data then data[field] else map[]
  }

  function At(data: Data, field: string, model: string): Option<Value> {
    var table := ValueMap(data, field);
    if model in table then Some(NormalizeValue(field, table[model])) else None
  }

  function LocalValue(x: Input, model: string, field: string): Value {
    var found := At(x.local, field, model);
    if found.Some? then found.value else Null
  }

  /** What a cell shows for a channel: "same", nothing, or a value of its own. */
  function Shown(local: Value, upstream: Option<Value>): Value {
    match upstream
    case Some(value) => if ValuesEqual(local, value) then SAME else value
    case None => if local == Null then SAME else Null
  }

  function Names(channels: seq<Channel>): set<string> {
    set channel | channel in channels :: channel.name
  }

  /** Of several channels with one name the last counts. */
  function Last(channels: seq<Channel>, name: string): Channel
    requires name in Names(channels)
  {
    var init, last := channels[..|channels| - 1], channels[|channels| - 1];
    if last.name == name then last
    else
      assert channels == init + [last];
      Last(init, name)
  }

  function Column(x: Input, name: string, model: string, field: string): Value
    requires name in Names(x.channels)
  {
    Shown(LocalValue(x, model, field), At(Last(x.channels, name).data, field, model))
  }

  /** The placeholder prices 37.5 and 1 are not trusted. */
  predicate Trusted(data: Data, model: string) {
    var ratios, completions := ValueMap(data, "model_ratio"), ValueMap(data, "completion_ratio");
    !(&& model in ratios && model in completions
      && AsFloat(ratios[model]).Some? && NearlyEqual(AsFloat(ratios[model]).value, 37.5)
      && AsFloat(completions[model]).Some? && NearlyEqual(AsFloat(completions[model]).value, 1.0))
  }

  /** A channel has a value that the local one does not equal. */
  predicate Deviates(local: Value, upstream: Option<Value>) {
    upstream.Some? && (local != Null ==> !ValuesEqual(local, upstream.value))
  }

  ghost predicate AnyDeviates(local: Value, channels: seq<Channel>, field: string, model: string) {
    exists channel :: channel in channels && Deviates(local, At(channel.data, field, model))
  }

  ghost predicate RealDifference(x: Input, model: string, field: string) {
    AnyDeviates(LocalValue(x, model, field), x.channels, field, model)
  }

  predicate OwnValue(value: Value) {
    value != Null && value != SAME
  }

  /** Somewhere the channel shows a value of its own. */
  ghost predicate HasDifference(x: Input, name: string)
    requires name in Names(x.channels)
  {
    exists model, field :: field in x.fields && OwnValue(Column(x, name, model, field))
  }

  ghost function DifferingChannels(x: Input): set<string> {
    set name | name in Names(x.channels) && HasDifference(x, name)
  }

  /** Some column of the entry is worth showing. */
  ghost predicate WorthShowing(x: Input, model: string, field: string) {
    exists name :: name in DifferingChannels(x) && Column(x, name, model, field) != SAME
  }

  /** An entry with these columns. */
  ghost function ItemFor(x: Input, names: set<string>, model: string, field: string): Item
    requires names <= Names(x.channels)
  {
    Item(LocalValue(x, model, field),
         map name | name in names :: Column(x, name, model, field),
         map name | name in names :: Trusted(Last(x.channels, name).data, model))
  }

  /** The entry for a model and a field: there if some channel deviates and some column is worth showing, with
      one column for each channel that has a difference anywhere. */
  ghost function Expected(x: Input, model: string, field: string): Option<Item> {
    if field in x.fields && RealDifference(x, model, field) && WorthShowing(x, model, field) then
      Some(ItemFor(x, DifferingChannels(x), model, field))
    else None
  }

  function RowEntry(row: Row, field: string): Option<Item> {
    if field in row then Some(row[field]) else None
  }

  function Entry(report: Report, model: string, field: string): Option<Item> {
    if model in report then RowEntry(report[model], field) else None
  }

  // --------------------------------------------------------- buildDifferences

  /** The report holds the expected entries and no others, and no model without an entry. */
  method BuildDifferences(x: Input) returns (report: Report)
    ensures forall model, field :: Entry(report, model, field) == Expected(x, model, field)
    ensures forall model :: model in report ==> report[model] != map[]
  {
    var models := CollectModels(x);
    var confidence := Confidences(x.channels, models);
    var all := Compare(x, models, confidence);
    var marked := MarkedChannels(all);
    MarkedAreDiffering(x, models, all, marked);
    report := Prune(all, marked);
    forall model, field
      ensures Entry(report, model, field) == Expected(x, model, field)
    {
      PrunedIsExpected(x, models, marked, model, field);
    }
  }

  // -- all models

  function ModelsOf(data: Data, fields: seq<string>): set<string> {
    if fields == [] then {}
    else ModelsOf(data, fields[..|fields| - 1]) + ValueMap(data, fields[|fields| - 1]).Keys
  }

  function ModelsOfAll(channels: seq<Channel>, fields: seq<string>): set<string> {
    if channels == [] then {}
    else ModelsOfAll(channels[..|channels| - 1], fields) + ModelsOf(channels[|channels| - 1].data, fields)
  }

  method CollectModels(x: Input) returns (models: set<string>)
    ensures models == ModelsOf(x.local, x.fields) + ModelsOfAll(x.channels, x.fields)
  {
    models := AddModels(x.local, x.fields, {});
    for i := 0 to |x.channels|
      invariant models == ModelsOf(x.local, x.fields) + ModelsOfAll(x.channels[..i], x.fields)
    {
      assert x.channels[..i + 1][..i] == x.channels[..i];
      models := AddModels(x.channels[i].data, x.fields, models);
    }
    assert x.channels[..|x.channels|] == x.channels;
  }

  method AddModels(data: Data, fields: seq<string>, before: set<string>) returns (models: set<string>)
    ensures models == before + ModelsOf(data, fields)
  {
    models := before;
    for i := 0 to |fields|
      invariant models == before + ModelsOf(data, fields[..i])
    {
      assert fields[..i + 1][..i] == fields[..i];
      models := models + ValueMap(data, fields[i]).Keys;
    }
    assert fields[..|fields|] == fields;
  }

  lemma {:induction false} ModelsOfHas(data: Data, fields: seq<string>, field: string, model: string)
    requires field in fields && model in ValueMap(data, field)
    ensures model in ModelsOf(data, fields)
  {
    var init, last := fields[..|fields| - 1], fields[|fields| - 1];
    assert fields == init + [last];
    if field != last { ModelsOfHas(data, init, field, model); }
  }

  lemma {:induction false} ModelsOfAllHas(channels: seq<Channel>, fields: seq<string>, channel: Channel, field: string,
                                          model: string)
    requires channel in channels && field in fields && model in ValueMap(channel.data, field)
    ensures model in ModelsOfAll(channels, fields)
  {
    var init, last := channels[..|channels| - 1], channels[|channels| - 1];
    assert channels == init + [last];
    if channel == last {
      ModelsOfHas(channel.data, fields, field, model);
    } else {
      ModelsOfAllHas(init, fields, channel, field, model);
    }
  }

  // -- confidence

  /** The same for a source with and without ratio tables: the untrusted pair needs both. */
  method Confidence(data: Data, models: set<string>) returns (trust: map<string, bool>)
    ensures trust.Keys == models && forall model :: model in models ==> trust[model] == Trusted(data, model)
  {
    trust := map[];
    var modelRatios, completionRatios := ValueMap(data, "model_ratio"), ValueMap(data, "completion_ratio");
    var todo := models;
    while todo != {}
      invariant todo <= models && trust.Keys == models - todo
      invariant forall model :: model in trust ==> trust[model] == Trusted(data, model)
    {
      var model :| model in todo;
      todo := todo - {model};
      var trusted := true;
      if |modelRatios| > 0 && |completionRatios| > 0 {
        if model in modelRatios && model in completionRatios {
          var ratio, completion := AsFloat(modelRatios[model]), AsFloat(completionRatios[model]);
          if ratio.Some? && completion.Some? && NearlyEqual(ratio.value, 37.5) && NearlyEqual(completion.value, 1.0) {
            trusted := false;
          }
        }
      }
      trust := trust[model := trusted];
    }
  }

  method Confidences(channels: seq<Channel>, models: set<string>) returns (confidence: map<string, map<string, bool>>)
    ensures IsConfidence(confidence, channels, models)
  {
    confidence := map[];
    for i := 0 to |channels|
      invariant IsConfidence(confidence, channels[..i], models)
    {
      var trust := Confidence(channels[i].data, models);
      ConfidenceSnoc(confidence, channels[..i], channels[i], trust, models);
      assert channels[..i + 1] == channels[..i] + [channels[i]];
      confidence := confidence[channels[i].name := trust];
    }
    assert channels[..|channels|] == channels;
  }

  ghost predicate IsConfidence(confidence: map<string, map<string, bool>>, channels: seq<Channel>,
                               models: set<string>) {
    && confidence.Keys == Names(channels)
    && forall name, model :: name in confidence && model in models ==>
         model in confidence[name] && confidence[name][model] == Trusted(Last(channels, name).data, model)
  }

  lemma ConfidenceSnoc(confidence: map<string, map<string, bool>>, channels: seq<Channel>, channel: Channel,
                       trust: map<string, bool>, models: set<string>)
    requires IsConfidence(confidence, channels, models)
    requires trust.Keys == models && forall model :: model in models ==> trust[model] == Trusted(channel.data, model)
    ensures IsConfidence(confidence[channel.name := trust], channels + [channel], models)
  {
    LastSnoc(channels, channel);
  }

  lemma LastSnoc(channels: seq<Channel>, channel: Channel)
    ensures Names(channels + [channel]) == Names(channels) + {channel.name}
    ensures Last(channels + [channel], channel.name) == channel
    ensures forall name :: name in Names(channels) && name != channel.name ==>
        Last(channels + [channel], name) == Last(channels, name)
  {
  }

  // -- the comparison

  method CompareCell(local: Value, table: Table, field: string, model: string)
    returns (upstream: Value, present: bool, differs: bool)
    ensures var found := if model in table then Some(NormalizeValue(field, table[model])) else None;
            && upstream == Shown(local, found) && present == found.Some?
            && (local != Null ==> differs == Deviates(local, found))
  {
    upstream, present, differs := Null, false, false;
    if model in table {
      upstream := NormalizeValue(field, table[model]);
      present := true;
      if local != Null && !ValuesEqual(local, upstream) {
        differs := true;
      } else if ValuesEqual(local, upstream) {
        upstream := SAME;
      }
    }
    if upstream == Null && local == Null {
      upstream := SAME;
    }
    if local == Null && upstream != Null && upstream != SAME {
      differs := true;
    }
  }

  /** The entry before pruning: a column for every channel. */
  ghost function Unpruned(x: Input, model: string, field: string): Option<Item> {
    if RealDifference(x, model, field) then Some(ItemFor(x, Names(x.channels), model, field)) else None
  }

  ghost predicate AreColumns(columns: map<string, Value>, local: Value, channels: seq<Channel>, field: string,
                             model: string) {
    && columns.Keys == Names(channels)
    && forall name :: name in columns ==> columns[name] == Shown(local, At(Last(channels, name).data, field, model))
  }

  ghost predicate AreTrusts(trusts: map<string, bool>, names: set<string>, channels: seq<Channel>, model: string) {
    && trusts.Keys == names && names <= Names(channels)
    && forall name :: name in trusts ==> trusts[name] == Trusted(Last(channels, name).data, model)
  }

  method CompareField(x: Input, model: string, field: string, models: set<string>,
                      confidence: map<string, map<string, bool>>)
    returns (item: Option<Item>)
    requires model in models && IsConfidence(confidence, x.channels, models)
    ensures item == Unpruned(x, model, field)
  {
    var local := LocalValue(x, model, field);
    var upstreamValues: map<string, Value>, confidenceValues: map<string, bool> := map[], map[];
    var hasUpstreamValue, hasDifference := false, false;
    for i := 0 to |x.channels|
      invariant AreColumns(upstreamValues, local, x.channels[..i], field, model)
      invariant AreTrusts(confidenceValues, Names(x.channels[..i]), x.channels, model)
      invariant (if local != Null then hasDifference else hasUpstreamValue)
          == AnyDeviates(local, x.channels[..i], field, model)
    {
      var channel := x.channels[i];
      var value, present, differs := CompareCell(local, ValueMap(channel.data, field), field, model);
      hasUpstreamValue := hasUpstreamValue || present;
      hasDifference := hasDifference || differs;
      assert channel.name in Names(x.channels);
      var trusted := confidence[channel.name][model];
      assert x.channels[..i + 1] == x.channels[..i] + [channel];
      AnySnoc(local, x.channels[..i], channel, field, model);
      ColumnsSnoc(upstreamValues, local, x.channels[..i], channel, field, model);
      TrustsSnoc(confidenceValues, x.channels[..i], channel, x.channels, model);
      upstreamValues := upstreamValues[channel.name := value];
      confidenceValues := confidenceValues[channel.name := trusted];
    }
    assert x.channels[..|x.channels|] == x.channels;
    var shouldInclude := if local != Null then hasDifference else hasUpstreamValue;
    item := if shouldInclude then Some(Item(local, upstreamValues, confidenceValues)) else None;
    AreItem(x, model, field, upstreamValues, confidenceValues);
  }

  lemma ColumnsSnoc(columns: map<string, Value>, local: Value, channels: seq<Channel>, channel: Channel, field: string,
                    model: string)
    requires AreColumns(columns, local, channels, field, model)
    ensures var value := Shown(local, At(channel.data, field, model));
            AreColumns(columns[channel.name := value], local, channels + [channel], field, model)
  {
  }

  lemma TrustsSnoc(trusts: map<string, bool>, channels: seq<Channel>, channel: Channel, all: seq<Channel>,
                   model: string)
    requires AreTrusts(trusts, Names(channels), all, model) && channel.name in Names(all)
    ensures var trusted := Trusted(Last(all, channel.name).data, model);
            AreTrusts(trusts[channel.name := trusted], Names(channels + [channel]), all, model)
  {
  }

  lemma AreItem(x: Input, model: string, field: string, columns: map<string, Value>, trusts: map<string, bool>)
    requires AreColumns(columns, LocalValue(x, model, field), x.channels, field, model)
    requires AreTrusts(trusts, Names(x.channels), x.channels, model)
    ensures Item(LocalValue(x, model, field), columns, trusts) == ItemFor(x, Names(x.channels), model, field)
  {
    SameColumns(x, model, field, columns);
    SameTrusts(x, model, trusts);
  }

  lemma SameColumns(x: Input, model: string, field: string, columns: map<string, Value>)
    requires AreColumns(columns, LocalValue(x, model, field), x.channels, field, model)
    ensures columns == map name | name in Names(x.channels) :: Column(x, name, model, field)
  {
  }

  lemma SameTrusts(x: Input, model: string, trusts: map<string, bool>)
    requires AreTrusts(trusts, Names(x.channels), x.channels, model)
    ensures trusts == map name | name in Names(x.channels) :: Trusted(Last(x.channels, name).data, model)
  {
  }

  lemma AnySnoc(local: Value, channels: seq<Channel>, channel: Channel, field: string, model: string)
    ensures AnyDeviates(local, channels + [channel], field, model)
        <==> AnyDeviates(local, channels, field, model) || Deviates(local, At(channel.data, field, model))
  {
  }

  method CompareModel(x: Input, model: string, models: set<string>, confidence: map<string, map<string, bool>>)
    returns (row: Row)
    requires model in models && IsConfidence(confidence, x.channels, models)
    ensures forall field :: RowEntry(row, field) == if field in x.fields then Unpruned(x, model, field) else None
  {
    row := map[];
    for i := 0 to |x.fields|
      invariant forall field :: RowEntry(row, field)
                  == if field in x.fields[..i] then Unpruned(x, model, field) else None
    {
      var item := CompareField(x, model, x.fields[i], models, confidence);
      if item.Some? {
        row := row[x.fields[i] := item.value];
      }
      assert x.fields[..i + 1] == x.fields[..i] + [x.fields[i]];
    }
    assert x.fields[..|x.fields|] == x.fields;
  }

  ghost predicate IsUnpruned(x: Input, models: set<string>, report: Report) {
    forall model, field :: Entry(report, model, field)
      == if model in models && field in x.fields then Unpruned(x, model, field) else None
  }

  method Compare(x: Input, models: set<string>, confidence: map<string, map<string, bool>>) returns (report: Report)
    requires IsConfidence(confidence, x.channels, models)
    ensures IsUnpruned(x, models, report)
  {
    report := map[];
    var todo := models;
    while todo != {}
      invariant todo <= models && report.Keys <= models - todo
      invariant IsUnpruned(x, models - todo, report)
    {
      var model :| model in todo;
      var row := CompareModel(x, model, models, confidence);
      todo := todo - {model};
      if row != map[] {
        report := report[model := row];
      }
    }
    assert models - todo == models;
  }

  // -- the first pass over the entries

  predicate ItemMarks(item: Item, name: string) {
    name in item.upstreams && OwnValue(item.upstreams[name])
  }

  ghost predicate RowMarks(row: Row, name: string) {
    exists field :: field in row && ItemMarks(row[field], name)
  }

  ghost predicate ReportMarks(report: Report, name: string) {
    exists model :: model in report && RowMarks(report[model], name)
  }

  method MarkedChannels(report: Report) returns (marked: set<string>)
    ensures forall name :: name in marked <==> ReportMarks(report, name)
  {
    marked := {};
    var todo := report.Keys;
    while todo != {}
      invariant todo <= report.Keys
      invariant forall name ::
                  name in marked <==> exists model :: model in report && model !in todo && RowMarks(report[model], name)
    {
      var model :| model in todo;
      var more := MarkedInRow(report[model]);
      todo := todo - {model};
      marked := marked + more;
    }
  }

  method MarkedInRow(row: Row) returns (marked: set<string>)
    ensures forall name :: name in marked <==> RowMarks(row, name)
  {
    marked := {};
    var todo := row.Keys;
    while todo != {}
      invariant todo <= row.Keys
      invariant forall name ::
                  name in marked <==> exists field :: field in row && field !in todo && ItemMarks(row[field], name)
    {
      var field :| field in todo;
      var more := MarkedInItem(row[field]);
      todo := todo - {field};
      marked := marked + more;
    }
  }

  method MarkedInItem(item: Item) returns (marked: set<string>)
    ensures forall name :: name in marked <==> ItemMarks(item, name)
  {
    marked := {};
    var todo := item.upstreams.Keys;
    while todo != {}
      invariant todo <= item.upstreams.Keys
      invariant forall name :: name in marked <==> ItemMarks(item, name) && name !in todo
    {
      var name :| name in todo;
      todo := todo - {name};
      if item.upstreams[name] != Null && item.upstreams[name] != SAME {
        marked := marked + {name};
      }
    }
  }

  // -- the second pass

  ghost predicate Kept(item: Item, marked: set<string>) {
    exists name :: name in item.upstreams && name in marked && item.upstreams[name] != SAME
  }

  ghost function Restricted(item: Item, marked: set<string>): Option<Item> {
    var gone := item.upstreams.Keys - marked;
    if Kept(item, marked) then Some(Item(item.current, item.upstreams - gone, item.confidence - gone)) else None
  }

  method PruneItem(item: Item, marked: set<string>) returns (kept: Option<Item>)
    ensures kept == Restricted(item, marked)
  {
    var upstreams, confidence := DropUnmarked(item, marked);
    var allSame := AllSame(upstreams);
    assert forall name :: name in upstreams <==> name in item.upstreams && name in marked;
    assert |upstreams| == 0 ==> upstreams == map[];
    kept := if |upstreams| == 0 || allSame then None else Some(Item(item.current, upstreams, confidence));
  }

  method DropUnmarked(item: Item, marked: set<string>)
    returns (upstreams: map<string, Value>, confidence: map<string, bool>)
    ensures var gone := item.upstreams.Keys - marked;
            upstreams == item.upstreams - gone && confidence == item.confidence - gone
  {
    upstreams, confidence := item.upstreams, item.confidence;
    var todo := item.upstreams.Keys;
    ghost var gone := {};
    while todo != {}
      invariant todo <= item.upstreams.Keys
      invariant gone == item.upstreams.Keys - todo - marked
      invariant upstreams == item.upstreams - gone && confidence == item.confidence - gone
    {
      var name :| name in todo;
      todo := todo - {name};
      if name !in marked {
        OneLess(item.upstreams, gone, name);
        OneLess(item.confidence, gone, name);
        gone := gone + {name};
        upstreams, confidence := upstreams - {name}, confidence - {name};
      }
    }
    assert gone == item.upstreams.Keys - marked;
  }

  lemma OneLess<V>(table: map<string, V>, gone: set<string>, name: string)
    ensures table - gone - {name} == table - (gone + {name})
  {
  }

  method AllSame(upstreams: map<string, Value>) returns (same: bool)
    ensures same <==> forall name :: name in upstreams ==> upstreams[name] == SAME
  {
    var todo := upstreams.Keys;
    while todo != {}
      invariant todo <= upstreams.Keys
      invariant forall name :: name in upstreams && name !in todo ==> upstreams[name] == SAME
    {
      var name :| name in todo;
      if upstreams[name] != SAME {
        return false;
      }
      todo := todo - {name};
    }
    return true;
  }

  method PruneRow(row: Row, marked: set<string>) returns (pruned: Row)
    ensures forall field :: RowEntry(pruned, field) == if field in row then Restricted(row[field], marked) else None
  {
    pruned := row;
    var todo := row.Keys;
    while todo != {}
      invariant todo <= row.Keys
      invariant forall field :: RowEntry(pruned, field)
                  == if field in todo then Some(row[field])
                     else if field in row then Restricted(row[field], marked) else None
    {
      var field :| field in todo;
      todo := todo - {field};
      var kept := PruneItem(row[field], marked);
      if kept.None? {
        pruned := pruned - {field};
      } else {
        pruned := pruned[field := kept.value];
      }
    }
  }

  ghost function PrunedEntry(report: Report, marked: set<string>, model: string, field: string): Option<Item> {
    var item := Entry(report, model, field);
    if item.Some? then Restricted(item.value, marked) else None
  }

  method Prune(report: Report, marked: set<string>) returns (pruned: Report)
    ensures forall model, field :: Entry(pruned, model, field) == PrunedEntry(report, marked, model, field)
    ensures forall model :: model in pruned ==> pruned[model] != map[]
  {
    pruned := report;
    var todo := report.Keys;
    while todo != {}
      invariant todo <= report.Keys && todo <= pruned.Keys
      invariant forall model :: model in todo ==> pruned[model] == report[model]
      invariant forall model, field :: model !in todo ==>
          Entry(pruned, model, field) == PrunedEntry(report, marked, model, field)
      invariant forall model :: model in pruned && model !in todo ==> pruned[model] != map[]
    {
      var model :| model in todo;
      todo := todo - {model};
      var row := PruneRow(report[model], marked);
      if |row| == 0 {
        pruned := pruned - {model};
      } else {
        pruned := pruned[model := row];
      }
    }
  }

  // -- both passes together

  lemma OwnValueDeviates(x: Input, name: string, model: string, field: string)
    requires name in Names(x.channels) && OwnValue(Column(x, name, model, field))
    ensures RealDifference(x, model, field)
  {
    LastIn(x.channels, name);
  }

  lemma {:induction false} LastIn(channels: seq<Channel>, name: string)
    requires name in Names(channels)
    ensures Last(channels, name) in channels && Last(channels, name).name == name
  {
    var init, last := channels[..|channels| - 1], channels[|channels| - 1];
    assert channels == init + [last];
    if last.name != name { LastIn(init, name); }
  }

  lemma DifferenceIsCollected(x: Input, models: set<string>, model: string, field: string)
    requires models == ModelsOf(x.local, x.fields) + ModelsOfAll(x.channels, x.fields)
    requires field in x.fields && RealDifference(x, model, field)
    ensures model in models
  {
    var channel :| channel in x.channels && Deviates(LocalValue(x, model, field), At(channel.data, field, model));
    ModelsOfAllHas(x.channels, x.fields, channel, field, model);
  }

  /** The channels marked in the first pass are those with a difference anywhere. */
  lemma MarkedAreDiffering(x: Input, models: set<string>, report: Report, marked: set<string>)
    requires models == ModelsOf(x.local, x.fields) + ModelsOfAll(x.channels, x.fields)
    requires IsUnpruned(x, models, report) && forall name :: name in marked <==> ReportMarks(report, name)
    ensures marked == DifferingChannels(x)
  {
    forall name
      ensures name in marked <==> name in DifferingChannels(x)
    {
      if name in marked {
        var model :| model in report && RowMarks(report[model], name);
        var field :| field in report[model] && ItemMarks(report[model][field], name);
        assert Entry(report, model, field) == Unpruned(x, model, field);
        assert OwnValue(Column(x, name, model, field));
      }
      if name in DifferingChannels(x) {
        var model, field :| field in x.fields && OwnValue(Column(x, name, model, field));
        OwnValueDeviates(x, name, model, field);
        DifferenceIsCollected(x, models, model, field);
        assert Entry(report, model, field) == Unpruned(x, model, field);
        assert ItemMarks(report[model][field], name);
        assert RowMarks(report[model], name);
      }
    }
  }

  lemma PrunedIsExpected(x: Input, models: set<string>, marked: set<string>, model: string, field: string)
    requires models == ModelsOf(x.local, x.fields) + ModelsOfAll(x.channels, x.fields) && marked == DifferingChannels(x)
    ensures var item := if model in models && field in x.fields then Unpruned(x, model, field) else None;
            Expected(x, model, field) == if item.Some? then Restricted(item.value, marked) else None
  {
    if field in x.fields && RealDifference(x, model, field) {
      DifferenceIsCollected(x, models, model, field);
      OnlyMarked(x, marked, model, field);
    }
  }

  lemma OnlyMarked(x: Input, marked: set<string>, model: string, field: string)
    requires marked <= Names(x.channels)
    ensures var item := ItemFor(x, Names(x.channels), model, field);
            var gone := item.upstreams.Keys - marked;
            && Item(item.current, item.upstreams - gone, item.confidence - gone) == ItemFor(x, marked, model, field)
            && (Kept(item, marked) <==> exists name :: name in marked && Column(x, name, model, field) != SAME)
  {
    var item, pruned := ItemFor(x, Names(x.channels), model, field), ItemFor(x, marked, model, field);
    var gone := item.upstreams.Keys - marked;
    assert item.upstreams - gone == pruned.upstreams;
    assert item.confidence - gone == pruned.confidence;
  }

  // ------------------------------------------------- what a reader relies on

  predicate DistinctNames(channels: seq<Channel>) {
    channels == [] ||
    (DistinctNames(channels[..|channels| - 1]) &&
     forall channel :: channel in channels[..|channels| - 1] ==> channel.name != channels[|channels| - 1].name)
  }

  /** Channel names differ, and in the fields compared no channel sends null or the word "same". */
  ghost predicate Clean(x: Input) {
    && DistinctNames(x.channels)
    && forall channel, field, model ::
         channel in x.channels && field in x.fields && At(channel.data, field, model).Some? ==>
           OwnValue(At(channel.data, field, model).value)
  }

  lemma {:induction false} LastIsOnly(channels: seq<Channel>, channel: Channel)
    requires DistinctNames(channels) && channel in channels
    ensures channel.name in Names(channels) && Last(channels, channel.name) == channel
  {
    var init, last := channels[..|channels| - 1], channels[|channels| - 1];
    assert channels == init + [last];
    if channel != last { LastIsOnly(init, channel); }
  }

  /** The last channel of the name has a value there that is not null, not "same", and not the local one. */
  predicate HasOwnValue(x: Input, name: string, model: string, field: string)
    requires name in Names(x.channels)
  {
    var upstream := At(Last(x.channels, name).data, field, model);
    upstream.Some? && OwnValue(upstream.value) && !ValuesEqual(LocalValue(x, model, field), upstream.value)
  }

  /** There is a local value, and the last channel of the name has none or null. */
  predicate LacksValue(x: Input, name: string, model: string, field: string)
    requires name in Names(x.channels)
  {
    var upstream := At(Last(x.channels, name).data, field, model);
    LocalValue(x, model, field) != Null && (upstream.None? || upstream.value == Null)
  }

  lemma ColumnMeaning(x: Input, name: string, model: string, field: string)
    requires name in Names(x.channels)
    ensures OwnValue(Column(x, name, model, field)) <==> HasOwnValue(x, name, model, field)
    ensures Column(x, name, model, field) == Null <==> LacksValue(x, name, model, field)
  {
  }

  /** Whatever the input: an entry with a real difference is reported if and only if some channel has a value of
      its own there, or lacks the value there and has one of its own somewhere. */
  lemma ReportedExactIff(x: Input, model: string, field: string)
    requires field in x.fields
    ensures Expected(x, model, field).Some? <==>
            && RealDifference(x, model, field)
            && exists name :: name in Names(x.channels)
                 && (|| HasOwnValue(x, name, model, field)
                     || (LacksValue(x, name, model, field)
                         && exists m, f :: f in x.fields && HasOwnValue(x, name, m, f)))
  {
    forall name, m, f | name in Names(x.channels)
      ensures OwnValue(Column(x, name, m, f)) <==> HasOwnValue(x, name, m, f)
      ensures Column(x, name, m, f) == Null <==> LacksValue(x, name, m, f)
    {
      ColumnMeaning(x, name, m, f);
    }
    if name :| name in DifferingChannels(x) && Column(x, name, model, field) != SAME {
      var m, f :| f in x.fields && OwnValue(Column(x, name, m, f));
      assert HasOwnValue(x, name, m, f);
      assert HasOwnValue(x, name, model, field) || LacksValue(x, name, model, field);
    }
    if name :| name in Names(x.channels) && HasOwnValue(x, name, model, field) {
      assert OwnValue(Column(x, name, model, field));
      assert name in DifferingChannels(x);
    }
    if name, m, f :| name in Names(x.channels) && LacksValue(x, name, model, field)
                     && f in x.fields && HasOwnValue(x, name, m, f) {
      assert OwnValue(Column(x, name, m, f));
      assert name in DifferingChannels(x);
    }
  }

  /** In particular a value of one's own is always reported, and only real differences are. */
  lemma ReportedBetween(x: Input, name: string, model: string, field: string)
    requires name in Names(x.channels) && field in x.fields
    ensures HasOwnValue(x, name, model, field) ==> Expected(x, model, field).Some?
    ensures Expected(x, model, field).Some? ==> RealDifference(x, model, field)
  {
    ColumnMeaning(x, name, model, field);
    if HasOwnValue(x, name, model, field) {
      OwnValueDeviates(x, name, model, field);
      assert HasDifference(x, name);
    }
  }

  lemma CleanColumn(x: Input, channel: Channel, model: string, field: string)
    requires Clean(x) && channel in x.channels && field in x.fields
    ensures channel.name in Names(x.channels)
    ensures OwnValue(Column(x, channel.name, model, field))
        <==> Deviates(LocalValue(x, model, field), At(channel.data, field, model))
  {
    LastIsOnly(x.channels, channel);
  }

  /** On clean input an entry is reported if and only if some channel has a value there and the local one is
      absent or differs. */
  lemma ReportedIff(x: Input, model: string, field: string)
    requires Clean(x)
    ensures Expected(x, model, field).Some? <==> field in x.fields && RealDifference(x, model, field)
  {
    if field in x.fields && RealDifference(x, model, field) {
      var channel :| channel in x.channels && Deviates(LocalValue(x, model, field), At(channel.data, field, model));
      CleanColumn(x, channel, model, field);
      ColumnMeaning(x, channel.name, model, field);
      ReportedBetween(x, channel.name, model, field);
    }
  }

  ghost predicate DeviatesSomewhere(x: Input, channel: Channel) {
    exists model, field :: field in x.fields && Deviates(LocalValue(x, model, field), At(channel.data, field, model))
  }

  /** On clean input every entry has the same columns, in both tables: the channels that deviate somewhere. */
  lemma ColumnsIff(x: Input, channel: Channel, model: string, field: string)
    requires Clean(x) && channel in x.channels && Expected(x, model, field).Some?
    ensures var item := Expected(x, model, field).value;
            && item.upstreams.Keys == item.confidence.Keys
            && (channel.name in item.upstreams <==> DeviatesSomewhere(x, channel))
  {
    LastIsOnly(x.channels, channel);
    forall m, f | f in x.fields
      ensures OwnValue(Column(x, channel.name, m, f)) <==> Deviates(LocalValue(x, m, f), At(channel.data, f, m))
    {
      CleanColumn(x, channel, m, f);
    }
    var item := Expected(x, model, field).value;
    assert channel.name in item.upstreams <==> HasDifference(x, channel.name);
    if HasDifference(x, channel.name) {
      var m, f :| f in x.fields && OwnValue(Column(x, channel.name, m, f));
      assert DeviatesSomewhere(x, channel);
    }
    if DeviatesSomewhere(x, channel) {
      var m, f :| f in x.fields && Deviates(LocalValue(x, m, f), At(channel.data, f, m));
      assert HasDifference(x, channel.name);
    }
  }

  // ------------------------------------------------------- with plain values

  /** The only channel has this value there, beside this local one. */
  predicate OneChannel(x: Input, channel: Channel, field: string, model: string, local: Value, upstream: Value) {
    && x.channels == [channel] && field in x.fields
    && field in x.local && model in x.local[field] && x.local[field][model] == local
    && field in channel.data && model in channel.data[field] && channel.data[field][model] == upstream
  }

  /** With one channel that has a value of its own there, or else the local one, the column decides. */
  lemma OneChannelReport(x: Input, channel: Channel, field: string, model: string, local: Value, upstream: Value)
    requires OneChannel(x, channel, field, model, local, upstream)
    requires NormalizeValue(field, local) != Null && OwnValue(NormalizeValue(field, upstream))
    ensures Expected(x, model, field).Some?
       <==> !ValuesEqual(NormalizeValue(field, local), NormalizeValue(field, upstream))
    ensures Expected(x, model, field).Some? ==>
              var item := Expected(x, model, field).value;
              && item.current == NormalizeValue(field, local)
              && item.upstreams == map[channel.name := NormalizeValue(field, upstream)]
              && item.confidence == map[channel.name := Trusted(channel.data, model)]
  {
    OneChannelLast(x, channel);
    ReportedExactIff(x, model, field);
    assert channel in x.channels;
    assert HasOwnValue(x, channel.name, model, field)
      <==> !ValuesEqual(NormalizeValue(field, local), NormalizeValue(field, upstream));
    if Expected(x, model, field).Some? {
      ColumnMeaning(x, channel.name, model, field);
      assert HasDifference(x, channel.name);
      assert DifferingChannels(x) == {channel.name};
    }
  }

  lemma OneChannelLast(x: Input, channel: Channel)
    requires x.channels == [channel]
    ensures Names(x.channels) == {channel.name} && Last(x.channels, channel.name) == channel
  {
    LastSnoc([], channel);
    assert [] + [channel] == [channel];
  }

  /** Two numbers are reported, with the channel's one in its column, if and only if they are 1e-9 or more apart. */
  lemma NumbersReportedIff(x: Input, channel: Channel, field: string, model: string, a: real, b: real)
    requires OneChannel(x, channel, field, model, Num(a), Num(b))
    ensures Expected(x, model, field).Some? <==> a - b >= 0.000000001 || b - a >= 0.000000001
    ensures Expected(x, model, field).Some? ==>
              && Expected(x, model, field).value.current == Num(a)
              && Expected(x, model, field).value.upstreams == map[channel.name := Num(b)]
  {
    OneChannelReport(x, channel, field, model, Num(a), Num(b));
  }

  /** In the numeric fields an integer and the same number are no difference, elsewhere they are. */
  lemma IntegersReportedIff(x: Input, channel: Channel, field: string, model: string, n: int)
    requires || OneChannel(x, channel, field, model, Num(n as real), Int(n))
             || OneChannel(x, channel, field, model, Int(n), Num(n as real))
    ensures Expected(x, model, field).None? <==>
              || field == "model_ratio" || field == "completion_ratio" || field == "cache_ratio"
              || field == "create_cache_ratio" || field == "image_ratio" || field == "audio_ratio"
              || field == "audio_completion_ratio" || field == "model_price"
  {
    if OneChannel(x, channel, field, model, Int(n), Num(n as real)) {
      OneChannelReport(x, channel, field, model, Int(n), Num(n as real));
    } else {
      OneChannelReport(x, channel, field, model, Num(n as real), Int(n));
    }
  }

  /** Texts and flags are reported exactly if they are unequal; the text "same" stands for no difference. */
  lemma TextsReportedIff(x: Input, channel: Channel, field: string, model: string, local: Value, upstream: Value)
    requires OneChannel(x, channel, field, model, local, upstream)
    requires (local.Text? || local.Flag?) && (upstream.Text? || upstream.Flag?) && upstream != Text("same")
    ensures Expected(x, model, field).Some? <==> local != upstream
    ensures local != upstream ==> Expected(x, model, field).value.upstreams == map[channel.name := upstream]
  {
    OneChannelReport(x, channel, field, model, local, upstream);
  }

  /** A model without a local value is reported with whatever the channel has. */
  lemma NewModelReported(x: Input, channel: Channel, field: string, model: string, b: real)
    requires x.channels == [channel] && field in x.fields && (field !in x.local || model !in x.local[field])
    requires field in channel.data && model in channel.data[field] && channel.data[field][model] == Num(b)
    ensures Expected(x, model, field).Some?
    ensures Expected(x, model, field).value.current == Null
    ensures Expected(x, model, field).value.upstreams == map[channel.name := Num(b)]
  {
    OneChannelLast(x, channel);
    ReportedExactIff(x, model, field);
    assert channel in x.channels && Deviates(LocalValue(x, model, field), At(channel.data, field, model));
    assert HasOwnValue(x, channel.name, model, field);
    ColumnMeaning(x, channel.name, model, field);
    assert HasDifference(x, channel.name);
    assert DifferingChannels(x) == {channel.name};
  }

  /** A source is not trusted for a model exactly if its ratio is within 1e-9 of 37.5 and its completion ratio of 1. */
  lemma UntrustedIff(data: Data, model: string, a: real, b: real)
    requires "model_ratio" in data && model in data["model_ratio"] && data["model_ratio"][model] == Num(a)
    requires "completion_ratio" in data && model in data["completion_ratio"]
    requires data["completion_ratio"][model] == Num(b)
    ensures !Trusted(data, model)
       <==> -0.000000001 < a - 37.5 < 0.000000001 && -0.000000001 < b - 1.0 < 0.000000001
  {
  }

  /** It is trusted where it gives no ratio or no completion ratio. */
  lemma TrustedWithout(data: Data, model: string)
    ensures "model_ratio" !in data || model !in data["model_ratio"] ==> Trusted(data, model)
    ensures "completion_ratio" !in data || model !in data["completion_ratio"] ==> Trusted(data, model)
  {
  }

  /** A null in place of a local price is a real difference.  It is not reported for a channel that has no
      value of its own anywhere ... */
  lemma NullExample(field: string, model: string)
    ensures var x := Input([field], map[field := map[model := Text("1")]],
                           [Channel("a", map[field := map[model := Null]])]);
            RealDifference(x, model, field) && Expected(x, model, field).None?
  {
  }

  /** ... and it is reported for a channel that has one. */
  lemma NullReportedExample(field: string, other: string, model: string)
    requires field != other
    ensures var one := map[model := Text("1")];
            var x := Input([field, other], map[field := one, other := one],
                           [Channel("a", map[field := map[model := Null], other := map[model := Flag(true)]])]);
            RealDifference(x, model, field) && LacksValue(x, "a", model, field) && Expected(x, model, field).Some?
  {
    var one := map[model := Text("1")];
    var channel := Channel("a", map[field := map[model := Null], other := map[model := Flag(true)]]);
    var x := Input([field, other], map[field := one, other := one], [channel]);
    assert channel in x.channels && field in x.fields && other in x.fields;
    assert Names(x.channels) == {"a"} && Last(x.channels, "a") == channel;
    assert HasOwnValue(x, "a", model, other) && LacksValue(x, "a", model, field);
    ReportedExactIff(x, model, field);
  }

  /** The value "same" where there is no local one is a difference that is not reported. */
  lemma SameExample(field: string, model: string)
    ensures var x := Input([field], map[], [Channel("a", map[field := map[model := SAME]])]);
            RealDifference(x, model, field) && Expected(x, model, field).None?
  {
  }

  /** So is a value hidden by a later channel of the same name. */
  lemma DuplicateExample(field: string, model: string)
    ensures var x := Input([field], map[], [Channel("a", map[field := map[model := Flag(true)]]), Channel("a", map[])]);
            RealDifference(x, model, field) && Expected(x, model, field).None?
  {
  }
}
