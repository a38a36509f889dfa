/** Comparing local prices with upstream ones (controller/ratio_sync.go, lines 47-131 and 536-696).

`BuildDifferences` fills a table of differing cells, then finds the channels that differ anywhere,
then prunes the others. Prices are reals; JSON null is `Null`. */
module PriceDifferences {
  import opened Tolerance

  datatype Value = Null | Flt(f: real) | Int(i: int) | Text(s: string)

  /** field -> model -> value */
  type Table = map<string, map<string, Value>>

  datatype Channel = Channel(name: string, data: Table)

  datatype Item = Item(current: Value, upstreams: map<string, Value>, confidence: map<string, bool>)

  /** model -> field -> item */
  type Differences = map<string, map<string, Item>>

  const SAME := Text("same")

  const FIELDS: seq<string> :=
    ["model_ratio", "completion_ratio", "cache_ratio", "create_cache_ratio", "image_ratio", "audio_ratio",
     "audio_completion_ratio", "model_price", "billing_mode", "billing_expr"]

  predicate IsNumericField(field: string) { field in FIELDS[..8] }

  predicate ValuesEqual(a: Value, b: Value) {
    if a.Flt? && b.Flt? then NearlyEqual(a.f, b.f) else a == b
  }

  /** `asFloat64`, where it succeeds. */
  predicate IsNumber(v: Value) { v.Flt? || v.Int? }

  function AsFloat(v: Value): real
    requires IsNumber(v)
  {
    if v.Flt? then v.f else v.i as real
  }

  function NormalizeValue(field: string, v: Value): Value {
    if IsNumericField(field) && IsNumber(v) then Flt(AsFloat(v)) else v
  }

  function ValueMap(data: Table, field: string): map<string, Value> {
    if field in data then data[field] else map[]
  }

  // ---------------------------------------------------------------- one cell

  predicate Has(data: Table, model: string, field: string) { model in ValueMap(data, field) }

  /** The normalised value of a cell, `Null` when absent. */
  function Cell(data: Table, model: string, field: string): Value {
    if Has(data, model, field) then NormalizeValue(field, ValueMap(data, field)[model]) else Null
  }

  /** The simple question: does the channel hold a value that is not the local one? */
  predicate Differs(local: Table, c: Channel, model: string, field: string) {
    Has(c.data, model, field)
    && (Cell(local, model, field) == Null || !ValuesEqual(Cell(local, model, field), Cell(c.data, model, field)))
  }

  /** What a cell shows for a channel: "same", null or the channel's value. */
  function Shown(local: Table, c: Channel, model: string, field: string): Value {
    var lv, uv := Cell(local, model, field), Cell(c.data, model, field);
    if Has(c.data, model, field) then if ValuesEqual(lv, uv) then SAME else uv
    else if lv == Null then SAME
    else Null
  }

  /** A model ratio of 37.5 with a completion ratio of 1 marks an untrusted price. */
  predicate Confident(c: Channel, model: string) {
    var mr, cr := ValueMap(c.data, "model_ratio"), ValueMap(c.data, "completion_ratio");
    !(|mr| > 0 && |cr| > 0 && model in mr && model in cr && IsNumber(mr[model]) && IsNumber(cr[model])
      && NearlyEqual(AsFloat(mr[model]), 37.5) && NearlyEqual(AsFloat(cr[model]), 1.0))
  }

  predicate IsDifference(v: Value) { v != Null && v != SAME }

  /** The first pass keeps a cell when some channel disagrees, or, with no local value, has any value. */
  predicate Included(local: Table, channels: seq<Channel>, model: string, field: string) {
    exists c :: c in channels && Differs(local, c, model, field)
  }

  predicate DistinctNames(channels: seq<Channel>) {
    forall i, j :: 0 <= i < j < |channels| ==> channels[i].name != channels[j].name
  }

  /** Channel name -> what the cell shows; a later channel of the same name wins. */
  function ShownMap(local: Table, channels: seq<Channel>, model: string, field: string): map<string, Value> {
    if channels == [] then map[]
    else
      var n := |channels| - 1;
      ShownMap(local, channels[..n], model, field)[channels[n].name := Shown(local, channels[n], model, field)]
  }

  function TrustMap(channels: seq<Channel>, model: string): map<string, bool> {
    if channels == [] then map[]
    else
      var n := |channels| - 1;
      TrustMap(channels[..n], model)[channels[n].name := Confident(channels[n], model)]
  }

  function FirstItem(local: Table, channels: seq<Channel>, model: string, field: string): Item {
    Item(Cell(local, model, field), ShownMap(local, channels, model, field), TrustMap(channels, model))
  }

  /** A channel is the last one, or among those before it and of another name. */
  lemma LastOrBefore(channels: seq<Channel>, c: Channel)
    requires DistinctNames(channels) && c in channels
    ensures var n := |channels| - 1;
            channels[n] == c || (c in channels[..n] && channels[n].name != c.name && DistinctNames(channels[..n]))
  {
    var i :| 0 <= i < |channels| && channels[i] == c;
    if i < |channels| - 1 { assert channels[..|channels| - 1][i] == c; }
  }

  lemma {:induction false} ShownEntry(local: Table, channels: seq<Channel>, model: string, field: string, c: Channel)
    requires DistinctNames(channels) && c in channels
    ensures c.name in ShownMap(local, channels, model, field)
    ensures ShownMap(local, channels, model, field)[c.name] == Shown(local, c, model, field)
  {
    LastOrBefore(channels, c);
    if channels[|channels| - 1] != c { ShownEntry(local, channels[..|channels| - 1], model, field, c); }
  }

  lemma {:induction false} TrustEntry(channels: seq<Channel>, model: string, c: Channel)
    requires DistinctNames(channels) && c in channels
    ensures c.name in TrustMap(channels, model) && TrustMap(channels, model)[c.name] == Confident(c, model)
  {
    LastOrBefore(channels, c);
    if channels[|channels| - 1] != c { TrustEntry(channels[..|channels| - 1], model, c); }
  }

  lemma ShownMapEntry(local: Table, channels: seq<Channel>, model: string, field: string, c: Channel)
    requires DistinctNames(channels) && c in channels
    ensures c.name in ShownMap(local, channels, model, field)
    ensures ShownMap(local, channels, model, field)[c.name] == Shown(local, c, model, field)
    ensures c.name in TrustMap(channels, model) && TrustMap(channels, model)[c.name] == Confident(c, model)
  {
    ShownEntry(local, channels, model, field, c);
    TrustEntry(channels, model, c);
  }

  ghost predicate Named(channels: seq<Channel>, name: string) {
    exists c :: c in channels && c.name == name
  }

  lemma NamedSnoc(channels: seq<Channel>, name: string)
    requires channels != []
    ensures var n := |channels| - 1;
            Named(channels, name) <==> Named(channels[..n], name) || channels[n].name == name
  {
    var n := |channels| - 1;
    assert channels[n] in channels;
    if c :| c in channels && c.name == name {
      assert c == channels[n] || c in channels[..n];
    }
  }

  lemma {:induction false} ShownMapKeys(local: Table, channels: seq<Channel>, model: string, field: string, name: string)
    ensures name in ShownMap(local, channels, model, field) <==> Named(channels, name)
  {
    if channels != [] {
      ShownMapKeys(local, channels[..|channels| - 1], model, field, name);
      NamedSnoc(channels, name);
    }
  }

  lemma {:induction false} TrustMapKeys(channels: seq<Channel>, model: string, name: string)
    ensures name in TrustMap(channels, model) <==> Named(channels, name)
  {
    if channels != [] {
      TrustMapKeys(channels[..|channels| - 1], model, name);
      NamedSnoc(channels, name);
    }
  }

  /** The first pass, one channel of one cell: what is shown, and whether it counts. */
  method CompareChannel(local: Table, c: Channel, model: string, field: string)
    returns (upstream: Value, present: bool, differs: bool)
    ensures upstream == Shown(local, c, model, field)
    ensures present == Has(c.data, model, field)
    ensures Cell(local, model, field) != Null ==> (differs <==> Differs(local, c, model, field))
  {
    var localValue := Cell(local, model, field);
    upstream, present, differs := Null, false, false;
    if Has(c.data, model, field) {
      upstream := Cell(c.data, model, field);
      present := true;
      if localValue != Null && !ValuesEqual(localValue, upstream) {
        differs := true;
      } else if ValuesEqual(localValue, upstream) {
        upstream := SAME;
      }
    }
    if upstream == Null && localValue == Null {
      upstream := SAME;
    }
    if localValue == Null && upstream != Null && upstream != SAME {
      differs := true;
    }
  }

  // ---------------------------------------------------------------- which prices are trusted

  /** The preprocessing loop over models for one channel: all are trusted but those with the two telling ratios. */
  method RateChannel(c: Channel, models: set<string>) returns (trust: map<string, bool>)
    ensures forall m :: m in trust <==> m in models
    ensures forall m :: m in models ==> trust[m] == Confident(c, m)
  {
    trust := map[];
    var modelRatios, completionRatios := ValueMap(c.data, "model_ratio"), ValueMap(c.data, "completion_ratio");
    var left := models;
    while left != {}
      invariant left <= models
      invariant forall m :: m in trust <==> m in models && m !in left
      invariant forall m :: m in trust ==> trust[m] == Confident(c, m)
      decreases |left|
    {
      var model :| model in left;
      left := left - {model};
      trust := trust[model := true];
      if |modelRatios| > 0 && |completionRatios| > 0 {
        if model in modelRatios {
          if model in completionRatios {
            var modelRatio, completionRatio := modelRatios[model], completionRatios[model];
            if IsNumber(modelRatio) && IsNumber(completionRatio)
               && NearlyEqual(AsFloat(modelRatio), 37.5) && NearlyEqual(AsFloat(completionRatio), 1.0) {
              trust := trust[model := false];
            }
          }
        }
      }
    }
  }

  type Ratings = map<string, map<string, bool>>

  /** Every channel name is rated on every model, by the last channel of that name. */
  ghost predicate Rated(ratings: Ratings, channels: seq<Channel>, models: set<string>) {
    && (forall n :: n in ratings <==> Named(channels, n))
    && forall n, m :: n in ratings && m in models ==>
         m in ratings[n] && n in TrustMap(channels, m) && ratings[n][m] == TrustMap(channels, m)[n]
  }

  /** The preprocessing loop over channels. */
  method RateChannels(channels: seq<Channel>, models: set<string>) returns (ratings: Ratings)
    ensures Rated(ratings, channels, models)
  {
    ratings := map[];
    var i := 0;
    while i < |channels|
      invariant 0 <= i <= |channels|
      invariant Rated(ratings, channels[..i], models)
    {
      var trust := RateChannel(channels[i], models);
      RatedStep(ratings, channels, i, models, trust);
      ratings := ratings[channels[i].name := trust];
      i := i + 1;
    }
    assert channels[..i] == channels;
  }

  lemma RatedStep(ratings: Ratings, channels: seq<Channel>, i: nat, models: set<string>, trust: map<string, bool>)
    requires i < |channels| && Rated(ratings, channels[..i], models)
    requires forall m :: m in models ==> m in trust && trust[m] == Confident(channels[i], m)
    ensures Rated(ratings[channels[i].name := trust], channels[..i + 1], models)
  {
    var next := channels[..i + 1];
    assert next[..i] == channels[..i] && next[i] == channels[i] && |next| - 1 == i;
    forall n ensures Named(next, n) <==> Named(channels[..i], n) || channels[i].name == n { NamedSnoc(next, n); }
    forall m ensures TrustMap(next, m) == TrustMap(channels[..i], m)[channels[i].name := Confident(channels[i], m)] { }
  }

  /** The loop over channels for one model and field. */
  method CompareCell(local: Table, channels: seq<Channel>, model: string, field: string,
                     ratings: Ratings, ghost models: set<string>)
    returns (shouldInclude: bool, item: Item)
    requires Rated(ratings, channels, models) && model in models
    ensures shouldInclude == Included(local, channels, model, field)
    ensures item == FirstItem(local, channels, model, field)
  {
    var localValue := Cell(local, model, field);
    var upstreams: map<string, Value>, trust: map<string, bool> := map[], map[];
    var hasUpstream, hasDifference := false, false;
    var i := 0;
    while i < |channels|
      invariant 0 <= i <= |channels|
      invariant upstreams == ShownMap(local, channels[..i], model, field)
      invariant TrustSoFar(trust, channels, i, model)
      invariant localValue == Null ==> hasUpstream == Included(local, channels[..i], model, field)
      invariant localValue != Null ==> hasDifference == Included(local, channels[..i], model, field)
    {
      var upstream, present, differs := CompareChannel(local, channels[i], model, field);
      upstreams := upstreams[channels[i].name := upstream];
      IsNamed(channels, i);
      TrustNext(trust, channels, i, model, ratings, models);
      trust := trust[channels[i].name := ratings[channels[i].name][model]];
      hasUpstream, hasDifference := hasUpstream || present, hasDifference || differs;
      CellStep(local, channels, i, model, field);
      i := i + 1;
    }
    assert channels[..i] == channels;
    TrustDone(trust, channels, model);
    shouldInclude := if localValue != Null then hasDifference else hasUpstream;
    item := Item(localValue, upstreams, trust);
  }

  lemma IsNamed(channels: seq<Channel>, i: nat)
    requires i < |channels|
    ensures Named(channels, channels[i].name)
  {
    assert channels[i] in channels;
  }

  /** The marks of the first `i` channel names, each as the last channel of that name has it. */
  ghost predicate TrustSoFar(trust: map<string, bool>, channels: seq<Channel>, i: nat, model: string) {
    && i <= |channels|
    && (forall n :: n in trust <==> Named(channels[..i], n))
    && forall n :: n in trust ==> n in TrustMap(channels, model) && trust[n] == TrustMap(channels, model)[n]
  }

  lemma TrustNext(trust: map<string, bool>, channels: seq<Channel>, i: nat, model: string, ratings: Ratings, models: set<string>)
    requires i < |channels| && Rated(ratings, channels, models) && model in models && TrustSoFar(trust, channels, i, model)
    requires Named(channels, channels[i].name)
    ensures TrustSoFar(trust[channels[i].name := ratings[channels[i].name][model]], channels, i + 1, model)
  {
    var next := channels[..i + 1];
    assert next[..i] == channels[..i] && next[i] == channels[i] && |next| - 1 == i;
    forall n ensures Named(next, n) <==> Named(channels[..i], n) || channels[i].name == n { NamedSnoc(next, n); }
  }

  lemma TrustDone(trust: map<string, bool>, channels: seq<Channel>, model: string)
    requires TrustSoFar(trust, channels, |channels|, model)
    ensures trust == TrustMap(channels, model)
  {
    assert channels[..|channels|] == channels;
    forall n ensures n in trust <==> n in TrustMap(channels, model) { TrustMapKeys(channels, model, n); }
  }

  /** What one more channel adds to a cell. */
  lemma CellStep(local: Table, channels: seq<Channel>, i: nat, model: string, field: string)
    requires i < |channels|
    ensures ShownMap(local, channels[..i + 1], model, field)
            == ShownMap(local, channels[..i], model, field)[channels[i].name := Shown(local, channels[i], model, field)]
    ensures TrustMap(channels[..i + 1], model)
            == TrustMap(channels[..i], model)[channels[i].name := Confident(channels[i], model)]
    ensures Included(local, channels[..i + 1], model, field)
            <==> Included(local, channels[..i], model, field) || Differs(local, channels[i], model, field)
  {
    var next := channels[..i + 1];
    assert next[..i] == channels[..i] && next[i] == channels[i];
    IncludedStep(local, channels[..i], channels[i], model, field);
    assert next == channels[..i] + [channels[i]];
  }

  lemma IncludedStep(local: Table, channels: seq<Channel>, c: Channel, model: string, field: string)
    ensures Included(local, channels + [c], model, field)
            <==> Included(local, channels, model, field) || Differs(local, c, model, field)
  {
    if d :| d in channels + [c] && Differs(local, d, model, field) {
      assert d in channels || d == c;
    }
    if d :| d in channels && Differs(local, d, model, field) {
      assert d in channels + [c];
    }
    assert c in channels + [c];
  }

  // ---------------------------------------------------------------- the first pass

  /** One model's kept cells among `fields`. */
  function FirstRow(local: Table, channels: seq<Channel>, model: string, fields: seq<string>): map<string, Item> {
    map f | f in fields && Included(local, channels, model, f) :: FirstItem(local, channels, model, f)
  }

  function FirstPass(local: Table, channels: seq<Channel>, models: set<string>, fields: seq<string>): Differences {
    map m | m in models && FirstRow(local, channels, m, fields) != map[] :: FirstRow(local, channels, m, fields)
  }

  /** The loop over fields for one model. */
  method CompareModel(local: Table, channels: seq<Channel>, model: string, fields: seq<string>,
                      ratings: Ratings, ghost models: set<string>)
    returns (row: map<string, Item>)
    requires Rated(ratings, channels, models) && model in models
    ensures row == FirstRow(local, channels, model, fields)
  {
    row := map[];
    var k := 0;
    while k < |fields|
      invariant 0 <= k <= |fields|
      invariant row == RowUpTo(local, channels, model, fields, k)
    {
      var keep, item := CompareCell(local, channels, model, fields[k], ratings, models);
      if keep {
        row := row[fields[k] := item];
      }
      k := k + 1;
    }
    RowUpToIs(local, channels, model, fields, |fields|);
    assert fields[..|fields|] == fields;
  }

  /** The kept cells among the first `k` fields, one by one. */
  function RowUpTo(local: Table, channels: seq<Channel>, model: string, fields: seq<string>, k: nat): map<string, Item>
    requires k <= |fields|
  {
    if k == 0 then map[]
    else
      var row, f := RowUpTo(local, channels, model, fields, k - 1), fields[k - 1];
      if Included(local, channels, model, f) then row[f := FirstItem(local, channels, model, f)] else row
  }

  lemma {:induction false} RowUpToIs(local: Table, channels: seq<Channel>, model: string, fields: seq<string>, k: nat)
    requires k <= |fields|
    ensures RowUpTo(local, channels, model, fields, k) == FirstRow(local, channels, model, fields[..k])
  {
    if k > 0 {
      RowUpToIs(local, channels, model, fields, k - 1);
      FirstRowStep(local, channels, model, fields[..k - 1], fields[k - 1]);
      assert fields[..k] == fields[..k - 1] + [fields[k - 1]];
    }
  }

  /** One cell of the row for one more field. */
  lemma FirstRowKey(local: Table, channels: seq<Channel>, model: string, fields: seq<string>, f: string, g: string)
    ensures var row, next := FirstRow(local, channels, model, fields), FirstRow(local, channels, model, fields + [f]);
            && (g in next <==> g in row || (g == f && Included(local, channels, model, f)))
            && (g in next ==> next[g] == FirstItem(local, channels, model, g))
            && (g in row ==> row[g] == FirstItem(local, channels, model, g))
  {
  }

  lemma FirstRowStep(local: Table, channels: seq<Channel>, model: string, fields: seq<string>, f: string)
    ensures var row := FirstRow(local, channels, model, fields);
            FirstRow(local, channels, model, fields + [f])
            == if Included(local, channels, model, f) then row[f := FirstItem(local, channels, model, f)] else row
  {
    var row, next := FirstRow(local, channels, model, fields), FirstRow(local, channels, model, fields + [f]);
    forall g
      ensures g in next <==> g in row || (g == f && Included(local, channels, model, f))
      ensures g in next ==> next[g] == FirstItem(local, channels, model, g)
      ensures g in row ==> row[g] == FirstItem(local, channels, model, g)
    {
      FirstRowKey(local, channels, model, fields, f, g);
    }
  }

  /** The loop over models, in any order. */
  method CompareAll(local: Table, channels: seq<Channel>, models: set<string>, fields: seq<string>, ratings: Ratings)
    returns (differences: Differences)
    requires Rated(ratings, channels, models)
    ensures differences == FirstPass(local, channels, models, fields)
  {
    differences := map[];
    var left := models;
    while left != {}
      invariant left <= models
      invariant differences == FirstPass(local, channels, models - left, fields)
      decreases |left|
    {
      var model :| model in left;
      var row := CompareModel(local, channels, model, fields, ratings, models);
      if row != map[] {
        differences := differences[model := row];
      }
      FirstPassStep(local, channels, models - left, fields, model);
      assert models - (left - {model}) == (models - left) + {model};
      left := left - {model};
    }
    assert models - left == models;
  }

  lemma FirstPassStep(local: Table, channels: seq<Channel>, models: set<string>, fields: seq<string>, m: string)
    ensures var d, row := FirstPass(local, channels, models, fields), FirstRow(local, channels, m, fields);
            FirstPass(local, channels, models + {m}, fields) == if row != map[] then d[m := row] else d
  {
  }

  // ---------------------------------------------------------------- the second pass

  predicate MarksChannel(item: Item, name: string) {
    name in item.upstreams && IsDifference(item.upstreams[name])
  }

  /** Some cell shows a difference for this channel. */
  predicate Marked(differences: Differences, name: string) {
    exists m, f :: m in differences && f in differences[m] && MarksChannel(differences[m][f], name)
  }

  function MarkedSet(differences: Differences): (marked: set<string>)
    ensures forall n :: n in marked <==> Marked(differences, n)
  {
    set m, f, n | m in differences && f in differences[m] && n in differences[m][f].upstreams
                  && MarksChannel(differences[m][f], n) :: n
  }

  function ItemNames(item: Item): set<string> { set n | n in item.upstreams && IsDifference(item.upstreams[n]) }

  method FindMarked(differences: Differences) returns (marked: set<string>)
    ensures marked == MarkedSet(differences)
  {
    marked := {};
    var models := differences.Keys;
    while models != {}
      invariant models <= differences.Keys
      invariant forall n :: n in marked <==>
                  exists m, f :: m in differences.Keys - models && f in differences[m] && MarksChannel(differences[m][f], n)
      decreases |models|
    {
      var m :| m in models;
      var more := FindMarkedInRow(differences[m]);
      models := models - {m};
      marked := marked + more;
    }
    assert forall n :: n in marked <==> Marked(differences, n);
  }

  method FindMarkedInRow(row: map<string, Item>) returns (marked: set<string>)
    ensures forall n :: n in marked <==> exists f :: f in row && MarksChannel(row[f], n)
  {
    marked := {};
    var fields := row.Keys;
    while fields != {}
      invariant fields <= row.Keys
      invariant forall n :: n in marked <==> exists f :: f in row.Keys - fields && MarksChannel(row[f], n)
      decreases |fields|
    {
      var f :| f in fields;
      fields := fields - {f};
      marked := marked + ItemNames(row[f]);
    }
  }

  // ---------------------------------------------------------------- the third pass

  function PruneItem(item: Item, marked: set<string>): Item {
    item.(upstreams := map n | n in item.upstreams && n in marked :: item.upstreams[n],
          confidence := map n | n in item.confidence && n in marked :: item.confidence[n])
  }

  predicate WorthKeeping(item: Item) {
    exists n :: n in item.upstreams && item.upstreams[n] != SAME
  }

  function PruneRow(row: map<string, Item>, marked: set<string>): map<string, Item> {
    map f | f in row && WorthKeeping(PruneItem(row[f], marked)) :: PruneItem(row[f], marked)
  }

  function Prune(differences: Differences, marked: set<string>): Differences {
    map m | m in differences && PruneRow(differences[m], marked) != map[] :: PruneRow(differences[m], marked)
  }

  function Except<V>(entries: map<string, V>, marked: set<string>, todo: set<string>): map<string, V> {
    map n | n in entries && (n in marked || n in todo) :: entries[n]
  }

  /** Delete the channels without a difference from one cell. */
  method DropUnmarked(cell: Item, marked: set<string>) returns (item: Item)
    requires Aligned(cell)
    ensures item == PruneItem(cell, marked)
  {
    var upstreams, confidence := cell.upstreams, cell.confidence;
    var names := cell.upstreams.Keys;
    while names != {}
      invariant names <= cell.upstreams.Keys
      invariant upstreams == Except(cell.upstreams, marked, names)
      invariant confidence == Except(cell.confidence, marked, names)
      decreases |names|
    {
      var name :| name in names;
      if name !in marked {
        upstreams, confidence := upstreams - {name}, confidence - {name};
      }
      names := names - {name};
    }
    item := cell.(upstreams := upstreams, confidence := confidence);
  }

  /** Whether a cell has nothing but "same" left. */
  method AllSame(item: Item) returns (drop: bool)
    ensures drop == !WorthKeeping(item)
  {
    drop := true;
    var left := item.upstreams.Keys;
    while left != {}
      invariant left <= item.upstreams.Keys
      invariant drop
      invariant forall n :: n in item.upstreams && n !in left ==> item.upstreams[n] == SAME
      decreases |left|
    {
      var n :| n in left;
      left := left - {n};
      if item.upstreams[n] != SAME {
        return false;
      }
    }
  }

  /** The third pass over one model, with the fields in `todo` not yet visited. */
  function PruneRowExcept(row: map<string, Item>, marked: set<string>, todo: set<string>): map<string, Item> {
    map f | f in row && (f in todo || WorthKeeping(PruneItem(row[f], marked))) ::
      if f in todo then row[f] else PruneItem(row[f], marked)
  }

  lemma PruneRowStep(row: map<string, Item>, marked: set<string>, todo: set<string>, f: string)
    requires f in row && f in todo
    ensures var r, item := PruneRowExcept(row, marked, todo), PruneItem(row[f], marked);
            PruneRowExcept(row, marked, todo - {f}) == if WorthKeeping(item) then r[f := item] else r - {f}
  {
  }

  method PruneModel(cells: map<string, Item>, marked: set<string>) returns (row: map<string, Item>)
    requires forall f :: f in cells ==> Aligned(cells[f])
    ensures row == PruneRow(cells, marked)
  {
    row := cells;
    var fields := cells.Keys;
    while fields != {}
      invariant fields <= cells.Keys
      invariant row == PruneRowExcept(cells, marked, fields)
      decreases |fields|
    {
      var f :| f in fields;
      var item := DropUnmarked(cells[f], marked);
      var drop := AllSame(item);
      if drop {
        row := row - {f};
      } else {
        row := row[f := item];
      }
      PruneRowStep(cells, marked, fields, f);
      fields := fields - {f};
    }
  }

  function PrunedRows(found: Differences, marked: set<string>): Differences {
    map m | m in found :: PruneRow(found[m], marked)
  }

  /** The third pass, with the models in `todo` not yet visited; `rows` holds the pruned rows. */
  function PruneExcept(found: Differences, rows: Differences, todo: set<string>): Differences
    requires found.Keys == rows.Keys
  {
    map m | m in found && (m in todo || rows[m] != map[]) :: if m in todo then found[m] else rows[m]
  }

  lemma PruneStep(found: Differences, rows: Differences, todo: set<string>, m: string)
    requires found.Keys == rows.Keys && m in found && m in todo
    ensures var d := PruneExcept(found, rows, todo);
            PruneExcept(found, rows, todo - {m}) == if rows[m] != map[] then d[m := rows[m]] else d - {m}
  {
  }

  method PruneAll(found: Differences, marked: set<string>) returns (differences: Differences)
    requires forall m, f :: m in found && f in found[m] ==> Aligned(found[m][f])
    ensures differences == Prune(found, marked)
  {
    differences := found;
    var models := found.Keys;
    ghost var rows := PrunedRows(found, marked);
    while models != {}
      invariant models <= found.Keys
      invariant differences == PruneExcept(found, rows, models)
      decreases |models|
    {
      var m :| m in models;
      var row := PruneModel(found[m], marked);
      if row == map[] {
        differences := differences - {m};
      } else {
        differences := differences[m := row];
      }
      PruneStep(found, rows, models, m);
      models := models - {m};
    }
  }

  // ---------------------------------------------------------------- the whole

  /** Every model named by the local prices or by a channel. */
  function AllModels(local: Table, channels: seq<Channel>, fields: seq<string>): set<string> {
    (set f, m | f in fields && m in ValueMap(local, f) :: m)
    + (set c, f, m | c in channels && f in fields && m in ValueMap(c.data, f) :: m)
  }

  function Build(local: Table, channels: seq<Channel>, fields: seq<string>): Differences {
    var found := FirstPass(local, channels, AllModels(local, channels, fields), fields);
    Prune(found, MarkedSet(found))
  }

  predicate Aligned(item: Item) { item.upstreams.Keys == item.confidence.Keys }

  lemma FirstItemAligned(local: Table, channels: seq<Channel>, m: string, f: string)
    ensures Aligned(FirstItem(local, channels, m, f))
  {
    forall n ensures n in ShownMap(local, channels, m, f) <==> n in TrustMap(channels, m) {
      ShownMapKeys(local, channels, m, f, n);
      TrustMapKeys(channels, m, n);
    }
  }

  lemma FirstPassAligned(local: Table, channels: seq<Channel>, models: set<string>, fields: seq<string>)
    ensures var found := FirstPass(local, channels, models, fields);
            forall m, f :: m in found && f in found[m] ==> Aligned(found[m][f])
  {
    forall m, f ensures Aligned(FirstItem(local, channels, m, f)) { FirstItemAligned(local, channels, m, f); }
  }

  /** `buildDifferences`. */
  method BuildDifferences(local: Table, channels: seq<Channel>, fields: seq<string>) returns (differences: Differences)
    ensures differences == Build(local, channels, fields)
  {
    var models := CollectModels(local, channels, fields);
    var ratings := RateChannels(channels, models);
    differences := CompareAll(local, channels, models, fields, ratings);
    var marked := FindMarked(differences);
    FirstPassAligned(local, channels, models, fields);
    differences := PruneAll(differences, marked);
  }

  method CollectModels(local: Table, channels: seq<Channel>, fields: seq<string>) returns (models: set<string>)
    ensures models == AllModels(local, channels, fields)
  {
    models := {};
    var k := 0;
    while k < |fields|
      invariant 0 <= k <= |fields|
      invariant models == set f, m | f in fields[..k] && m in ValueMap(local, f) :: m
    {
      models := models + ValueMap(local, fields[k]).Keys;
      assert fields[..k + 1] == fields[..k] + [fields[k]];
      k := k + 1;
    }
    assert fields[..k] == fields;
    ghost var mine := models;
    var i := 0;
    while i < |channels|
      invariant 0 <= i <= |channels|
      invariant models == mine + set c, f, m | c in channels[..i] && f in fields && m in ValueMap(c.data, f) :: m
    {
      var more := ChannelModels(channels[i], fields);
      models := models + more;
      assert channels[..i + 1] == channels[..i] + [channels[i]];
      i := i + 1;
    }
    assert channels[..i] == channels;
  }

  method ChannelModels(c: Channel, fields: seq<string>) returns (models: set<string>)
    ensures models == set f, m | f in fields && m in ValueMap(c.data, f) :: m
  {
    models := {};
    var k := 0;
    while k < |fields|
      invariant 0 <= k <= |fields|
      invariant models == set f, m | f in fields[..k] && m in ValueMap(c.data, f) :: m
    {
      models := models + ValueMap(c.data, fields[k]).Keys;
      assert fields[..k + 1] == fields[..k] + [fields[k]];
      k := k + 1;
    }
    assert fields[..k] == fields;
  }

  // ---------------------------------------------------------------- what the report says

  predicate Reported(d: Differences, model: string, field: string) { model in d && field in d[model] }

  /** The channel shows a difference somewhere. */
  ghost predicate Active(local: Table, c: Channel, fields: seq<string>) {
    exists m, f :: f in fields && IsDifference(Shown(local, c, m, f))
  }

  lemma FirstPassHolds(local: Table, channels: seq<Channel>, models: set<string>, fields: seq<string>, m: string, f: string)
    ensures var found := FirstPass(local, channels, models, fields);
            && (Reported(found, m, f) <==> m in models && f in fields && Included(local, channels, m, f))
            && (Reported(found, m, f) ==> found[m][f] == FirstItem(local, channels, m, f))
  {
    var row := FirstRow(local, channels, m, fields);
    assert f in row <==> f in fields && Included(local, channels, m, f);
    assert f in row ==> row != map[];
  }

  lemma IncludedIsKnown(local: Table, channels: seq<Channel>, fields: seq<string>, m: string, f: string)
    requires f in fields && Included(local, channels, m, f)
    ensures m in AllModels(local, channels, fields)
  {
    var c :| c in channels && Differs(local, c, m, f);
    assert m in ValueMap(c.data, f);
  }

  lemma FirstPassCell(local: Table, channels: seq<Channel>, fields: seq<string>, m: string, f: string)
    ensures var found := FirstPass(local, channels, AllModels(local, channels, fields), fields);
            && (Reported(found, m, f) <==> f in fields && Included(local, channels, m, f))
            && (Reported(found, m, f) ==> found[m][f] == FirstItem(local, channels, m, f))
  {
    FirstPassHolds(local, channels, AllModels(local, channels, fields), fields, m, f);
    if f in fields && Included(local, channels, m, f) { IncludedIsKnown(local, channels, fields, m, f); }
  }

  lemma MarkedIffActive(local: Table, channels: seq<Channel>, fields: seq<string>, c: Channel)
    requires DistinctNames(channels) && c in channels
    ensures var found := FirstPass(local, channels, AllModels(local, channels, fields), fields);
            Marked(found, c.name) <==> Active(local, c, fields)
  {
    var found := FirstPass(local, channels, AllModels(local, channels, fields), fields);
    if Marked(found, c.name) {
      var m, f :| m in found && f in found[m] && MarksChannel(found[m][f], c.name);
      FirstPassCell(local, channels, fields, m, f);
      ShownMapEntry(local, channels, m, f, c);
    }
    if Active(local, c, fields) {
      var m, f :| f in fields && IsDifference(Shown(local, c, m, f));
      assert Differs(local, c, m, f);
      FirstPassCell(local, channels, fields, m, f);
      ShownMapEntry(local, channels, m, f, c);
      assert MarksChannel(found[m][f], c.name);
    }
  }

  lemma PruneHolds(found: Differences, marked: set<string>, m: string, f: string)
    ensures Reported(Prune(found, marked), m, f)
            <==> Reported(found, m, f) && WorthKeeping(PruneItem(found[m][f], marked))
    ensures Reported(Prune(found, marked), m, f) ==> Prune(found, marked)[m][f] == PruneItem(found[m][f], marked)
  {
    if m in found {
      var row := PruneRow(found[m], marked);
      assert f in row <==> f in found[m] && WorthKeeping(PruneItem(found[m][f], marked));
      assert f in row ==> row != map[];
    }
  }

  /** One reported cell holds the local value and, for exactly the channels that differ somewhere,
      "same", null or the channel's value together with its trust mark. */
  ghost predicate CellIsRight(local: Table, channels: seq<Channel>, fields: seq<string>, m: string, f: string, item: Item) {
    && item.current == Cell(local, m, f)
    && Aligned(item)
    && (forall n :: n in item.upstreams ==> exists c :: c in channels && c.name == n)
    && forall c :: c in channels ==>
         && (c.name in item.upstreams <==> Active(local, c, fields))
         && (c.name in item.upstreams ==> item.upstreams[c.name] == Shown(local, c, m, f))
         && (c.name in item.confidence ==> item.confidence[c.name] == Confident(c, m))
  }

  lemma PrunedItemIsRight(local: Table, channels: seq<Channel>, fields: seq<string>, m: string, f: string, marked: set<string>)
    requires DistinctNames(channels)
    requires forall c :: c in channels ==> (c.name in marked <==> Active(local, c, fields))
    ensures CellIsRight(local, channels, fields, m, f, PruneItem(FirstItem(local, channels, m, f), marked))
    ensures WorthKeeping(PruneItem(FirstItem(local, channels, m, f), marked))
            <==> exists c :: c in channels && Active(local, c, fields) && Shown(local, c, m, f) != SAME
  {
    var item := PruneItem(FirstItem(local, channels, m, f), marked);
    FirstItemAligned(local, channels, m, f);
    forall n ensures n in ShownMap(local, channels, m, f) <==> exists c :: c in channels && c.name == n {
      ShownMapKeys(local, channels, m, f, n);
    }
    forall c | c in channels
      ensures c.name in ShownMap(local, channels, m, f) && ShownMap(local, channels, m, f)[c.name] == Shown(local, c, m, f)
      ensures c.name in TrustMap(channels, m) && TrustMap(channels, m)[c.name] == Confident(c, m)
    {
      ShownMapEntry(local, channels, m, f, c);
    }
    if c :| c in channels && Active(local, c, fields) && Shown(local, c, m, f) != SAME {
      assert c.name in item.upstreams && item.upstreams[c.name] != SAME;
    }
  }

  /** The report, for any values at all: which cells it holds and what is in them. */
  lemma ReportIsRight(local: Table, channels: seq<Channel>, fields: seq<string>, m: string, f: string)
    requires DistinctNames(channels)
    ensures Reported(Build(local, channels, fields), m, f)
            <==> f in fields && Included(local, channels, m, f)
                 && exists c :: c in channels && Active(local, c, fields) && Shown(local, c, m, f) != SAME
    ensures Reported(Build(local, channels, fields), m, f) ==>
              CellIsRight(local, channels, fields, m, f, Build(local, channels, fields)[m][f])
  {
    var found := FirstPass(local, channels, AllModels(local, channels, fields), fields);
    var marked := MarkedSet(found);
    forall c | c in channels ensures c.name in marked <==> Active(local, c, fields) {
      MarkedIffActive(local, channels, fields, c);
    }
    PruneHolds(found, marked, m, f);
    FirstPassCell(local, channels, fields, m, f);
    PrunedItemIsRight(local, channels, fields, m, f, marked);
  }

  // ---------------------------------------------------------------- what a reported cell says

  /** The data hold a number for this model, less than a billionth away from `target`. */
  ghost predicate HoldsNear(data: Table, field: string, model: string, target: real) {
    && field in data && model in data[field]
    && exists x: real :: -0.000000001 < x - target < 0.000000001
                         && (data[field][model] == Flt(x) || exists n: int :: data[field][model] == Int(n) && n as real == x)
  }

  lemma NumberNearIff(v: Value, target: real)
    ensures IsNumber(v) && NearlyEqual(AsFloat(v), target)
            <==> exists x: real :: -0.000000001 < x - target < 0.000000001
                                   && (v == Flt(x) || exists n: int :: v == Int(n) && n as real == x)
  {
    if IsNumber(v) && NearlyEqual(AsFloat(v), target) {
      assert v == Flt(AsFloat(v)) || (v == Int(v.i) && v.i as real == AsFloat(v));
    }
  }

  lemma TrustedIff(c: Channel, model: string)
    ensures !Confident(c, model)
            <==> HoldsNear(c.data, "model_ratio", model, 37.5) && HoldsNear(c.data, "completion_ratio", model, 1.0)
  {
    var mr, cr := ValueMap(c.data, "model_ratio"), ValueMap(c.data, "completion_ratio");
    if model in mr { NumberNearIff(mr[model], 37.5); }
    if model in cr { NumberNearIff(cr[model], 1.0); }
  }

  /** The report has this cell, and it lists this channel. */
  predicate Listed(report: Differences, m: string, f: string, name: string) {
    Reported(report, m, f) && name in report[m][f].upstreams
  }

  /** In every reported cell a channel's price is marked untrusted exactly when its data hold, for that model, a model ratio
      of 37.5 and a completion ratio of 1, within the tolerance. */
  lemma TrustMarkIsRight(local: Table, channels: seq<Channel>, fields: seq<string>, m: string, f: string, c: Channel)
    requires DistinctNames(channels) && c in channels
    ensures Listed(Build(local, channels, fields), m, f, c.name) ==>
              && c.name in Build(local, channels, fields)[m][f].confidence
              && (!Build(local, channels, fields)[m][f].confidence[c.name]
                  <==> HoldsNear(c.data, "model_ratio", m, 37.5) && HoldsNear(c.data, "completion_ratio", m, 1.0))
  {
    ReportIsRight(local, channels, fields, m, f);
    TrustedIff(c, m);
  }

  /** The value on record in a field for a model, if there is one. */
  function OnRecord(data: Table, field: string, model: string): Value {
    if field in data && model in data[field] then data[field][model] else Null
  }

  /** Two values mean the same: numbers less than a billionth apart (in a text field only if both are floats), or equal. */
  predicate SameMeaning(field: string, a: Value, b: Value) {
    if (IsNumericField(field) && IsNumber(a) && IsNumber(b)) || (a.Flt? && b.Flt?)
    then -0.000000001 < AsFloat(a) - AsFloat(b) < 0.000000001
    else a == b
  }

  lemma EqualIffSameMeaning(field: string, a: Value, b: Value)
    ensures ValuesEqual(NormalizeValue(field, a), NormalizeValue(field, b)) <==> SameMeaning(field, a, b)
  {
  }

  /** What a reported cell says: the local value, and for each channel listed "same" when its value means the local one, or
      neither side has one; null when only the local side has a value; else the channel's value. */
  lemma CellSays(local: Table, channels: seq<Channel>, fields: seq<string>, m: string, f: string, c: Channel)
    requires DistinctNames(channels) && c in channels
    ensures Listed(Build(local, channels, fields), m, f, c.name) ==>
            var item := Build(local, channels, fields)[m][f];
            var mine, theirs := OnRecord(local, f, m), OnRecord(c.data, f, m);
            var listed := f in c.data && m in c.data[f];
            && item.current == NormalizeValue(f, mine)
            && item.upstreams[c.name]
               == if listed && !SameMeaning(f, mine, theirs) then NormalizeValue(f, theirs)
                  else if listed || mine == Null then Text("same")
                  else Null
  {
    ReportIsRight(local, channels, fields, m, f);
    EqualIffSameMeaning(f, OnRecord(local, f, m), OnRecord(c.data, f, m));
  }

  // ---------------------------------------------------------------- the simple specification

  /** Channel values that are neither null nor the literal text "same". */
  predicate PlainValues(channels: seq<Channel>, fields: seq<string>) {
    forall c, f :: c in channels && f in fields ==>
      forall m :: m in ValueMap(c.data, f) ==> IsDifference(ValueMap(c.data, f)[m])
  }

  lemma PlainDiffers(local: Table, channels: seq<Channel>, fields: seq<string>, c: Channel, m: string, f: string)
    requires PlainValues(channels, fields) && c in channels && f in fields
    ensures Differs(local, c, m, f) <==> IsDifference(Shown(local, c, m, f))
  {
    if Has(c.data, m, f) {
      assert IsDifference(ValueMap(c.data, f)[m]);
    }
  }

  /** On plain values the three passes report a cell exactly when some channel's value is not the local
      one, and each cell lists exactly the channels that differ from the local prices somewhere. */
  lemma ReportMeetsSimpleSpec(local: Table, channels: seq<Channel>, fields: seq<string>, m: string, f: string)
    requires DistinctNames(channels) && PlainValues(channels, fields)
    ensures Reported(Build(local, channels, fields), m, f)
            <==> f in fields && exists c :: c in channels && Differs(local, c, m, f)
    ensures Reported(Build(local, channels, fields), m, f) ==>
              forall c :: c in channels ==>
                (c.name in Build(local, channels, fields)[m][f].upstreams
                 <==> exists m', f' :: f' in fields && Differs(local, c, m', f'))
  {
    ReportIsRight(local, channels, fields, m, f);
    if f in fields && Included(local, channels, m, f) {
      var c :| c in channels && Differs(local, c, m, f);
      PlainDiffers(local, channels, fields, c, m, f);
      assert Active(local, c, fields);
    }
    forall c | c in channels
      ensures Active(local, c, fields) <==> exists m', f' :: f' in fields && Differs(local, c, m', f')
    {
      PlainActive(local, channels, fields, c);
    }
  }

  lemma PlainActive(local: Table, channels: seq<Channel>, fields: seq<string>, c: Channel)
    requires PlainValues(channels, fields) && c in channels
    ensures Active(local, c, fields) <==> exists m, f :: f in fields && Differs(local, c, m, f)
  {
    if Active(local, c, fields) {
      var m, f :| f in fields && IsDifference(Shown(local, c, m, f));
      PlainDiffers(local, channels, fields, c, m, f);
    }
    if m, f :| f in fields && Differs(local, c, m, f) {
      PlainDiffers(local, channels, fields, c, m, f);
    }
  }

  /** Whatever the other values are, one channel that differs with a value other than null and the text
      "same" is enough for its cell to be reported. */
  lemma PlainDifferenceIsReported(local: Table, channels: seq<Channel>, fields: seq<string>, c: Channel, m: string, f: string)
    requires DistinctNames(channels) && f in fields && c in channels
    requires Differs(local, c, m, f) && IsDifference(Cell(c.data, m, f))
    ensures Reported(Build(local, channels, fields), m, f)
  {
    ReportIsRight(local, channels, fields, m, f);
    assert Shown(local, c, m, f) == Cell(c.data, m, f);
    assert Active(local, c, fields);
  }

  /** A channel whose only price is the text "same" differs from the local value and is not reported. */
  lemma SameTextExample(local: Table, c: Channel, fields: seq<string>, m: string, f: string)
    requires f in fields && Cell(local, m, f) != Null && Cell(local, m, f) != SAME
    requires c.data == map[f := map[m := SAME]]
    ensures Differs(local, c, m, f) && !Reported(Build(local, [c], fields), m, f)
  {
    ReportIsRight(local, [c], fields, m, f);
    forall m', f' ensures !IsDifference(Shown(local, c, m', f')) {
      assert Has(c.data, m', f') ==> Cell(c.data, m', f') == SAME;
    }
  }
}
