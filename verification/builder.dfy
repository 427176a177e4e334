/** The dataset builder's own logic (`huggingface_dataset_builder`): finding the
    Hugging Face repository behind a TFDS name, the supervised keys, example
    generation (serial or through a worker pool) and the split generators. */
module Builder {
  import opened Wrappers
  import opened Errors
  import opened Dtypes
  import opened Features
  import opened Schema
  import opened Convert
  import opened Names
  import opened Streams

  /** `_from_tfds_to_hf`: the first listed Hugging Face name whose TFDS form equals the
      lower-cased TFDS name; `DatasetNotFoundError` when there is none. */
  method FromTfdsToHf(hfNames: seq<string>, tfdsName: string) returns (r: Result<string, Error>)
    ensures r.Ok? <==> exists i :: 0 <= i < |hfNames| && ConvertHfDatasetName(hfNames[i]) == Lower(tfdsName)
    ensures r.Ok? ==> exists i :: 0 <= i < |hfNames| && r.value == hfNames[i] &&
                                  ConvertHfDatasetName(hfNames[i]) == Lower(tfdsName) &&
                                  forall j :: 0 <= j < i ==> ConvertHfDatasetName(hfNames[j]) != Lower(tfdsName)
    ensures r.Err? ==> r.error == DatasetNotFound(tfdsName)
  {
    var target := Lower(tfdsName);
    var i := 0;
    while i < |hfNames|
      invariant 0 <= i <= |hfNames|
      invariant forall j :: 0 <= j < i ==> ConvertHfDatasetName(hfNames[j]) != target
    {
      if ConvertHfDatasetName(hfNames[i]) == target {
        return Ok(hfNames[i]);
      }
      i := i + 1;
    }
    return Err(DatasetNotFound(tfdsName));
  }

  /** A TFDS name is already lower case, so looking up the TFDS form of a listed
      Hugging Face name always finds a match. */
  lemma {:induction false} TfdsNameIsLowerCase(name: string)
    ensures Lower(ConvertHfDatasetName(name)) == ConvertHfDatasetName(name)
  {
    var t := ConvertHfDatasetName(name);
    forall i | 0 <= i < |t|
      ensures Lower(t)[i] == t[i]
    {
      assert !IsUpper(t[i]);
    }
  }

  /** `hf_info.supervised_keys`, with its two optional column names. */
  datatype SupervisedKeys = SupervisedKeys(input: Option<string>, output: Option<string>)

  /** `_extract_supervised_keys`: the `(input, output)` pair, only when the keys exist
      and both of their names are given. */
  function ExtractSupervisedKeys(keys: Option<SupervisedKeys>): (r: Option<(string, string)>)
    ensures r.Some? <==> keys.Some? && keys.value.input.Some? && keys.value.output.Some?
    ensures r.Some? ==> r.value.0 == keys.value.input.value && r.value.1 == keys.value.output.value
  {
    if keys.Some? && keys.value.input.Some? && keys.value.output.Some? then
      Some((keys.value.input.value, keys.value.output.value))
    else None
  }

  /** One generated example: its position in the split and the converted record. */
  datatype Example = Example(key: nat, value: Value)

  /** `convert_example`: `convert_hf_value` with the dataset's features bound. The
      ensures only exposes the closure to callers; it states no property of its own. */
  function ConvertExample(env: Env, f: TFeature): (convert: Value -> Result<Value, Error>)
    ensures forall v :: convert(v) == ConvertHfValue(env, v, f)
  {
    v => ConvertHfValue(env, v, f)
  }

  /** `e` is what `enumerate` pairs with the converted record at position `j`. */
  ghost predicate ConvertedAt(convert: Value -> Result<Value, Error>, data: seq<Value>, j: nat, e: Example) {
    j < |data| && convert(data[j]).Ok? && e == Example(j, convert(data[j]).value)
  }

  /** `enumerate(map(convert, data[i..]))`, keyed from `i`. */
  function EnumerateFrom(convert: Value -> Result<Value, Error>, data: seq<Value>, i: nat): (s: Stream<Example>)
    requires i <= |data|
    decreases |data| - i
    ensures |s.items| <= |data| - i
    ensures forall k :: 0 <= k < |s.items| ==> ConvertedAt(convert, data, i + k, s.items[k])
    ensures s.failure.None? <==> |s.items| == |data| - i
    ensures s.failure.Some? ==> convert(data[i + |s.items|]) == Err(s.failure.value)
  {
    if i == |data| then Stream([], None)
    else
      var converted := convert(data[i]);
      if converted.Err? then Stream([], Some(converted.error))
      else
        var rest := EnumerateFrom(convert, data, i + 1);
        var out := [Example(i, converted.value)] + rest.items;
        forall k | 0 <= k < |out|
          ensures ConvertedAt(convert, data, i + k, out[k])
        {
          if k > 0 {
            assert out[k] == rest.items[k - 1];
            assert i + k == (i + 1) + (k - 1);
          }
        }
        var s := Stream(out, rest.failure);
        assert s.items == out;
        s
  }

  /** What the serial branch of `_generate_examples` yields: the records converted in
      order and keyed by position, up to the first record that fails to convert, whose
      error the stream then raises. */
  ghost predicate Generates(convert: Value -> Result<Value, Error>, data: seq<Value>, s: Stream<Example>) {
    && |s.items| <= |data|
    && (forall k :: 0 <= k < |s.items| ==> ConvertedAt(convert, data, k, s.items[k]))
    && (s.failure.None? <==> |s.items| == |data|)
    && (s.failure.Some? ==> convert(data[|s.items|]) == Err(s.failure.value))
  }

  /** `enumerate(map(convert, data))`. */
  function GenerateExamples(convert: Value -> Result<Value, Error>, data: seq<Value>): (s: Stream<Example>)
    ensures Generates(convert, data, s)
  {
    EnumerateFrom(convert, data, 0)
  }

  /** The stream is fixed by which record fails first: any stream meeting that
      description is the serial one. */
  lemma GeneratedStreamUnique(convert: Value -> Result<Value, Error>, data: seq<Value>, s: Stream<Example>)
    requires Generates(convert, data, s)
    ensures s == GenerateExamples(convert, data)
  {
    var g := GenerateExamples(convert, data);
    assert |g.items| < |s.items| ==> ConvertedAt(convert, data, |g.items|, s.items[|g.items|]);
    assert |s.items| < |g.items| ==> ConvertedAt(convert, data, |s.items|, g.items[|s.items|]);
    assert g.items == s.items;
  }

  /** A permutation of the positions `0 .. n-1`. */
  predicate IsPermutation(order: seq<nat>, n: nat) {
    && |order| == n
    && (forall j :: 0 <= j < |order| ==> order[j] < n)
    && (forall i :: 0 <= i < n ==> i in order)
  }

  /** `enumerate(pool.imap(convert_example, data))` with `multiprocessing.Pool(processes)`.
      The workers finish the records in the order `completion`; `imap` still hands the
      results back in record order, re-raising a worker's exception at its record's
      position. The pool refuses fewer than one process, which the generator raises on
      its first `next`. */
  method PoolImap(convert: Value -> Result<Value, Error>, data: seq<Value>, processes: int, completion: seq<nat>)
      returns (s: Stream<Example>)
    requires IsPermutation(completion, |data|)
    ensures processes >= 1 ==> s == GenerateExamples(convert, data)
    ensures processes < 1 ==> s == Stream([], Some(PoolSize(processes)))
  {
    if processes < 1 {
      return Stream([], Some(PoolSize(processes)));
    }
    // the workers' results, by record position, as they arrive
    var done: map<nat, Result<Value, Error>> := map[];
    var j := 0;
    while j < |completion|
      invariant 0 <= j <= |completion|
      invariant forall p :: p in done ==> p < |data| && done[p] == convert(data[p])
      invariant forall k :: 0 <= k < j ==> completion[k] in done
    {
      var p := completion[j];
      done := done[p := convert(data[p])];
      j := j + 1;
    }
    forall i | 0 <= i < |data|
      ensures i in done
    {
      assert i in completion;
      var k :| 0 <= k < |completion| && completion[k] == i;
    }
    // results handed back in record order
    var items: seq<Example> := [];
    var i := 0;
    while i < |data| && done[i].Ok?
      invariant 0 <= i <= |data|
      invariant |items| == i
      invariant forall k :: 0 <= k < i ==> ConvertedAt(convert, data, k, items[k])
    {
      items := items + [Example(i, done[i].value)];
      i := i + 1;
    }
    s := Stream(items, if i < |data| then Some(done[i].error) else None);
    GeneratedStreamUnique(convert, data, s);
  }

  /** `multiprocessing.Pool` refuses fewer than one process. */
  predicate PoolRefused(tfdsNumProc: Option<int>) {
    tfdsNumProc.Some? && tfdsNumProc.value < 1
  }

  /** What `_generate_examples` yields for one split: the serial stream, unless the
      pool refuses its process count, which the generator raises on its first `next`
      whatever the data. */
  function SplitExamples(convert: Value -> Result<Value, Error>, data: seq<Value>, tfdsNumProc: Option<int>): (s: Stream<Example>)
    ensures !PoolRefused(tfdsNumProc) ==> Generates(convert, data, s)
    ensures PoolRefused(tfdsNumProc) ==> RaisesAtOnce(s) && s.failure.value == PoolSize(tfdsNumProc.value)
  {
    if PoolRefused(tfdsNumProc) then Stream([], Some(PoolSize(tfdsNumProc.value)))
    else GenerateExamples(convert, data)
  }

  /** `_generate_examples`: serial when no TFDS process count is configured, otherwise
      through a pool of that many processes; the two give the same stream. */
  method GenerateSplit(env: Env, f: TFeature, data: seq<Value>, tfdsNumProc: Option<int>, completion: seq<nat>)
      returns (s: Stream<Example>)
    requires IsPermutation(completion, |data|)
    ensures s == SplitExamples(ConvertExample(env, f), data, tfdsNumProc)
    ensures tfdsNumProc.None? ==> s == GenerateExamples(ConvertExample(env, f), data)
    ensures tfdsNumProc.Some? && tfdsNumProc.value >= 1 ==> s == GenerateExamples(ConvertExample(env, f), data)
  {
    if tfdsNumProc.None? {
      s := GenerateExamples(ConvertExample(env, f), data);
    } else {
      s := PoolImap(ConvertExample(env, f), data, tfdsNumProc.value, completion);
    }
  }

  /** A split's stream stops at once exactly when the pool is accepted and the split has
      no records, and raises at once exactly when the pool is refused or the first
      record fails to convert. */
  lemma FirstRecordDecides(convert: Value -> Result<Value, Error>, data: seq<Value>, tfdsNumProc: Option<int>)
    ensures SplitExamples(convert, data, tfdsNumProc) == Stream([], None) <==> !PoolRefused(tfdsNumProc) && data == []
    ensures RaisesAtOnce(SplitExamples(convert, data, tfdsNumProc)) <==>
      PoolRefused(tfdsNumProc) || (data != [] && convert(data[0]).Err?)
  {
  }

  /** Every split's data turned into its example stream, split order kept. */
  function Generated(convert: Value -> Result<Value, Error>, ds: seq<Named<seq<Value>>>, tfdsNumProc: Option<int>): (gs: seq<Named<Stream<Example>>>)
    ensures |gs| == |ds|
    ensures forall j :: 0 <= j < |ds| ==> gs[j] == Named(ds[j].name, SplitExamples(convert, ds[j].item, tfdsNumProc))
  {
    seq(|ds|, j requires 0 <= j < |ds| => Named(ds[j].name, SplitExamples(convert, ds[j].item, tfdsNumProc)))
  }

  /** `_split_generators` over the prepared splits `ds`: one example stream per split,
      then the empty splits removed. The whole call raises when the pool refuses its
      process count (and there is a split at all), or when some split's first record
      fails to convert. */
  function SplitGenerators(convert: Value -> Result<Value, Error>, ds: seq<Named<seq<Value>>>, tfdsNumProc: Option<int>): (r: Filtered<Example>)
    ensures r.outcome.Err? <==> (PoolRefused(tfdsNumProc) && ds != []) ||
                                exists j :: 0 <= j < |ds| && ds[j].item != [] && convert(ds[j].item[0]).Err?
    ensures r.outcome.Err? && PoolRefused(tfdsNumProc) ==> r.outcome.error == PoolSize(tfdsNumProc.value)
    ensures PoolRefused(tfdsNumProc) ==> r.warnings == []
  {
    var gs := Generated(convert, ds, tfdsNumProc);
    SplitsRaiseOnFirstRecord(convert, ds, tfdsNumProc);
    RemoveEmptySplits(gs)
  }

  lemma SplitsRaiseOnFirstRecord(convert: Value -> Result<Value, Error>, ds: seq<Named<seq<Value>>>, tfdsNumProc: Option<int>)
    ensures FirstRaising(Generated(convert, ds, tfdsNumProc)).Some? <==>
      (PoolRefused(tfdsNumProc) && ds != []) || exists j :: 0 <= j < |ds| && ds[j].item != [] && convert(ds[j].item[0]).Err?
  {
    var gs := Generated(convert, ds, tfdsNumProc);
    forall j | 0 <= j < |ds|
      ensures RaisesAtOnce(gs[j].item) <==> PoolRefused(tfdsNumProc) || (ds[j].item != [] && convert(ds[j].item[0]).Err?)
    {
      FirstRecordDecides(convert, ds[j].item, tfdsNumProc);
    }
    if PoolRefused(tfdsNumProc) && ds != [] {
      assert RaisesAtOnce(gs[0].item);
    }
  }

  /** Every split `_split_generators` keeps streams all the examples of a split with
      records. */
  lemma SplitGeneratorsKeepAllExamples(convert: Value -> Result<Value, Error>, ds: seq<Named<seq<Value>>>, tfdsNumProc: Option<int>)
    requires SplitGenerators(convert, ds, tfdsNumProc).outcome.Ok?
    ensures forall k :: 0 <= k < |SplitGenerators(convert, ds, tfdsNumProc).outcome.value| ==>
      var kept := SplitGenerators(convert, ds, tfdsNumProc).outcome.value[k];
      exists j :: 0 <= j < |ds| && ds[j].item != [] && kept.name == ds[j].name &&
                  ValidChain(kept.item) && Drain(kept.item) == GenerateExamples(convert, ds[j].item)
  {
    var gs := Generated(convert, ds, tfdsNumProc);
    var r := RemoveEmptySplits(gs);
    assert r == SplitGenerators(convert, ds, tfdsNumProc);
    var ne := NonEmptySplits(gs);
    forall k | 0 <= k < |r.outcome.value|
      ensures exists j :: 0 <= j < |ds| && ds[j].item != [] && r.outcome.value[k].name == ds[j].name &&
                          ValidChain(r.outcome.value[k].item) && Drain(r.outcome.value[k].item) == GenerateExamples(convert, ds[j].item)
    {
      var j :| 0 <= j < |gs| && ne[k] == gs[j] && gs[j].item.items != [];
      FirstRecordDecides(convert, ds[j].item, tfdsNumProc);
    }
  }

  /** The warning `w` names a split of `ds` without records. */
  ghost predicate WarnsAboutEmpty(w: string, ds: seq<Named<seq<Value>>>) {
    exists j :: 0 <= j < |ds| && ds[j].item == [] && w == EmptySplitWarning(ds[j].name)
  }

  /** Every warning `_split_generators` logs, whether or not the call then raises, names
      a split without records. */
  lemma SplitGeneratorsWarnOnlyEmpty(convert: Value -> Result<Value, Error>, ds: seq<Named<seq<Value>>>, tfdsNumProc: Option<int>)
    ensures forall k :: 0 <= k < |SplitGenerators(convert, ds, tfdsNumProc).warnings| ==>
      WarnsAboutEmpty(SplitGenerators(convert, ds, tfdsNumProc).warnings[k], ds)
  {
    var gs := Generated(convert, ds, tfdsNumProc);
    var ws := RemoveEmptySplits(gs).warnings;
    var examined := Examined(gs);
    var names := EmptySplitNames(examined);
    forall k | 0 <= k < |ws|
      ensures WarnsAboutEmpty(ws[k], ds)
    {
      assert ws[k] == EmptySplitWarning(names[k]);
      var j :| 0 <= j < |examined| && names[k] == examined[j].name && examined[j].item == Stream([], None);
      assert examined[j] == gs[j] == Named(ds[j].name, SplitExamples(convert, ds[j].item, tfdsNumProc));
      FirstRecordDecides(convert, ds[j].item, tfdsNumProc);
      assert ds[j].item == [] && ws[k] == EmptySplitWarning(ds[j].name);
    }
    assert ws == SplitGenerators(convert, ds, tfdsNumProc).warnings;
  }

  /** A split without records (say `train`) next to a split with one convertible record
      (say `test`): only the second is kept, streaming that record under key 0, and the
      one warning names the first. */
  lemma EmptySplitDroppedBesideFullOne(convert: Value -> Result<Value, Error>, empty: string, full: string, x: Value, tfdsNumProc: Option<int>)
    requires convert(x).Ok? && !PoolRefused(tfdsNumProc)
    ensures var r := SplitGenerators(convert, [Named(empty, []), Named(full, [x])], tfdsNumProc);
      && r.outcome.Ok?
      && |r.outcome.value| == 1
      && r.outcome.value[0].name == full
      && ValidChain(r.outcome.value[0].item)
      && Drain(r.outcome.value[0].item) == Stream([Example(0, convert(x).value)], None)
      && r.warnings == [EmptySplitWarning(empty)]
  {
    var ds := [Named(empty, []), Named(full, [x])];
    var stream := Stream([Example(0, convert(x).value)], None);
    GeneratedStreamUnique(convert, [x], stream);
    assert Generated(convert, ds, tfdsNumProc) == [Named(empty, Stream([], None)), Named(full, stream)];
    EmptyThenNonEmpty(empty, full, stream);
    assert stream.items[1..] == [];
  }

  /** `{"id": Value("int64"), "label": ClassLabel(names=..)}` becomes a TFDS dict of an
      int64 scalar and a class label with those names. */
  lemma IdAndLabelFeatures(ns: Namespaces, names: seq<string>)
    requires "int64" in ns.numpy && ns.numpy["int64"] == Int64
    requires names != []
    ensures ExtractFeatures(ns, FRecord([Named("id", FValue("int64")), Named("label", FClassLabel(names, None, None))]))
         == Ok(TDict([Named("id", TScalar(Int64)), Named("label", TClassLabel(Names(names)))]))
  {
    var hf := FRecord([Named("id", FValue("int64")), Named("label", FClassLabel(names, None, None))]);
    var tf := TDict([Named("id", TScalar(Int64)), Named("label", TClassLabel(Names(names)))]);
    assert "int64" !in HfDtypeToNpDtype;
    assert ConvertToNpDtype(ns, "int64") == Ok(Int64);
    var ts := ExtractFields(ns, hf.fields);
    assert ExtractFeatures(ns, hf.fields[0].item) == Ok(tf.fields[0].item);
    assert ExtractFeatures(ns, hf.fields[1].item) == Ok(tf.fields[1].item);
    assert ts.value == tf.fields by {
      assert Keys(ts.value) == Keys(hf.fields);
      assert ts.value[0].name == Keys(ts.value)[0];
      assert ts.value[1].name == Keys(ts.value)[1];
    }
  }

  /** A record of that dataset is generated unchanged under key 0. */
  lemma IdAndLabelRecord(env: Env, names: seq<string>, id: int, className: string)
    ensures var tf := TDict([Named("id", TScalar(Int64)), Named("label", TClassLabel(Names(names)))]);
            var record := VMap([Named("id", VInt(id)), Named("label", VStr(className))]);
      GenerateExamples(ConvertExample(env, tf), [record]) == Stream([Example(0, record)], None)
  {
    var tf := TDict([Named("id", TScalar(Int64)), Named("label", TClassLabel(Names(names)))]);
    var record := VMap([Named("id", VInt(id)), Named("label", VStr(className))]);
    var es := ConvertFields(env, record.entries, tf.fields);
    assert Get(record.entries, "id") == VInt(id);
    assert Get(record.entries, "label") == VStr(className);
    assert es.value == record.entries;
    GeneratedStreamUnique(ConvertExample(env, tf), [record], Stream([Example(0, record)], None));
  }
}
