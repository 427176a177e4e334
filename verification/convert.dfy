/** Rewriting one Hugging Face record against a TFDS feature tree
    (`huggingface_utils.convert_hf_value`). */
module Convert {
  import opened Wrappers
  import opened Errors
  import opened Dtypes
  import opened Features
  import opened Defaults

  /** The two effects the conversion calls out to: `epath.Path(p).exists()` and PIL's
      `image.convert('RGB')`. */
  datatype Env = Env(pathExists: string -> bool, toRgb: PilImage -> PilImage)

  /** Python's `int()` of a float: truncation toward zero. */
  function Trunc(x: real): (n: int)
    ensures 0.0 <= x ==> 0 <= n && n as real <= x < n as real + 1.0
    ensures x < 0.0 ==> n <= 0 && n as real - 1.0 < x <= n as real
  {
    if x >= 0.0 then x.Floor else -((-x).Floor)
  }

  /** The number a value stands for in `sample * rate`; `None` for values that are not
      numbers. The model treats every such product as a `TypeError`, although Python
      repeats a string sample and `int()` may then parse it. */
  function AsNumber(v: Value): Option<real> {
    match v
    case VInt(i) => Some(i as real)
    case VFloat(x) => Some(x)
    case VBool(b) => Some(if b then 1.0 else 0.0)
    case _ => None
  }

  /** `int(sample * sample_rate)` for a numeric sample. */
  function ScaleSample(sample: real, rate: int): (n: int)
    ensures var p := sample * rate as real;
      && (0.0 <= p ==> 0 <= n && n as real <= p < n as real + 1.0)
      && (p < 0.0 ==> n <= 0 && n as real - 1.0 < p <= n as real)
  {
    Trunc(sample * rate as real)
  }

  /** `[int(sample * feature.sample_rate) for sample in array]`. */
  function ScaleSamples(samples: seq<Value>, rate: Option<int>): (r: Result<seq<Value>, Error>)
    ensures r.Ok? <==> samples == [] || (rate.Some? && forall i :: 0 <= i < |samples| ==> AsNumber(samples[i]).Some?)
    ensures r.Ok? ==> |r.value| == |samples|
    ensures r.Ok? ==> forall i :: 0 <= i < |samples| ==>
      r.value[i] == VInt(ScaleSample(AsNumber(samples[i]).value, rate.value))
  {
    if samples == [] then Ok([])
    else if rate.None? || AsNumber(samples[0]).None? then Err(TypeError("sample * sample_rate"))
    else
      assert forall i :: 1 <= i < |samples| ==> samples[1..][i - 1] == samples[i];
      var rest :- ScaleSamples(samples[1..], rate);
      var out := [VInt(ScaleSample(AsNumber(samples[0]).value, rate.value))] + rest;
      assert forall i :: 1 <= i < |samples| ==> out[i] == rest[i - 1];
      Ok(out)
  }

  /** `convert_hf_value`. `None` becomes the feature's default and a datetime its whole
      seconds, whatever the feature; otherwise the feature kind decides. A dict feature
      without fields never calls `.get`, so it gives `{}` for any value. */
  function ConvertHfValue(env: Env, v: Value, f: TFeature): (r: Result<Value, Error>)
    ensures v == VNone ==> r == DefaultValue(f)
    ensures v.VDateTime? ==> r == Ok(VInt(Trunc(v.timestamp)))
    ensures v != VNone && !v.VDateTime? && (f.TScalar? || f.TClassLabel? || f.TTensor?) ==> r == Ok(v)
    ensures v != VNone && !v.VDateTime? && f == TDict([]) ==> r == Ok(VMap([]))
    ensures v != VNone && !v.VDateTime? && f.TDict? && f.fields != [] && !v.VMap? ==> r.Err?
    ensures v != VNone && !v.VDateTime? && f.TImage? ==>
      (r.Ok? <==> v.VImage?) && (r.Ok? ==> r.value == VImage(env.toRgb(v.image)))
    ensures f.TDict? && r.Ok? && v != VNone && !v.VDateTime? ==>
      r.value.VMap? && Keys(r.value.entries) == Keys(f.fields)
    decreases f, 0
  {
    if v == VNone then DefaultValue(f)
    else if v.VDateTime? then Ok(VInt(Trunc(v.timestamp)))
    else
      match f
      case TClassLabel(_) => Ok(v)
      case TScalar(_) => Ok(v)
      case TDict(fs) =>
        if fs == [] then Ok(VMap([]))
        else if !v.VMap? then Err(TypeError("get() on a value that is not a dict"))
        else
          var es :- ConvertFields(env, v.entries, fs);
          Ok(VMap(es))
      case TSeq(inner) =>
        (match v
         case VMap(entries) =>
           if inner.TDict? then
             var es :- ConvertColumns(env, entries, inner.fields);
             Ok(VMap(es))
           else if inner.TTranslation? || inner.TTransVar? then
             Err(NotModelled("columns of a translation"))
           else if inner.TSeq? then
             Err(NotModelled("columns of a nested sequence"))
           else Err(TypeError("items() on a feature that is not a dict"))
         case VList(items) =>
           var rs :- ConvertList(env, items, inner);
           Ok(VList(rs))
         case _ => Ok(VList([v])))
      case TAudio(rate) => ConvertAudio(env, v, rate)
      case TImage(_) =>
        if v.VImage? then Ok(VImage(env.toRgb(v.image)))
        else Err(TypeError("convert() on a value that is not an image"))
      case TTensor(_) => Ok(v)
      case TTranslation(_) => Err(NotModelled("value of a Translation"))
      case TTransVar(_) => Err(NotModelled("value of a TranslationVariableLanguages"))
  }

  /** The path a truthy `path` entry names, `None` where `epath.Path` would reject it. */
  function PathOf(v: Value): Option<string> {
    match v
    case VStr(s) => Some(s)
    case VPath(p) => Some(p)
    case _ => None
  }

  /** The audio case: a truthy `array` is scaled sample by sample; otherwise a truthy
      `path` that exists is returned as a path; otherwise the value is unsupported. */
  function ConvertAudio(env: Env, v: Value, rate: Option<int>): (r: Result<Value, Error>)
    ensures !v.VMap? ==> r.Err?
    ensures v.VMap? && Truthy(Get(v.entries, "array")) ==> r == AudioFromArray(Get(v.entries, "array"), rate)
    ensures v.VMap? && !Truthy(Get(v.entries, "array")) ==> r == AudioFromPath(env, Get(v.entries, "path"))
  {
    if !v.VMap? then Err(TypeError("get() on a value that is not a dict"))
    else
      var arrayEntry := Get(v.entries, "array");
      if Truthy(arrayEntry) then AudioFromArray(arrayEntry, rate)
      else AudioFromPath(env, Get(v.entries, "path"))
  }

  /** An in-memory sample array: each sample times the sampling rate, truncated toward
      zero, in order. */
  function AudioFromArray(arrayEntry: Value, rate: Option<int>): (r: Result<Value, Error>)
    ensures Iterate(arrayEntry).None? ==> r.Err?
    ensures Iterate(arrayEntry).Some? ==> (r.Ok? <==> ScaleSamples(Iterate(arrayEntry).value, rate).Ok?)
    ensures r.Ok? ==>
      var samples := Iterate(arrayEntry).value;
      && r.value.VList? && |r.value.items| == |samples| && (samples == [] || rate.Some?)
      && forall i :: 0 <= i < |samples| ==>
           (AsNumber(samples[i]).Some? &&
            r.value.items[i] == VInt(ScaleSample(AsNumber(samples[i]).value, rate.value)))
  {
    match Iterate(arrayEntry)
    case None => Err(TypeError("audio array is not iterable"))
    case Some(samples) =>
      var ints :- ScaleSamples(samples, rate);
      Ok(VList(ints))
  }

  /** No usable array: a truthy path that exists is returned as a path, a falsy or
      missing one is unsupported. */
  function AudioFromPath(env: Env, path: Value): (r: Result<Value, Error>)
    ensures r.Ok? <==> Truthy(path) && PathOf(path).Some? && env.pathExists(PathOf(path).value)
    ensures r.Ok? ==> r.value == VPath(PathOf(path).value)
    ensures !Truthy(path) ==> r == Err(UnsupportedConversion)
  {
    if !Truthy(path) then Err(UnsupportedConversion)
    else if PathOf(path).None? then Err(TypeError("path is not a string"))
    else if env.pathExists(PathOf(path).value) then Ok(VPath(PathOf(path).value))
    else Err(UnsupportedConversion)
  }

  /** The `FeaturesDict` case: one output entry per feature key, in feature order, each
      the conversion of `value.get(key)` (so `None`, hence the default, when the key is
      missing); keys of the value that are not feature keys are dropped. */
  function ConvertFields(env: Env, m: seq<Named<Value>>, fs: seq<Named<TFeature>>): (r: Result<seq<Named<Value>>, Error>)
    ensures r.Ok? <==> forall i :: 0 <= i < |fs| ==> ConvertHfValue(env, Get(m, fs[i].name), fs[i].item).Ok?
    ensures r.Ok? ==> |r.value| == |fs| && forall i :: 0 <= i < |fs| ==> r.value[i].name == fs[i].name
    ensures r.Ok? ==> forall i :: 0 <= i < |fs| ==>
      Ok(r.value[i].item) == ConvertHfValue(env, Get(m, fs[i].name), fs[i].item)
    ensures r.Ok? ==> forall i :: 0 <= i < |fs| && fs[i].name !in Keys(m) ==>
      Ok(r.value[i].item) == DefaultValue(fs[i].item)
    decreases fs
  {
    if fs == [] then Ok([])
    else
      var c :- ConvertHfValue(env, Get(m, fs[0].name), fs[0].item);
      var rest :- ConvertFields(env, m, fs[1..]);
      Ok([Named(fs[0].name, c)] + rest)
  }

  /** The list case of a `Sequence`: element-wise, same length, same order. */
  function ConvertList(env: Env, items: seq<Value>, f: TFeature): (r: Result<seq<Value>, Error>)
    ensures r.Ok? <==> forall i :: 0 <= i < |items| ==> ConvertHfValue(env, items[i], f).Ok?
    ensures r.Ok? ==> |r.value| == |items|
    ensures r.Ok? ==> forall i :: 0 <= i < |items| ==> Ok(r.value[i]) == ConvertHfValue(env, items[i], f)
    decreases f, 1, |items|
  {
    if items == [] then Ok([])
    else
      var c :- ConvertHfValue(env, items[0], f);
      var rest :- ConvertList(env, items[1..], f);
      Ok([c] + rest)
  }

  /** The columnar (dict of lists) case of a `Sequence` of a `FeaturesDict`: one column per
      field of the inner dict, in its order. */
  function ConvertColumns(env: Env, m: seq<Named<Value>>, fs: seq<Named<TFeature>>): (r: Result<seq<Named<Value>>, Error>)
    ensures r.Ok? <==> forall i :: 0 <= i < |fs| ==> ConvertColumn(env, m, fs[i]).Ok?
    ensures r.Ok? ==> |r.value| == |fs| && forall i :: 0 <= i < |fs| ==> r.value[i].name == fs[i].name
    ensures r.Ok? ==> forall i :: 0 <= i < |fs| ==> Ok(r.value[i].item) == ConvertColumn(env, m, fs[i])
    decreases fs
  {
    if fs == [] then Ok([])
    else
      var c :- ConvertColumn(env, m, fs[0]);
      var rest :- ConvertColumns(env, m, fs[1..]);
      Ok([Named(fs[0].name, c)] + rest)
  }

  /** One column `value.get(name)`, converted element-wise against the field's feature; a
      column that is missing (`None`) or not iterable raises instead of taking a default. */
  function ConvertColumn(env: Env, m: seq<Named<Value>>, field: Named<TFeature>): (r: Result<Value, Error>)
    ensures Iterate(Get(m, field.name)).None? ==> r.Err?
    ensures r.Ok? ==> r.value.VList? && ConvertList(env, Iterate(Get(m, field.name)).value, field.item) == Ok(r.value.items)
    decreases field
  {
    var column := Iterate(Get(m, field.name));
    if column.None? then Err(TypeError("column is missing or not iterable"))
    else
      var rs :- ConvertList(env, column.value, field.item);
      Ok(VList(rs))
  }
}
