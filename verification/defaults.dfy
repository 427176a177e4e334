/** Placeholder values for missing data (`huggingface_utils._get_default_value`). */
module Defaults {
  import opened Wrappers
  import opened Errors
  import opened Dtypes
  import opened Features
  import opened Schema

  /** `feature.np_dtype` of a leaf connector, with the dtypes TFDS gives `ClassLabel`
      (int64), `Image` (uint8) and `Audio` (int64) by default. Translations are
      `FeaturesDict`-like classes whose layout is not modelled, and have none here. */
  function LeafDtype(f: TFeature): Option<DType> {
    match f
    case TScalar(d) => Some(d)
    case TTensor(d) => Some(d)
    case TClassLabel(_) => Some(Int64)
    case TImage(_) => Some(UInt8)
    case TAudio(_) => Some(Int64)
    case _ => None
  }

  /** The sentinel for a leaf of the given dtype: empty bytes for strings, the least
      representable integer, the most negative finite float, `False`; no other dtype
      has one. */
  function DefaultForDtype(d: DType): (r: Result<Value, Error>)
    ensures d == StringType <==> r == Ok(VBytes([]))
    ensures d.IntType? ==> r.Ok? && r.value.VInt? && InRange(r.value.i, d.width, d.signed)
    ensures d.IntType? ==> forall i :: InRange(i, d.width, d.signed) ==> r.value.i <= i
    ensures d.IntType? && !d.signed ==> r == Ok(VInt(0))
    ensures d.FloatType? ==> r.Ok? && r.value.VFloat? && r.value.x < 0.0 && r.value.x == -FloatMax(d.fwidth)
    ensures d == BoolType <==> r == Ok(VBool(false))
    ensures d.OtherType? <==> r.Err?
    ensures r.Err? ==> r.error == NoDefaultValue
  {
    match d
    case StringType => Ok(VBytes([]))
    case IntType(w, signed) => Ok(VInt(IntMin(w, signed)))
    case FloatType(w) => Ok(VFloat(-FloatMax(w)))
    case BoolType => Ok(VBool(false))
    case OtherType(_) => Err(NoDefaultValue)
  }

  /** `_get_default_value`: a dict gets a default per field, a sequence the empty list,
      a leaf the sentinel of its dtype. */
  function DefaultValue(f: TFeature): (r: Result<Value, Error>)
    ensures f.TDict? && r.Ok? ==> r.value.VMap? && Keys(r.value.entries) == Keys(f.fields)
    ensures f.TSeq? ==> r == Ok(VList([]))
    decreases f
  {
    match f
    case TDict(fs) =>
      var es :- DefaultFields(fs);
      Ok(VMap(es))
    case TSeq(_) => Ok(VList([]))
    case TTranslation(_) => Err(NotModelled("default value of a Translation"))
    case TTransVar(_) => Err(NotModelled("default value of a TranslationVariableLanguages"))
    case _ => DefaultForDtype(LeafDtype(f).value)
  }

  /** The dict comprehension over a `FeaturesDict`: the same keys in the same order,
      each with its own feature's default; the first failing field's error otherwise. */
  function DefaultFields(fs: seq<Named<TFeature>>): (r: Result<seq<Named<Value>>, Error>)
    ensures r.Ok? <==> forall i :: 0 <= i < |fs| ==> DefaultValue(fs[i].item).Ok?
    ensures r.Ok? ==> Keys(r.value) == Keys(fs)
    ensures r.Ok? ==> forall i :: 0 <= i < |fs| ==> Ok(r.value[i].item) == DefaultValue(fs[i].item)
    ensures r.Err? ==> exists i :: 0 <= i < |fs| && DefaultValue(fs[i].item) == Err(r.error)
    decreases fs
  {
    if fs == [] then Ok([])
    else
      assert forall i :: 1 <= i < |fs| ==> fs[1..][i - 1] == fs[i];
      var v :- DefaultValue(fs[0].item);
      var rest :- DefaultFields(fs[1..]);
      var out := [Named(fs[0].name, v)] + rest;
      assert forall i :: 1 <= i < |fs| ==> out[i] == rest[i - 1];
      Ok(out)
  }

  /** The connectors that have a default: no translation anywhere and no leaf of an
      unclassified dtype. */
  predicate DefaultDefined(f: TFeature)
    decreases f
  {
    match f
    case TDict(fs) => forall i :: 0 <= i < |fs| ==> DefaultDefined(fs[i].item)
    case TSeq(_) => true
    case TTranslation(_) => false
    case TTransVar(_) => false
    case _ => !LeafDtype(f).value.OtherType?
  }

  lemma {:induction false} DefaultSucceedsIffDefined(f: TFeature)
    ensures DefaultValue(f).Ok? <==> DefaultDefined(f)
    decreases f
  {
    match f
    case TDict(fs) =>
      forall i | 0 <= i < |fs| {
        DefaultSucceedsIffDefined(fs[i].item);
      }
    case _ =>
  }

  /** The specs whose translation has a default, read off the spec and the dtype
      namespaces alone: a record when every field has one; any sequence or list (its
      default is `[]`); a value whose dtype name resolves to a classified type; a class
      label, an image or audio; never a translation. */
  predicate SpecHasDefault(ns: Namespaces, hf: HfFeature)
    decreases hf
  {
    match hf
    case FRecord(fs) => forall i :: 0 <= i < |fs| ==> SpecHasDefault(ns, fs[i].item)
    case FValue(dtype) => ConvertToNpDtype(ns, dtype).Ok? && !ConvertToNpDtype(ns, dtype).value.OtherType?
    case FTranslation(_) => false
    case FTransVar(_) => false
    case FOther(_) => false
    case _ => true
  }

  /** A translated schema can fill in a record of `None`s exactly when the spec says so:
      whatever numpy and `tf.dtypes` define, only a translation or a value of an
      unclassified dtype outside every sequence leaves a field without a default. */
  lemma {:induction false} TranslatedSchemaHasDefaults(ns: Namespaces, hf: HfFeature)
    requires ExtractFeatures(ns, hf).Ok?
    ensures DefaultValue(ExtractFeatures(ns, hf).value).Ok? <==> SpecHasDefault(ns, hf)
    decreases hf
  {
    var t := ExtractFeatures(ns, hf).value;
    DefaultSucceedsIffDefined(t);
    match hf
    case FRecord(fs) =>
      var ts := t.fields;
      assert |ts| == |Keys(ts)| == |Keys(fs)| == |fs|;
      forall i | 0 <= i < |fs|
        ensures DefaultDefined(ts[i].item) <==> SpecHasDefault(ns, fs[i].item)
      {
        assert Ok(ts[i].item) == ExtractFeatures(ns, fs[i].item);
        TranslatedSchemaHasDefaults(ns, fs[i].item);
        DefaultSucceedsIffDefined(ts[i].item);
      }
    case _ =>
  }
}
