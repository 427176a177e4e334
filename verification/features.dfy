/** The three trees the conversion works on: Hugging Face feature specs, TFDS feature
    connectors, and the loosely typed values of a record. */
module Features {
  import opened Wrappers
  import opened Dtypes

  /** One entry of an insertion-ordered Python dict with string keys. */
  datatype Named<T> = Named(name: string, item: T)

  /** The keys of an ordered dict, in order. */
  function Keys<T>(es: seq<Named<T>>): (ks: seq<string>)
    ensures |ks| == |es|
    ensures forall i :: 0 <= i < |es| ==> ks[i] == es[i].name
  {
    seq(|es|, i requires 0 <= i < |es| => es[i].name)
  }

  /** What every Python dict satisfies: no key twice. */
  predicate DistinctKeys<T>(es: seq<Named<T>>) {
    forall i, j :: 0 <= i < j < |es| ==> es[i].name != es[j].name
  }

  /** A Hugging Face `datasets` feature spec. */
  datatype HfFeature =
      /** `datasets.Features` or a plain `dict` */
    | FRecord(fields: seq<Named<HfFeature>>)
      /** `datasets.Sequence(feature)` */
    | FSeq(feature: HfFeature)
      /** a Python list used as a spec, `[feature]` meaning a sequence */
    | FList(elements: seq<HfFeature>)
      /** `datasets.Value(dtype)` */
    | FValue(dtype: string)
      /** `datasets.ClassLabel`: `names == []` stands for both `None` and the empty list */
    | FClassLabel(names: seq<string>, namesFile: Option<string>, numClasses: Option<int>)
    | FTranslation(languages: seq<string>)
    | FTransVar(varLanguages: Option<seq<string>>)
    | FImage(mode: Option<string>, decode: bool)
    | FAudio(samplingRate: Option<int>)
      /** any other `datasets` feature type (`Array2D`, ...), by class name */
    | FOther(kind: string)

  /** How a TFDS `ClassLabel` was given its labels. */
  datatype LabelSource = Names(names: seq<string>) | NamesFile(path: string) | NumClasses(count: int)

  /** A TFDS feature connector. */
  datatype TFeature =
    | TDict(fields: seq<Named<TFeature>>)
    | TSeq(feature: TFeature)
    | TScalar(dtype: DType)
    | TClassLabel(source: LabelSource)
    | TTranslation(languages: seq<string>)
    | TTransVar(varLanguages: Option<seq<string>>)
    | TImage(encoding: string)
    | TAudio(sampleRate: Option<int>)
    | TTensor(dtype: DType)

  /** A decoded PIL image; its pixels are never inspected. */
  datatype PilImage = PilImage(mode: string, width: nat, height: nat, pixels: seq<int>)

  /** A Python value as found in a Hugging Face record, or as produced for TFDS. */
  datatype Value =
    | VNone
    | VBool(b: bool)
    | VInt(i: int)
    | VFloat(x: real)
    | VStr(s: string)
    | VBytes(bytes: seq<bv8>)
      /** a `datetime.datetime`, by its POSIX `timestamp()` */
    | VDateTime(timestamp: real)
    | VList(items: seq<Value>)
    | VMap(entries: seq<Named<Value>>)
    | VImage(image: PilImage)
      /** an `epath.Path` */
    | VPath(path: string)

  /** `dict.get(key)`: the first entry stored under `key`, `None` when there is none. */
  function Get(es: seq<Named<Value>>, key: string): (v: Value)
    ensures key !in Keys(es) ==> v == VNone
    ensures forall i :: 0 <= i < |es| && es[i].name == key && (forall j :: 0 <= j < i ==> es[j].name != key) ==>
      v == es[i].item
  {
    if es == [] then VNone
    else if es[0].name == key then es[0].item
    else
      assert Keys(es) == [es[0].name] + Keys(es[1..]);
      assert forall i :: 1 <= i < |es| ==> es[1..][i - 1] == es[i];
      Get(es[1..], key)
  }

  /** In a dict without repeated keys every entry is found under its own key. */
  lemma GetOwnKey(es: seq<Named<Value>>, i: nat)
    requires DistinctKeys(es) && i < |es|
    ensures Get(es, es[i].name) == es[i].item
  {
  }

  /** Python truthiness: `None`, `False`, zero and the empty containers are false,
      everything else is true. */
  predicate Truthy(v: Value)
    ensures !Truthy(v) <==>
      || v == VNone || v == VBool(false) || v == VInt(0) || v == VFloat(0.0)
      || v == VStr([]) || v == VBytes([]) || v == VList([]) || v == VMap([])
  {
    match v
    case VNone => false
    case VBool(b) => b
    case VInt(i) => i != 0
    case VFloat(x) => x != 0.0
    case VStr(s) => s != []
    case VBytes(bs) => bs != []
    case VList(items) => items != []
    case VMap(es) => es != []
    case _ => true
  }

  /** What `for x in v` walks over, or `None` where Python raises "not iterable":
      a list its elements, a string its one-character strings, bytes their integers,
      a dict its keys. */
  function Iterate(v: Value): (r: Option<seq<Value>>)
    ensures v.VList? ==> r == Some(v.items)
    ensures r.Some? <==> v.VList? || v.VStr? || v.VBytes? || v.VMap?
    ensures r.Some? ==> (|r.value| == 0 <==> !Truthy(v))
  {
    match v
    case VList(items) => Some(items)
    case VStr(s) => Some(seq(|s|, i requires 0 <= i < |s| => VStr([s[i]])))
    case VBytes(bs) => Some(seq(|bs|, i requires 0 <= i < |bs| => VInt(bs[i] as int)))
    case VMap(es) => Some(seq(|es|, i requires 0 <= i < |es| => VStr(es[i].name)))
    case _ => None
  }
}
