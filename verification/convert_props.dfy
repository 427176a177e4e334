/** Properties of the value conversion that relate several calls. */
module ConvertProps {
  import opened Wrappers
  import opened Errors
  import opened Dtypes
  import opened Features
  import opened Defaults
  import opened Convert

  /** The entries of a dict whose key is one of `ks`, in order. */
  function Restrict(m: seq<Named<Value>>, ks: seq<string>): (r: seq<Named<Value>>)
    ensures forall k :: k in ks ==> Get(r, k) == Get(m, k)
  {
    if m == [] then []
    else if m[0].name in ks then [m[0]] + Restrict(m[1..], ks)
    else Restrict(m[1..], ks)
  }

  /** A record is converted from the values under the feature's keys alone. */
  lemma {:induction false} FieldsReadOnlyFeatureKeys(env: Env, m1: seq<Named<Value>>, m2: seq<Named<Value>>, fs: seq<Named<TFeature>>)
    requires forall i :: 0 <= i < |fs| ==> Get(m1, fs[i].name) == Get(m2, fs[i].name)
    ensures ConvertFields(env, m1, fs) == ConvertFields(env, m2, fs)
    decreases fs
  {
    if fs != [] {
      FieldsReadOnlyFeatureKeys(env, m1, m2, fs[1..]);
    }
  }

  /** Keys of a record value that the feature does not have are dropped: removing them
      first changes nothing. */
  lemma ExtraKeysDropped(env: Env, m: seq<Named<Value>>, fs: seq<Named<TFeature>>)
    ensures ConvertHfValue(env, VMap(m), TDict(fs)) == ConvertHfValue(env, VMap(Restrict(m, Keys(fs))), TDict(fs))
  {
    FieldsReadOnlyFeatureKeys(env, m, Restrict(m, Keys(fs)), fs);
  }

  /** Features without media leaves and with distinct keys in every dict. */
  predicate PlainFeature(f: TFeature)
    decreases f
  {
    match f
    case TDict(fs) => DistinctKeys(fs) && forall i :: 0 <= i < |fs| ==> PlainFeature(fs[i].item)
    case TSeq(inner) => PlainFeature(inner)
    case TImage(_) => false
    case TAudio(_) => false
    case _ => true
  }

  /** Converting a default again gives the same default: a record filled from `None`s is
      already in TFDS form. Media leaves are excluded: their integer sentinel is not an
      image or an audio dict, so converting it raises. */
  lemma {:induction false} DefaultIsFixedPoint(env: Env, f: TFeature)
    requires PlainFeature(f) && DefaultValue(f).Ok?
    ensures ConvertHfValue(env, DefaultValue(f).value, f) == DefaultValue(f)
    decreases f
  {
    match f
    case TDict(fs) =>
      var es := DefaultFields(fs).value;
      assert DistinctKeys(es) by {
        assert Keys(es) == Keys(fs);
        forall i, j | 0 <= i < j < |es| ensures es[i].name != es[j].name {
          assert Keys(es)[i] == Keys(fs)[i] && Keys(es)[j] == Keys(fs)[j];
        }
      }
      forall i | 0 <= i < |fs|
        ensures ConvertHfValue(env, Get(es, fs[i].name), fs[i].item) == Ok(es[i].item)
      {
        assert Keys(es)[i] == Keys(fs)[i];
        GetOwnKey(es, i);
        DefaultIsFixedPoint(env, fs[i].item);
      }
      var out := ConvertFields(env, es, fs).value;
      assert |out| == |es|;
      forall i | 0 <= i < |es| ensures out[i] == es[i] {
        assert Keys(out)[i] == Keys(fs)[i] == Keys(es)[i];
      }
      assert out == es;
    case TSeq(_) =>
    case _ =>
  }

  /** A value that is neither a list nor a dict is wrapped in a one-element list for a
      sequence feature WITHOUT being converted against the inner feature. */
  lemma BareValueWrappedUnconverted(env: Env, v: Value, inner: TFeature)
    requires v != VNone && !v.VDateTime? && !v.VMap? && !v.VList?
    ensures ConvertHfValue(env, v, TSeq(inner)) == Ok(VList([v]))
  {
  }

  /** ... so a string that a dict feature would reject is accepted as a sequence of dicts. */
  lemma BareValueSkipsInnerChecks(env: Env)
    ensures ConvertHfValue(env, VStr("x"), TDict([Named("a", TScalar(Int64))])).Err?
    ensures ConvertHfValue(env, VStr("x"), TSeq(TDict([Named("a", TScalar(Int64))]))) == Ok(VList([VStr("x")]))
  {
  }

  /** The three accepted shapes of a sequence of int64: a bare scalar, a list, and a
      dict of columns for a sequence of records. */
  lemma SequenceShapes(env: Env)
    ensures ConvertHfValue(env, VInt(5), TSeq(TScalar(Int64))) == Ok(VList([VInt(5)]))
    ensures ConvertHfValue(env, VList([VInt(1), VInt(2)]), TSeq(TScalar(Int64)))
         == Ok(VList([VInt(1), VInt(2)]))
    ensures ConvertHfValue(env, VMap([Named("f", VList([VInt(1), VInt(2)]))]),
                           TSeq(TDict([Named("f", TScalar(Int64))])))
         == Ok(VMap([Named("f", VList([VInt(1), VInt(2)]))]))
  {
    var items := [VInt(1), VInt(2)];
    var r := ConvertList(env, items, TScalar(Int64));
    assert ConvertHfValue(env, items[0], TScalar(Int64)) == Ok(items[0]);
    assert ConvertHfValue(env, items[1], TScalar(Int64)) == Ok(items[1]);
    assert r.Ok? && |r.value| == 2;
    assert r.value == items;
    var m := [Named("f", VList(items))];
    var fs := [Named("f", TScalar(Int64))];
    assert Get(m, "f") == VList(items);
    assert ConvertColumn(env, m, fs[0]) == Ok(VList(items));
    var cs := ConvertColumns(env, m, fs);
    assert fs[1..] == [];
    assert ConvertColumns(env, m, fs[1..]) == Ok([]);
    assert cs.Ok? && |cs.value| == 1 && cs.value[0] == Named("f", VList(items));
    assert cs.value == m;
  }

  /** A dict of columns for a sequence of sequences depends on how TFDS's `Sequence`
      answers `items()`, which is outside the model. */
  lemma NestedSequenceColumnsNotModelled(env: Env, m: seq<Named<Value>>, inner: TFeature)
    ensures ConvertHfValue(env, VMap(m), TSeq(TSeq(inner))).Err?
    ensures ConvertHfValue(env, VMap(m), TSeq(TSeq(inner))).error.NotModelled?
  {
  }

  /** A missing column of a columnar sequence raises instead of taking a default. */
  lemma MissingColumnRaises(env: Env, m: seq<Named<Value>>, fs: seq<Named<TFeature>>, i: nat)
    requires i < |fs| && fs[i].name !in Keys(m)
    ensures ConvertHfValue(env, VMap(m), TSeq(TDict(fs))).Err?
  {
  }
}
