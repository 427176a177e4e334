/** Translation of a Hugging Face feature spec into a TFDS feature connector
    (`huggingface_dataset_builder.extract_features`). */
module Schema {
  import opened Wrappers
  import opened Errors
  import opened Dtypes
  import opened Features

  /** `_IMAGE_ENCODING_FORMAT` */
  const ImageEncodingFormat: string := "png"

  /** Python truthiness of `ClassLabel.names_file` and `ClassLabel.num_classes`. */
  predicate FileGiven(file: Option<string>) {
    file.Some? && file.value != ""
  }

  predicate CountGiven(count: Option<int>) {
    count.Some? && count.value != 0
  }

  /** `extract_features`: one case per Hugging Face feature class, tried in the source's
      order; a `ClassLabel` with no truthy source and every unknown class end in the
      "not supported" error. */
  function ExtractFeatures(ns: Namespaces, f: HfFeature): (r: Result<TFeature, Error>)
    ensures r.Err? ==> r.error.ListLength? || r.error.UnsupportedFeature? || r.error.UnrecognizedDtype?
    ensures f.FRecord? && r.Ok? ==> r.value.TDict? && |r.value.fields| == |f.fields|
    ensures (f.FSeq? || f.FList?) && r.Ok? ==> r.value.TSeq?
    decreases f
  {
    match f
    case FRecord(fields) =>
      var ts :- ExtractFields(ns, fields);
      Ok(TDict(ts))
    case FSeq(inner) =>
      var t :- ExtractFeatures(ns, inner);
      Ok(TSeq(t))
    case FList(elements) =>
      if |elements| != 1 then Err(ListLength(|elements|))
      else
        var t :- ExtractFeatures(ns, elements[0]);
        Ok(TSeq(t))
    case FValue(dtype) =>
      var d :- ConvertToNpDtype(ns, dtype);
      Ok(TScalar(d))
    case FClassLabel(names, namesFile, numClasses) =>
      if names != [] then Ok(TClassLabel(Names(names)))
      else if FileGiven(namesFile) then Ok(TClassLabel(NamesFile(namesFile.value)))
      else if CountGiven(numClasses) then Ok(TClassLabel(NumClasses(numClasses.value)))
      else Err(UnsupportedFeature("ClassLabel"))
    case FTranslation(languages) => Ok(TTranslation(languages))
    case FTransVar(languages) => Ok(TTransVar(languages))
    case FImage(_, _) => Ok(TImage(ImageEncodingFormat))
    case FAudio(rate) => Ok(TAudio(rate))
    case FOther(kind) => Err(UnsupportedFeature(kind))
  }

  /** The dict comprehension over a record's fields: children are translated in field
      order, the first failure is the one raised, and on success the names and their
      order are kept and every child is its own translation. */
  function ExtractFields(ns: Namespaces, fs: seq<Named<HfFeature>>): (r: Result<seq<Named<TFeature>>, Error>)
    ensures r.Ok? <==> forall i :: 0 <= i < |fs| ==> ExtractFeatures(ns, fs[i].item).Ok?
    ensures r.Ok? ==> Keys(r.value) == Keys(fs)
    ensures r.Ok? ==> forall i :: 0 <= i < |fs| ==> Ok(r.value[i].item) == ExtractFeatures(ns, fs[i].item)
    ensures r.Err? ==> exists i :: 0 <= i < |fs| && ExtractFeatures(ns, fs[i].item) == Err(r.error) &&
                                   forall j :: 0 <= j < i ==> ExtractFeatures(ns, fs[j].item).Ok?
    decreases fs
  {
    if fs == [] then Ok([])
    else
      assert forall i :: 1 <= i < |fs| ==> fs[1..][i - 1] == fs[i];
      var t :- ExtractFeatures(ns, fs[0].item);
      var rest :- ExtractFields(ns, fs[1..]);
      var out := [Named(fs[0].name, t)] + rest;
      assert forall i :: 1 <= i < |fs| ==> out[i] == rest[i - 1];
      Ok(out)
  }

  /** The shape correspondence between a spec and a connector, node by node: records
      map to dicts with the same field names in the same order, sequences (explicit
      or one-element lists) to sequences, each leaf kind to its own kind. */
  predicate Corresponds(hf: HfFeature, t: TFeature)
    decreases hf
  {
    match hf
    case FRecord(fs) => t.TDict? && FieldsCorrespond(fs, t.fields)
    case FSeq(inner) => t.TSeq? && Corresponds(inner, t.feature)
    case FList(es) => |es| == 1 && t.TSeq? && Corresponds(es[0], t.feature)
    case FValue(_) => t.TScalar?
    case FClassLabel(_, _, _) => t.TClassLabel?
    case FTranslation(languages) => t == TTranslation(languages)
    case FTransVar(languages) => t == TTransVar(languages)
    case FImage(_, _) => t.TImage?
    case FAudio(rate) => t == TAudio(rate)
    case FOther(_) => false
  }

  predicate FieldsCorrespond(fs: seq<Named<HfFeature>>, ts: seq<Named<TFeature>>)
    decreases fs
  {
    && |fs| == |ts|
    && forall i :: 0 <= i < |fs| ==> fs[i].name == ts[i].name && Corresponds(fs[i].item, ts[i].item)
  }

  /** Whether a spec can be translated, stated without running the translation: every
      dtype name resolves, every list has one element, every `ClassLabel` has a truthy
      source, and no node is of an unknown class. */
  predicate Translatable(ns: Namespaces, hf: HfFeature)
    decreases hf
  {
    match hf
    case FRecord(fs) => forall i :: 0 <= i < |fs| ==> Translatable(ns, fs[i].item)
    case FSeq(inner) => Translatable(ns, inner)
    case FList(es) => |es| == 1 && Translatable(ns, es[0])
    case FValue(dtype) => ConvertToNpDtype(ns, dtype).Ok?
    case FClassLabel(names, namesFile, numClasses) =>
      names != [] || FileGiven(namesFile) || CountGiven(numClasses)
    case FOther(_) => false
    case _ => true
  }

  /** Every successful translation is a structural homomorphism of the spec. */
  lemma {:induction false} TranslationIsHomomorphic(ns: Namespaces, hf: HfFeature)
    requires ExtractFeatures(ns, hf).Ok?
    ensures Corresponds(hf, ExtractFeatures(ns, hf).value)
    decreases hf
  {
    match hf
    case FRecord(fs) =>
      forall i | 0 <= i < |fs| {
        TranslationIsHomomorphic(ns, fs[i].item);
      }
    case FSeq(inner) =>
      TranslationIsHomomorphic(ns, inner);
    case FList(es) =>
      TranslationIsHomomorphic(ns, es[0]);
    case _ =>
  }

  /** The translation fails exactly on the specs that are not `Translatable`. */
  lemma {:induction false} TranslationSucceedsIffTranslatable(ns: Namespaces, hf: HfFeature)
    ensures ExtractFeatures(ns, hf).Ok? <==> Translatable(ns, hf)
    decreases hf
  {
    match hf
    case FRecord(fs) =>
      forall i | 0 <= i < |fs| {
        TranslationSucceedsIffTranslatable(ns, fs[i].item);
      }
    case FSeq(inner) =>
      TranslationSucceedsIffTranslatable(ns, inner);
    case FList(es) =>
      if |es| == 1 {
        TranslationSucceedsIffTranslatable(ns, es[0]);
      }
    case _ =>
  }

  /** A one-element list spec is an explicit `Sequence` of its element; a list of any
      other length is rejected. */
  lemma ListIsSequence(ns: Namespaces, es: seq<HfFeature>)
    ensures |es| == 1 ==> ExtractFeatures(ns, FList(es)) == ExtractFeatures(ns, FSeq(es[0]))
    ensures |es| != 1 ==> ExtractFeatures(ns, FList(es)) == Err(ListLength(|es|))
  {
  }

  /** A `ClassLabel` takes the first truthy source among `names`, `names_file` and
      `num_classes`, and is unsupported when none is truthy. */
  lemma ClassLabelPrecedence(ns: Namespaces, names: seq<string>, namesFile: Option<string>, numClasses: Option<int>)
    ensures var r := ExtractFeatures(ns, FClassLabel(names, namesFile, numClasses));
      && (r.Ok? <==> names != [] || FileGiven(namesFile) || CountGiven(numClasses))
      && (names != [] ==> r == Ok(TClassLabel(Names(names))))
      && (names == [] && FileGiven(namesFile) ==> r == Ok(TClassLabel(NamesFile(namesFile.value))))
      && (names == [] && !FileGiven(namesFile) && CountGiven(numClasses) ==>
            r == Ok(TClassLabel(NumClasses(numClasses.value))))
      && (r.Err? ==> r.error == UnsupportedFeature("ClassLabel"))
  {
  }

  /** Leaves: an image is png-encoded whatever its mode or decoding, audio keeps the
      sampling rate, a value becomes a scalar of its resolved dtype (or fails with the
      resolver), unknown classes are unsupported. */
  lemma LeafTranslations(ns: Namespaces, hf: HfFeature)
    ensures hf.FImage? ==> ExtractFeatures(ns, hf) == Ok(TImage("png"))
    ensures hf.FAudio? ==> ExtractFeatures(ns, hf) == Ok(TAudio(hf.samplingRate))
    ensures hf.FValue? && ConvertToNpDtype(ns, hf.dtype).Ok? ==>
      ExtractFeatures(ns, hf) == Ok(TScalar(ConvertToNpDtype(ns, hf.dtype).value))
    ensures hf.FValue? && ConvertToNpDtype(ns, hf.dtype).Err? ==>
      ExtractFeatures(ns, hf) == Err(UnrecognizedDtype(hf.dtype))
    ensures hf.FOther? ==> ExtractFeatures(ns, hf) == Err(UnsupportedFeature(hf.kind))
  {
  }
}
