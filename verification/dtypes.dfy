/** Element types of TFDS features and the resolution of a Hugging Face dtype name
    (`huggingface_utils.convert_to_np_dtype`). */
module Dtypes {
  import opened Wrappers
  import opened Errors

  datatype IntWidth = W8 | W16 | W32 | W64

  /** Widths for which `finfo` is defined; `BF16` is the `bfloat16` that `tf.dtypes` offers. */
  datatype FloatWidth = F16 | BF16 | F32 | F64

  /** A numpy / TensorFlow element type, classified the way `dtype_utils.is_string`,
      `is_integer`, `is_floating` and `is_bool` classify it. */
  datatype DType =
    | BoolType
    | IntType(width: IntWidth, signed: bool)
    | FloatType(fwidth: FloatWidth)
      /** `np.object_`, `np.str_`, `np.bytes_` and `tf.string` */
    | StringType
      /** every other type (complex, datetime64, ...), named */
    | OtherType(name: string)

  const Int64: DType := IntType(W64, true)
  const UInt8: DType := IntType(W8, false)

  /** The attributes of the `numpy` and `tf.dtypes` namespaces that name a type:
      `hasattr(np, n)` is `n in numpy`, `getattr(np, n)` is `numpy[n]`. */
  datatype Namespaces = Namespaces(numpy: map<string, DType>, tfDtypes: map<string, DType>)

  /** `_HF_DTYPE_TO_NP_DTYPE`: the names numpy does not spell the Hugging Face way. */
  const HfDtypeToNpDtype: map<string, DType> := map[
    "bool" := BoolType,
    "float" := FloatType(F32),
    "double" := FloatType(F64),
    "large_string" := StringType,
    "utf8" := StringType,
    "string" := StringType
  ]

  /** Resolves a Hugging Face dtype name: the alias table, then a numpy attribute, then a
      `timestamp...` name (seconds since the epoch, so `int64`), then a `tf.dtypes`
      attribute; anything else is unrecognized. */
  function ConvertToNpDtype(ns: Namespaces, hfDtype: string): (r: Result<DType, Error>)
    ensures r.Ok? <==>
      || hfDtype in HfDtypeToNpDtype
      || hfDtype in ns.numpy
      || "timestamp" <= hfDtype
      || hfDtype in ns.tfDtypes
    ensures r.Err? ==> r.error == UnrecognizedDtype(hfDtype)
    ensures r.Ok? ==>
      || r.value in HfDtypeToNpDtype.Values
      || r.value in ns.numpy.Values
      || r.value == Int64
      || r.value in ns.tfDtypes.Values
  {
    if hfDtype in HfDtypeToNpDtype then Ok(HfDtypeToNpDtype[hfDtype])
    else if hfDtype in ns.numpy then Ok(ns.numpy[hfDtype])
    else if "timestamp" <= hfDtype then Ok(Int64)
    else if hfDtype in ns.tfDtypes then Ok(ns.tfDtypes[hfDtype])
    else Err(UnrecognizedDtype(hfDtype))
  }

  /** A name in the alias table resolves through the table whatever the numpy and
      TensorFlow namespaces hold. */
  lemma AliasTableFirst(ns: Namespaces, hfDtype: string)
    requires hfDtype in HfDtypeToNpDtype
    ensures ConvertToNpDtype(ns, hfDtype) == Ok(HfDtypeToNpDtype[hfDtype])
  {
  }

  /** A numpy attribute shadows both the timestamp rule and `tf.dtypes`. */
  lemma NumpyBeforeTimestampAndTf(ns: Namespaces, hfDtype: string)
    requires hfDtype !in HfDtypeToNpDtype && hfDtype in ns.numpy
    ensures ConvertToNpDtype(ns, hfDtype) == Ok(ns.numpy[hfDtype])
  {
  }

  /** No alias starts with "timestamp", so a timestamp name that numpy does not define
      always resolves to `int64`, whatever `tf.dtypes` holds. */
  lemma TimestampIsInt64(ns: Namespaces, hfDtype: string)
    requires "timestamp" <= hfDtype && hfDtype !in ns.numpy
    ensures ConvertToNpDtype(ns, hfDtype) == Ok(Int64)
  {
    assert HfDtypeToNpDtype.Keys == {"bool", "float", "double", "large_string", "utf8", "string"};
    assert hfDtype[0] == 't' && hfDtype[1] == 'i';
  }

  /** A name that is no alias, no numpy attribute and no timestamp is looked up in
      `tf.dtypes` last. */
  lemma TfDtypesLast(ns: Namespaces, hfDtype: string)
    requires hfDtype !in HfDtypeToNpDtype && hfDtype !in ns.numpy && !("timestamp" <= hfDtype)
    requires hfDtype in ns.tfDtypes
    ensures ConvertToNpDtype(ns, hfDtype) == Ok(ns.tfDtypes[hfDtype])
  {
  }

  /** "float" is a 32-bit float and "double" a 64-bit one, in every environment. */
  lemma FloatAliases(ns: Namespaces)
    ensures ConvertToNpDtype(ns, "float") == Ok(FloatType(F32))
    ensures ConvertToNpDtype(ns, "double") == Ok(FloatType(F64))
  {
  }

  function Bits(w: IntWidth): nat {
    match w
    case W8 => 8
    case W16 => 16
    case W32 => 32
    case W64 => 64
  }

  function Pow2(n: nat): (r: nat)
    ensures r >= 1
  {
    if n == 0 then 1 else 2 * Pow2(n - 1)
  }

  /** The integers representable in a given width and signedness. */
  predicate InRange(i: int, w: IntWidth, signed: bool) {
    if signed then -(Pow2(Bits(w) - 1) as int) <= i < Pow2(Bits(w) - 1)
    else 0 <= i < Pow2(Bits(w))
  }

  /** `np.iinfo(dtype).min`: the least representable integer. */
  function IntMin(w: IntWidth, signed: bool): (m: int)
    ensures InRange(m, w, signed)
    ensures forall i :: InRange(i, w, signed) ==> m <= i
    ensures !signed ==> m == 0
    ensures signed ==> m < 0
  {
    if signed then -(Pow2(Bits(w) - 1) as int) else 0
  }

  /** The largest finite value of an IEEE-style float of the given width,
      (2 - 2^-p) * 2^emax for p stored mantissa bits: `np.finfo(dtype).max`, written out
      as 2^16 - 2^5, 2^128 - 2^120, 2^128 - 2^104 and 2^1024 - 2^971. */
  function FloatMax(w: FloatWidth): (x: real)
    ensures x > 0.0
  {
    match w
    case F16 => 65504.0
    case BF16 => 338953138925153547590470800371487866880.0
    case F32 => 340282346638528859811704183484516925440.0
    case F64 => 179769313486231570814527423731704356798070567525844996598917476803157260780028538760589558632766878171540458953514382464234321326889464182768467546703537516986049910576551282076245490090389328944075868508455133942304583236903222948165808559332123348274797826204144723168738177180919299881250404026184124858368.0
  }
}
