/** The exceptions the conversion core can raise, one constructor per raise site
    (or per family of Python runtime errors). */
module Errors {

  datatype Error =
      /** `extract_features`: "Type ... is not supported." */
    | UnsupportedFeature(kind: string)
      /** `extract_features`: a list spec whose length is not 1. */
    | ListLength(length: nat)
      /** `convert_to_np_dtype`: "Unrecognized type ...". */
    | UnrecognizedDtype(name: string)
      /** `_get_default_value`: "Could not get default value for ...". */
    | NoDefaultValue
      /** `convert_hf_value`: "Conversion of value ... is not supported." */
    | UnsupportedConversion
      /** A Python `AttributeError` or `TypeError` raised on a value of the wrong shape
          (`.get` on a non-dict, iterating `None`, arithmetic with `None`, ...). */
    | TypeError(what: string)
      /** `_from_tfds_to_hf`: the name is not listed on the hub. */
    | DatasetNotFound(name: string)
      /** `multiprocessing.Pool(processes=n)` with `n < 1`. */
    | PoolSize(processes: int)
      /** A case whose behaviour depends on library classes this model does not contain. */
    | NotModelled(what: string)
}
