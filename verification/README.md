# Hugging Face to TFDS conversion, modelled in Dafny

This project models the part of TensorFlow Datasets that turns a Hugging Face
`datasets` dataset into a TFDS dataset:

- the recursive translation of a Hugging Face feature spec into TFDS feature
  connectors (`extract_features`);
- dtype-name resolution (`convert_to_np_dtype`);
- placeholder defaults for missing values (`_get_default_value`);
- the rewriting of one record against a feature tree (`convert_hf_value`);
- the two name normalisers (`convert_hf_dataset_name`, `convert_hf_config_name`);
- the builder's own logic: finding the Hugging Face repository behind a TFDS name
  (`_from_tfds_to_hf`), supervised keys (`_extract_supervised_keys`), example
  generation, serial or through a worker pool (`_generate_examples`), and the
  split generators with the empty-split filter (`_split_generators`,
  `_remove_empty_splits`).

Modules, one per file:

| module | file | what it holds |
|---|---|---|
| `Wrappers` | wrappers.dfy | `Option`, `Result` |
| `Errors` | errors.dfy | the exceptions the code raises, as one datatype |
| `Dtypes` | dtypes.dfy | element types, the alias table, dtype resolution, `iinfo` minima and `finfo` maxima |
| `Features` | features.dfy | Hugging Face specs, TFDS connectors, Python values, `dict.get`, truthiness, iteration |
| `Schema` | schema.dfy | `extract_features` and its structural properties |
| `Defaults` | defaults.dfy | `_get_default_value` |
| `Convert` | convert.dfy | `convert_hf_value` and its per-case helpers |
| `ConvertProps` | convert_props.dfy | properties that relate several conversions |
| `Names` | names.dfy | dataset and config name normalisers |
| `Streams` | streams.dfy | single-pass streams, `next`, `itertools.chain`, `_remove_empty_splits` |
| `Builder` | builder.dfy | `_from_tfds_to_hf`, supervised keys, example generation, split generators |

Modelling choices:

- **Exceptions.** Every Python exception becomes the `Err` side of a `Result`.
- **Foreign code as parameters.** These come in as data:
  - the attributes of `numpy` and `tf.dtypes` that name a type (`Namespaces`);
  - `epath.Path(p).exists()` and PIL's `convert('RGB')` (`Env`);
  - the list of Hugging Face dataset names;
  - the prepared splits.
- **Python dicts** are sequences of `Named` entries, so their insertion order is kept.
- **Generators.** A generator or iterator is a `Stream`: the items it yields, then
  either `StopIteration` or the exception it raises.
- **Truthiness.** Python truthiness (`Truthy`) is written out wherever the code
  branches on it.
- **Iteration.** What `for x in v` walks over is written out as `Iterate`.

## Model

| member | source | states |
|---|---|---|
| Dtypes.ConvertToNpDtype | tensorflow_datasets/core/utils/huggingface_utils.py:41-63 | a name resolves exactly when it is an alias, a numpy attribute, starts with "timestamp", or is a `tf.dtypes` attribute; the result comes from one of those sources; otherwise the error names the unrecognised dtype |
| Dtypes.AliasTableFirst | tensorflow_datasets/core/utils/huggingface_utils.py:31-51 | a name in the alias table resolves through the table whatever numpy and `tf.dtypes` define |
| Dtypes.NumpyBeforeTimestampAndTf | tensorflow_datasets/core/utils/huggingface_utils.py:52-58 | a numpy attribute that is not an alias wins over the timestamp rule and over `tf.dtypes` |
| Dtypes.TimestampIsInt64 | tensorflow_datasets/core/utils/huggingface_utils.py:54-56 | a "timestamp..." name that numpy does not define resolves to int64, in every environment |
| Dtypes.TfDtypesLast | tensorflow_datasets/core/utils/huggingface_utils.py:50-58 | a name that is no alias, no numpy attribute and does not start with "timestamp" resolves to its `tf.dtypes` attribute |
| Dtypes.FloatAliases | tensorflow_datasets/core/utils/huggingface_utils.py:31-38 | "float" is float32 and "double" is float64, in every environment |
| Dtypes.IntMin | tensorflow_datasets/core/utils/huggingface_utils.py:102-103 | `iinfo(dtype).min` is representable in the dtype and below every representable value: 0 when unsigned, negative when signed |
| Dtypes.FloatMax | tensorflow_datasets/core/utils/huggingface_utils.py:104-105 | the largest finite value of each float width, which is positive |
| Features.Get | tensorflow_datasets/core/utils/huggingface_utils.py:138 | `dict.get(key)`: `None` for a missing key, otherwise the entry stored under the key |
| Features.GetOwnKey | tensorflow_datasets/core/utils/huggingface_utils.py:138 | in a dict without repeated keys every entry is found under its own key |
| Features.Truthy | tensorflow_datasets/core/utils/huggingface_utils.py:159-166 | Python truthiness: exactly `None`, `False`, zero and the empty string, bytes, list and dict are false |
| Features.Iterate | tensorflow_datasets/core/utils/huggingface_utils.py:146-155 | lists, strings, bytes and dicts are iterable and nothing else is; a list iterates over its items; an iteration is empty exactly when the value is falsy |
| Schema.ExtractFeatures | tensorflow_datasets/core/dataset_builders/huggingface_dataset_builder.py:54-91 | every failure is one of the three errors `extract_features` raises (list length, unsupported type, unrecognised dtype); a record translates to a dict with as many fields (their names and order are stated by `Schema.ExtractFields`), a sequence or list to a sequence |
| Schema.ExtractFields | tensorflow_datasets/core/dataset_builders/huggingface_dataset_builder.py:57-61 | a record translates exactly when every field does, to a dict with the same field names in the same order, each field translated on its own; the error raised is that of a failing field with no failing field before it |
| Schema.TranslationIsHomomorphic | tensorflow_datasets/core/dataset_builders/huggingface_dataset_builder.py:54-91 | every successful translation matches the spec node for node: records to dicts with the same keys, sequences and one-element lists to sequences, each leaf to its own connector kind |
| Schema.TranslationSucceedsIffTranslatable | tensorflow_datasets/core/dataset_builders/huggingface_dataset_builder.py:54-91 | translation succeeds exactly on specs without an unknown node kind, a list of length other than one, a class label with no truthy source, or an unresolvable dtype |
| Schema.ListIsSequence | tensorflow_datasets/core/dataset_builders/huggingface_dataset_builder.py:62-67 | a one-element list translates like an explicit `Sequence` of its element; any other length is the list-length error |
| Schema.ClassLabelPrecedence | tensorflow_datasets/core/dataset_builders/huggingface_dataset_builder.py:72-91 | a class label takes the first truthy source among `names`, `names_file`, `num_classes`; when none is truthy it falls through to the unsupported-type error |
| Schema.LeafTranslations | tensorflow_datasets/core/dataset_builders/huggingface_dataset_builder.py:68-91 | an image becomes a png image whatever its mode; audio keeps its sampling rate; a value becomes a scalar of its resolved dtype, or carries the dtype error; any other node kind is unsupported |
| Defaults.DefaultForDtype | tensorflow_datasets/core/utils/huggingface_utils.py:99-109 | the leaf default is `b''` exactly for strings, the least representable integer for integers (0 when unsigned), minus the largest finite float for floats, `False` exactly for bool, and an error exactly for every other dtype |
| Defaults.DefaultValue | tensorflow_datasets/core/utils/huggingface_utils.py:91-98 | a dict's default has the dict's keys in order; a sequence's default is the empty list |
| Defaults.DefaultFields | tensorflow_datasets/core/utils/huggingface_utils.py:92-96 | a dict's default exists exactly when every field has one, with the same keys, each field's own default, and otherwise a failing field's error |
| Defaults.DefaultSucceedsIffDefined | tensorflow_datasets/core/utils/huggingface_utils.py:91-109 | a default exists exactly when no translation and no leaf of an unclassified dtype is reached without passing through a sequence (a sequence's default is `[]` whatever it holds) |
| Defaults.TranslatedSchemaHasDefaults | tensorflow_datasets/core/utils/huggingface_utils.py:91-109 | for any numpy and `tf.dtypes` namespaces, a translated spec has a default exactly when no translation and no value of an unclassified dtype (complex, datetime64, ...) is reached without passing through a sequence; so when every `Value` dtype resolves to a classified type and no translation occurs, a `None` field never makes conversion fail |
| Convert.Trunc | tensorflow_datasets/core/utils/huggingface_utils.py:131 | `int()` of a float truncates toward zero, for both signs |
| Convert.ScaleSample | tensorflow_datasets/core/utils/huggingface_utils.py:162 | one scaled sample is the integer next to sample times rate on the side of zero: never further from zero than the product and less than one away from it |
| Convert.ScaleSamples | tensorflow_datasets/core/utils/huggingface_utils.py:160-162 | in the model, scaling succeeds exactly for an empty array, or for a known rate and numeric samples (see "## Left out" for string samples); length is kept and each output is its sample scaled and truncated |
| Convert.ConvertHfValue | tensorflow_datasets/core/utils/huggingface_utils.py:127-176 | `None` gives the feature's default and a datetime its truncated timestamp, whatever the feature; class labels, scalars and tensors pass other values through; a dict feature without fields gives `{}` for any other value, one with fields rejects a non-dict; an image feature accepts exactly images and gives them RGB-converted; a converted dict has the feature's keys |
| Convert.ConvertAudio | tensorflow_datasets/core/utils/huggingface_utils.py:159-166 | a non-dict value fails; a truthy `array` is scaled; otherwise the `path` entry decides |
| Convert.AudioFromArray | tensorflow_datasets/core/utils/huggingface_utils.py:160-162 | a non-iterable array fails; an iterable one succeeds exactly when its samples can be scaled (none, or numbers with a known rate), giving each sample scaled by the rate and truncated, in order (string samples: see "## Left out") |
| Convert.AudioFromPath | tensorflow_datasets/core/utils/huggingface_utils.py:163-166 | the result is the path exactly when the entry is truthy, names a path, and the path exists; a falsy entry is the unsupported-conversion error |
| Convert.ConvertFields | tensorflow_datasets/core/utils/huggingface_utils.py:136-140 | a record converts exactly when every field does; the output has the feature's keys in feature order, each the conversion of `value.get(key)`, and a missing key gets the field's default |
| Convert.ConvertList | tensorflow_datasets/core/utils/huggingface_utils.py:152-156 | a list converts exactly when every element does, element-wise, keeping length and order |
| Convert.ConvertColumns | tensorflow_datasets/core/utils/huggingface_utils.py:143-151 | a dict of columns converts exactly when every column does, to one column per inner field, in field order, each the conversion of that column |
| Convert.ConvertColumn | tensorflow_datasets/core/utils/huggingface_utils.py:146-149 | a column that cannot be iterated, `None` included, fails; a converted column is its elements converted element-wise |
| ConvertProps.FieldsReadOnlyFeatureKeys | tensorflow_datasets/core/utils/huggingface_utils.py:136-140 | two records that agree on the feature's keys convert identically |
| ConvertProps.ExtraKeysDropped | tensorflow_datasets/core/utils/huggingface_utils.py:136-140 | dropping the keys the feature lacks does not change the conversion |
| ConvertProps.DefaultIsFixedPoint | tensorflow_datasets/core/utils/huggingface_utils.py:127-140 | for features without media leaves, converting a default gives the same default |
| ConvertProps.BareValueWrappedUnconverted | tensorflow_datasets/core/utils/huggingface_utils.py:157-158 | for a sequence, a value that is neither list nor dict becomes a one-element list holding that value unconverted |
| ConvertProps.BareValueSkipsInnerChecks | tensorflow_datasets/core/utils/huggingface_utils.py:133-158 | a string that a dict feature with a field rejects is accepted, wrapped, by a sequence of such dicts |
| ConvertProps.NestedSequenceColumnsNotModelled | tensorflow_datasets/core/utils/huggingface_utils.py:143-151 | a dict of columns given to a sequence of sequences is reported as not modelled rather than decided |
| ConvertProps.SequenceShapes | tensorflow_datasets/core/utils/huggingface_utils.py:141-158 | the three shapes of an int64 sequence (bare scalar, list, dict of lists) each convert to the expected value |
| ConvertProps.MissingColumnRaises | tensorflow_datasets/core/utils/huggingface_utils.py:143-151 | a sequence of dicts whose value lacks a column fails instead of defaulting |
| Names.LowerChar | tensorflow_datasets/core/utils/huggingface_utils.py:200 | lower-casing maps an upper-case letter to its lower-case letter and leaves every other character alone |
| Names.Lower | tensorflow_datasets/core/utils/huggingface_utils.py:200 | in the model, lower-casing keeps the length and lower-cases character by character (see "## Left out" for non-ASCII text) |
| Names.Replace | tensorflow_datasets/core/utils/huggingface_utils.py:197-199 | after replacing, no occurrence of the target is left unless the replacement contains it; a one-character replacement keeps length and swaps exactly the occurrences |
| Names.ConvertHfDatasetName | tensorflow_datasets/core/utils/huggingface_utils.py:196-201 | the converted dataset name is the per-character rewrite ('-', '.' to '_', '/' to "__", letters lower-cased), so it has no '-', '.', '/' and no upper-case letter |
| Names.DatasetNameIsCharacterwise | tensorflow_datasets/core/utils/huggingface_utils.py:196-201 | the chained replacements plus lower-casing equal one per-character rewrite ('-', '.' to '_', '/' to "__", letters lower-cased) |
| Names.ByCharKeepsPlainNames | tensorflow_datasets/core/utils/huggingface_utils.py:196-201 | a name that is already lower-case and free of '-', '.', '/' is left unchanged |
| Names.OwnerRepoName | tensorflow_datasets/core/utils/huggingface_utils.py:182-188 | `owner/repo-part` becomes `owner__repo_part` for plain parts |
| Names.DatasetNameExample | tensorflow_datasets/core/utils/huggingface_utils.py:186-188 | `codeparrot/github-code` becomes `codeparrot__github_code` |
| Names.ConfigAllKept | tensorflow_datasets/core/utils/huggingface_utils.py:213-215 | a config named `all` is returned as `all`, not `_all` |
| Names.ConvertHfConfigName | tensorflow_datasets/core/utils/huggingface_utils.py:204-215 | `None` stays `None`; otherwise, in the model, length is kept, ',' becomes '_' and letters are lower-cased character by character, so no ',' and no upper-case letter remain |
| Streams.Next | tensorflow_datasets/core/dataset_builders/huggingface_dataset_builder.py:139-141 | `next` yields the item at the cursor and advances by one; at the end it raises the stream's exception or stops |
| Streams.RemoveEmptySplits | tensorflow_datasets/core/dataset_builders/huggingface_dataset_builder.py:131-148 | the call raises exactly when some split raises on its first `next`, with the first such error; otherwise it keeps exactly the non-empty splits in order, each chained back to the original stream with one item peeked; on both paths it has logged one warning per empty split in front of the first raising split (all of them when none raises), in order |
| Streams.PeekedCons | tensorflow_datasets/core/dataset_builders/huggingface_dataset_builder.py:141-144 | chaining the peeked item in front of the iterator drains to the original stream |
| Streams.SplitsPartitioned | tensorflow_datasets/core/dataset_builders/huggingface_dataset_builder.py:131-148 | when no split raises at once, kept and warned splits together number the input splits |
| Streams.KeptOrWarned | tensorflow_datasets/core/dataset_builders/huggingface_dataset_builder.py:131-148 | a successful filter keeps or warns about every split exactly once |
| Streams.EmptyThenNonEmpty | tensorflow_datasets/core/dataset_builders/huggingface_dataset_builder.py:131-148 | an empty split next to a non-empty one: only the second is kept and one warning names the first |
| Streams.WarnedBeforeRaise | tensorflow_datasets/core/dataset_builders/huggingface_dataset_builder.py:139-146 | an empty split in front of a split that raises at once: the call raises that error after logging the warning for the empty split |
| Builder.FromTfdsToHf | tensorflow_datasets/core/dataset_builders/huggingface_dataset_builder.py:94-119 | a name is found exactly when some listed name normalises to the lower-cased TFDS name; the first such is returned; otherwise not-found names the TFDS name |
| Builder.TfdsNameIsLowerCase | tensorflow_datasets/core/dataset_builders/huggingface_dataset_builder.py:111-116 | a normalised name is its own lower-case form, so the TFDS name of a listed dataset finds a match |
| Builder.ExtractSupervisedKeys | tensorflow_datasets/core/dataset_builders/huggingface_dataset_builder.py:122-128 | the pair exists exactly when the keys exist and both names are given, and it is (input, output) in that order |
| Builder.EnumerateFrom | tensorflow_datasets/core/dataset_builders/huggingface_dataset_builder.py:274 | from position i on, the stream pairs each position with its converted record, up to the first record that fails, whose error it raises |
| Builder.GenerateExamples | tensorflow_datasets/core/dataset_builders/huggingface_dataset_builder.py:274 | the serial branch yields `(k, convert(data[k]))` for every k before the first failing record, then raises that record's error, or stops after all records |
| Builder.GeneratedStreamUnique | tensorflow_datasets/core/dataset_builders/huggingface_dataset_builder.py:274 | any stream meeting that description is the serial stream |
| Builder.PoolImap | tensorflow_datasets/core/dataset_builders/huggingface_dataset_builder.py:276-277 | with at least one process, the pool gives the serial stream whatever order the workers finish in; with fewer it raises the pool-size error on the first `next` |
| Builder.SplitExamples | tensorflow_datasets/core/dataset_builders/huggingface_dataset_builder.py:269-277 | a split's stream is the serial stream unless the pool refuses its process count, in which case it raises the pool-size error on its first `next` whatever the data |
| Builder.GenerateSplit | tensorflow_datasets/core/dataset_builders/huggingface_dataset_builder.py:269-277 | `_generate_examples` yields the same stream with no process count as with any valid one, whatever order the workers finish in |
| Builder.FirstRecordDecides | tensorflow_datasets/core/dataset_builders/huggingface_dataset_builder.py:269-277 | a split's stream stops at once exactly when the pool is accepted and the split has no records, and raises at once exactly when the pool is refused or its first record fails to convert |
| Builder.SplitGenerators | tensorflow_datasets/core/dataset_builders/huggingface_dataset_builder.py:259-267 | the split generators raise exactly when the pool refuses its process count and there is a split, with the pool-size error and no warning logged, or when some split's first record fails to convert |
| Builder.SplitsRaiseOnFirstRecord | tensorflow_datasets/core/dataset_builders/huggingface_dataset_builder.py:259-267 | some split stream raises on its first `next` exactly when the pool is refused and there is a split, or some split's first record fails to convert |
| Builder.SplitGeneratorsKeepAllExamples | tensorflow_datasets/core/dataset_builders/huggingface_dataset_builder.py:259-267 | every kept split is a split with records and streams all its generated examples |
| Builder.SplitGeneratorsWarnOnlyEmpty | tensorflow_datasets/core/dataset_builders/huggingface_dataset_builder.py:259-267 | every warning logged, whether or not the call then raises, names a split without records |
| Builder.EmptySplitDroppedBesideFullOne | tensorflow_datasets/core/dataset_builders/huggingface_dataset_builder.py:131-148 | splits `{train: [], test: [x]}` keep only `test`, streaming `(0, convert(x))`, with one warning naming `train`, serial or with any valid pool |
| Builder.IdAndLabelFeatures | tensorflow_datasets/core/dataset_builders/huggingface_dataset_builder.py:57-78 | `{id: Value("int64"), label: ClassLabel(names)}` becomes a dict of an int64 scalar and a named class label |
| Builder.IdAndLabelRecord | tensorflow_datasets/core/utils/huggingface_utils.py:133-140 | a record `{id, label}` of that dataset is generated unchanged under key 0 |

## Left out

- Loading, listing and preparing Hugging Face datasets: `load_dataset_builder`,
  `list_datasets`, `download_and_prepare`, `as_dataset` and the `_hf_features`
  fallback. These are network and disk calls. The name list and the prepared
  splits are parameters instead.
- `login_to_hf`, the `HUGGING_FACE_HUB_TOKEN` lookup, and the `lru_cache`/`memoize`
  caching. These are I/O and process state.
- The builder's `__init__` glue (version fallback, verification mode, builder config)
  and the module-level `builder` factory. They only forward to foreign builders.
- Real concurrency in `multiprocessing.Pool`. The pool is modelled as workers
  finishing in an arbitrary order given as a parameter. Results are handed back
  through a position-indexed buffer.
- The laziness of streams. A stream is its whole yield sequence plus how it ends, so
  "consumes no more than the first record" shows only as the kept chain's cursor
  sitting at position 1.
- The exact exception classes and messages. Errors are kinds with the data that
  identifies them.
- Dtypes.FloatMax: states only that each width's largest finite value is positive.
  The IEEE constants are written out but not derived from the formats.
- Floating point. Audio samples and timestamps are reals, truncated toward zero the
  way `int()` truncates. Rounding of `sample * rate` is not modelled.
- Names.LowerChar: lower-cases ASCII letters only. `str.lower()` also folds non-ASCII
  letters.
- Names.Lower, Names.ConvertHfConfigName: the model keeps the length of the name.
  Python's `str.lower()` can change the length of non-ASCII text: `"İ".lower()` is
  'i' followed by U+0307, so `convert_hf_config_name("İ")` has length 2. Full Unicode
  case mapping is not modelled.
- The truthiness of a numpy array in the audio `array` entry. Lists, strings, bytes
  and dicts are modelled; a numpy array of length above one would raise.
- Convert.ScaleSamples and Convert.AudioFromArray: any sample that is not a bool,
  int or float is a `TypeError` in the model. Python instead repeats a string sample
  `rate` times and passes the result to `int()`, so `"1"` with rate 1 gives 1. String
  repetition and `int()` parsing are not modelled.
- Convert.ConvertHfValue: a dict of columns given to a `Sequence` of a `Sequence` is
  `NotModelled`. The code calls `feature.feature.items()` on the inner `Sequence`, and
  whether that reaches a dict depends on TFDS's `Sequence` class, which is not part
  of this model.
- Convert.ConvertHfValue: the value of a `Translation` or
  `TranslationVariableLanguages` feature is `NotModelled`. Which branch it takes
  depends on whether those TFDS classes are `FeaturesDict`s, and their definitions
  are not part of this model.
- Defaults.DefaultValue: the default of a `Translation` or
  `TranslationVariableLanguages` feature is `NotModelled`, for the same reason.
- Defaults.LeafDtype: the dtypes TFDS gives class labels (int64), images
  (uint8) and audio (int64) come from connector classes that are not part of this
  model. They are fixed here.
- The time zone of `datetime.timestamp()`. A datetime is its POSIX timestamp.

## Behaviour worth knowing

- **Bare value in a sequence.** A value that is neither a list nor a dict, given to a
  `Sequence` feature, is wrapped in a one-element list as it is. It is not converted
  against the inner feature (huggingface_utils.py lines 157-158).
- **Dict feature without fields.** A `FeaturesDict` with no fields never calls `.get`
  on the value, so any value that is not `None` or a datetime converts to `{}`
  (huggingface_utils.py lines 136-140).
- **First record fails.** The empty-split filter draws the first record of every
  split before any example is written. A split whose first record fails to convert
  therefore raises inside the filter and aborts every split, not just its own (see
  `Builder.SplitGenerators`).
- **Warnings before a failure.** The warnings for empty splits in front of a split
  that raises are logged before the exception ends the call (see
  `Streams.RemoveEmptySplits`).
- **Process count below one.** `multiprocessing.Pool` refuses fewer than one
  process, and `_generate_examples` only creates the pool when it is first advanced.
  That happens during the empty-split peek. So a `tfds_num_proc` below one makes every
  split raise, a split without records included, instead of that split being dropped
  with a warning (see `Builder.SplitExamples`).
- **Config named `all`.** The builder's class documentation says a Hugging Face
  config named `all` becomes `_all`. `convert_hf_config_name` does not do this; it
  only lower-cases and replaces ','.
