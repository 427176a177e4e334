/** Hugging Face dataset and config names made acceptable to TFDS
    (`convert_hf_dataset_name`, `convert_hf_config_name`). */
module Names {
  import opened Wrappers

  predicate IsUpper(c: char) {
    'A' <= c <= 'Z'
  }

  /** A character the dataset-name normaliser leaves as it is. */
  predicate PlainChar(c: char) {
    c != '-' && c != '.' && c != '/' && !IsUpper(c)
  }

  /** `str.lower()` on one character (ASCII letters only). */
  function LowerChar(c: char): (d: char)
    ensures !IsUpper(d)
    ensures IsUpper(c) ==> d as int == c as int + 32
    ensures !IsUpper(c) ==> d == c
  {
    if IsUpper(c) then (c as int + 32) as char else c
  }

  function Lower(s: string): (r: string)
    ensures |r| == |s|
    ensures forall i :: 0 <= i < |s| ==> r[i] == LowerChar(s[i])
  {
    seq(|s|, i requires 0 <= i < |s| => LowerChar(s[i]))
  }

  /** `s.replace(target, replacement)` for a one-character `target`: every occurrence, left to right. */
  function Replace(s: string, target: char, replacement: string): (r: string)
    ensures target !in replacement ==> target !in r
    ensures |replacement| == 1 ==> |r| == |s|
    ensures |replacement| == 1 ==> forall i :: 0 <= i < |s| ==> r[i] == (if s[i] == target then replacement[0] else s[i])
  {
    if s == [] then []
    else
      var rest := Replace(s[1..], target, replacement);
      var out := (if s[0] == target then replacement else [s[0]]) + rest;
      assert |replacement| == 1 ==> forall i :: 1 <= i < |s| ==> out[i] == rest[i - 1] && s[1..][i - 1] == s[i];
      out
  }

  lemma {:induction false} ReplaceAppend(a: string, b: string, target: char, replacement: string)
    ensures Replace(a + b, target, replacement) == Replace(a, target, replacement) + Replace(b, target, replacement)
  {
    if a == [] {
      assert a + b == b;
    } else {
      assert (a + b)[0] == a[0];
      assert (a + b)[1..] == a[1..] + b;
      ReplaceAppend(a[1..], b, target, replacement);
      var head := if a[0] == target then replacement else [a[0]];
      assert Replace(a + b, target, replacement) == head + Replace(a[1..] + b, target, replacement);
      assert head + (Replace(a[1..], target, replacement) + Replace(b, target, replacement))
          == (head + Replace(a[1..], target, replacement)) + Replace(b, target, replacement);
    }
  }

  lemma LowerAppend(a: string, b: string)
    ensures Lower(a + b) == Lower(a) + Lower(b)
  {
  }

  /** The chained `str.replace` calls and `str.lower()` of `convert_hf_dataset_name`. */
  function ReplaceThenLower(name: string): string {
    Lower(Replace(Replace(Replace(name, '-', "_"), '.', "_"), '/', "__"))
  }

  /** `convert_hf_dataset_name`: '-' and '.' become '_', '/' becomes "__", then the
      whole name is lower-cased. The result is the character-wise rewrite of the name,
      and so has no '-', '.', '/' and no upper-case letter. */
  function ConvertHfDatasetName(name: string): (r: string)
    ensures r == DatasetNameByChar(name)
    ensures forall i :: 0 <= i < |r| ==> PlainChar(r[i])
  {
    DatasetNameIsCharacterwise(name);
    ByCharAlphabet(name);
    ReplaceThenLower(name)
  }

  /** What one character of a Hugging Face name turns into in the TFDS name. */
  function DatasetNameChar(c: char): string {
    if c == '-' || c == '.' then "_"
    else if c == '/' then "__"
    else [LowerChar(c)]
  }

  /** The TFDS name built character replacement character. */
  function DatasetNameByChar(name: string): string {
    if name == [] then [] else DatasetNameChar(name[0]) + DatasetNameByChar(name[1..])
  }

  /** The three chained replacements and the lower-casing act on each character
      independently: the normaliser is the character-wise map `DatasetNameChar`. */
  lemma {:induction false} DatasetNameIsCharacterwise(name: string)
    ensures ReplaceThenLower(name) == DatasetNameByChar(name)
  {
    if name != [] {
      var c, t := name[0], name[1..];
      assert name == [c] + t;
      var r1c, r1t := Replace([c], '-', "_"), Replace(t, '-', "_");
      ReplaceAppend([c], t, '-', "_");
      var r2c, r2t := Replace(r1c, '.', "_"), Replace(r1t, '.', "_");
      ReplaceAppend(r1c, r1t, '.', "_");
      var r3c, r3t := Replace(r2c, '/', "__"), Replace(r2t, '/', "__");
      ReplaceAppend(r2c, r2t, '/', "__");
      LowerAppend(r3c, r3t);
      assert Lower(r3c) == DatasetNameChar(c);
      DatasetNameIsCharacterwise(t);
    }
  }

  lemma {:induction false} ByCharAlphabet(name: string)
    ensures forall i :: 0 <= i < |DatasetNameByChar(name)| ==> PlainChar(DatasetNameByChar(name)[i])
  {
    if name != [] {
      ByCharAlphabet(name[1..]);
    }
  }

  lemma {:induction false} ByCharAppend(a: string, b: string)
    ensures DatasetNameByChar(a + b) == DatasetNameByChar(a) + DatasetNameByChar(b)
  {
    if a == [] {
      assert a + b == b;
    } else {
      assert (a + b)[0] == a[0];
      assert (a + b)[1..] == a[1..] + b;
      ByCharAppend(a[1..], b);
    }
  }

  /** A name that is already lower-case and has no '-', '.' or '/' is left unchanged. */
  lemma {:induction false} ByCharKeepsPlainNames(name: string)
    requires forall i :: 0 <= i < |name| ==> PlainChar(name[i])
    ensures DatasetNameByChar(name) == name
  {
    if name != [] {
      ByCharKeepsPlainNames(name[1..]);
    }
  }

  /** `owner/repo-part` style names: two plain parts around '/' and '-' separators. */
  lemma OwnerRepoName(a: string, b: string, c: string)
    requires forall i :: 0 <= i < |a| ==> PlainChar(a[i])
    requires forall i :: 0 <= i < |b| ==> PlainChar(b[i])
    requires forall i :: 0 <= i < |c| ==> PlainChar(c[i])
    ensures ConvertHfDatasetName(a + "/" + b + "-" + c) == a + "__" + b + "_" + c
  {
    var name := a + "/" + b + "-" + c;
    assert DatasetNameByChar(a + "/") == a + "__" by {
      ByCharKeepsPlainNames(a);
      ByCharAppend(a, "/");
    }
    assert DatasetNameByChar(a + "/" + b) == a + "__" + b by {
      ByCharKeepsPlainNames(b);
      ByCharAppend(a + "/", b);
    }
    assert DatasetNameByChar(a + "/" + b + "-") == a + "__" + b + "_" by {
      ByCharAppend(a + "/" + b, "-");
    }
    assert DatasetNameByChar(name) == a + "__" + b + "_" + c by {
      ByCharKeepsPlainNames(c);
      ByCharAppend(a + "/" + b + "-", c);
    }
  }

  /** The example from the function's documentation. */
  lemma DatasetNameExample(name: string)
    requires name == "codeparrot/github-code"
    ensures ConvertHfDatasetName(name) == "codeparrot__github_code"
  {
    var a, b, c := "codeparrot", "github", "code";
    assert name == a + "/" + b + "-" + c;
    OwnerRepoName(a, b, c);
  }

  /** `convert_hf_config_name`: `None` stays `None`; otherwise lower-case, then ',' becomes
      '_', character replacement character and length-preserving. */
  function ConvertHfConfigName(config: Option<string>): (r: Option<string>)
    ensures config.None? <==> r.None?
    ensures config.Some? ==> |r.value| == |config.value|
    ensures config.Some? ==> forall i :: 0 <= i < |config.value| ==>
      r.value[i] == (if config.value[i] == ',' then '_' else LowerChar(config.value[i]))
    ensures config.Some? ==> forall i :: 0 <= i < |r.value| ==> r.value[i] != ',' && !IsUpper(r.value[i])
  {
    match config
    case None => None
    case Some(s) => Some(Replace(Lower(s), ',', "_"))
  }

  /** A config named `all` keeps its name: the function has no special case for it. */
  lemma ConfigAllKept()
    ensures ConvertHfConfigName(Some("all")) == Some("all")
  {
    var r := ConvertHfConfigName(Some("all")).value;
    assert |r| == 3 && r[0] == 'a' && r[1] == 'l' && r[2] == 'l';
    assert r == "all";
  }
}
