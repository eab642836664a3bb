/** The hash of plain options, written out: stored jobs are found again only as long as this does not change. */
module HashText {
  import opened Outcome
  import opened Sorting
  import opened OptionsHash
  import opened OptionsIdentity
  import Text

  /** A version that is known and not empty. */
  function Known(prefix: string, version: Option<string>): seq<string> {
    if version.Some? && version.value != "" then [prefix + version.value] else []
  }

  predicate IsGiven(options: map<string, OptionValue>, key: string) { key in options && !options[key].isNone }

  /** What a hash names after the options, in this order. */
  function NamedParts(options: map<string, OptionValue>, bundle: RuntimeBundle): seq<string> {
    ["dataset=" + bundle.dataset]
    + ["model_version=" + if bundle.modelVersion.Some? then bundle.modelVersion.value else "None"]
    + Known("data_version=", bundle.dataVersion)
    + Known("policyengine_version=", bundle.policyengineVersion)
    + (if IsGiven(options, "spm") then ["spm_provenance_schema=canonical-spm-comparison-v2"] else [])
    + (if IsGiven(options, "breakdown") then ["breakdown_schema=2"] else [])
    + Known("runtime_app_name=", bundle.runtimeAppName)
  }

  lemma NamedIsKnown(name: string, version: Option<string>)
    ensures Named(name, version) == Known(name + "=", version)
  {
  }

  lemma SchemaPartsAre(options: map<string, OptionValue>)
    ensures SchemaParts(options)
         == (if IsGiven(options, "spm") then ["spm_provenance_schema=canonical-spm-comparison-v2"] else [])
            + (if IsGiven(options, "breakdown") then ["breakdown_schema=2"] else [])
  {
    assert "spm_provenance_schema=" + SPM_PROVENANCE_SCHEMA == "spm_provenance_schema=canonical-spm-comparison-v2";
    assert "breakdown_schema=" + LOCAL_AREA_BREAKDOWN_RESULT_SCHEMA_VERSION == "breakdown_schema=2";
  }

  lemma GroupNamed(a: seq<string>, b: seq<string>, c: seq<string>, d: seq<string>, e: seq<string>, f: seq<string>, g: seq<string>)
    ensures (a + b) + (c + (d + ((e + f) + g))) == a + b + c + d + e + f + g
  {
  }

  lemma BundlePartsAre(options: map<string, OptionValue>, bundle: RuntimeBundle)
    ensures BundleParts(options, bundle) == NamedParts(options, bundle)
  {
    SchemaPartsAre(options);
    NamedIsKnown("data_version", bundle.dataVersion);
    NamedIsKnown("policyengine_version", bundle.policyengineVersion);
    NamedIsKnown("runtime_app_name", bundle.runtimeAppName);
    assert "data_version" + "=" == "data_version=" && "policyengine_version" + "=" == "policyengine_version=";
    assert "runtime_app_name" + "=" == "runtime_app_name=";
    GroupNamed(["dataset=" + bundle.dataset], ["model_version=" + ModelText(bundle)],
               Known("data_version=", bundle.dataVersion), Known("policyengine_version=", bundle.policyengineVersion),
               if IsGiven(options, "spm") then ["spm_provenance_schema=canonical-spm-comparison-v2"] else [],
               if IsGiven(options, "breakdown") then ["breakdown_schema=2"] else [],
               Known("runtime_app_name=", bundle.runtimeAppName));
  }

  /** `pairs` writes each option as its name, an equals sign and its text, the names in lexicographic order. */
  ghost predicate WritesOptions(pairs: seq<string>, keys: seq<string>, options: map<string, OptionValue>) {
    && |pairs| == |keys| && (forall key :: key in keys <==> key in options)
    && (forall i :: 0 <= i < |keys| ==> keys[i] in options && pairs[i] == keys[i] + "=" + options[keys[i]].text)
    && forall i, j :: 0 <= i < j < |keys| ==> Text.Precedes(keys[i], keys[j])
  }

  lemma PairsWriteOptions(options: map<string, OptionValue>)
    ensures WritesOptions(Pairs(options), SortedKeys(options), options)
  {
    var keys := SortedKeys(options);
    forall i, j | 0 <= i < j < |keys| ensures Text.Precedes(keys[i], keys[j]) {
      Text.BeforeIsLexicographic(keys[i], keys[j]);
    }
    forall i | 0 <= i < |keys| ensures keys[i] in options { assert keys[i] in keys; }
  }

  /** The hash of plain options is their pairs in lexicographic order, then the dataset and the model
      version, then the versions that are known, the schemas of an SPM selection and of a breakdown,
      and the worker application: all joined by ampersands, in brackets. */
  lemma HashIsWritten(options: map<string, OptionValue>, bundle: RuntimeBundle)
    requires Plain(options) && BundleAmpersandFree(bundle)
    ensures exists pairs, keys :: WritesOptions(pairs, keys, options)
                                  && BuildOptionsHash(options, bundle) == "[" + Join(pairs + NamedParts(options, bundle)) + "]"
  {
    PlainHash(options, bundle);
    BundlePartsAre(options, bundle);
    PairsWriteOptions(options);
  }

  /** Joined parts, with an ampersand between any two. */
  lemma {:induction false} JoinedByAmpersands(parts: seq<string>, i: nat)
    requires 0 < i < |parts|
    ensures Join(parts) == Join(parts[..i]) + ("&" + Join(parts[i..]))
    ensures Join([parts[i]]) == parts[i]
  {
    assert parts == parts[..i] + parts[i..];
    JoinTogether(parts[..i], parts[i..]);
  }
}
