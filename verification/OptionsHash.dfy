/** The text that identifies a calculation's options and runtime bundle, and the pattern that finds its extensions. */
module OptionsHash {
  import opened Outcome
  import opened Sorting
  import opened LikePattern
  import Text

  const SPM_PROVENANCE_SCHEMA := "canonical-spm-comparison-v2"
  const LOCAL_AREA_BREAKDOWN_RESULT_SCHEMA_VERSION := "2"

  /** An option as `str` renders it, and whether it is None. */
  datatype OptionValue = OptionValue(text: string, isNone: bool)

  /** The dataset and package versions that a hash names. An empty version is left out like a missing one. */
  datatype RuntimeBundle = RuntimeBundle(
    dataset: string,
    modelVersion: Option<string>,
    policyengineVersion: Option<string>,
    dataVersion: Option<string>,
    runtimeAppName: Option<string>)

  // ---- Building the hash ----

  function Join(parts: seq<string>): string {
    if parts == [] then ""
    else if |parts| == 1 then parts[0]
    else Join(parts[..|parts| - 1]) + "&" + parts[|parts| - 1]
  }

  function LStrip(text: string): string {
    if text != [] && text[0] == '&' then LStrip(text[1..]) else text
  }

  function RStrip(text: string): string {
    if text != [] && text[|text| - 1] == '&' then RStrip(text[..|text| - 1]) else text
  }

  function Named(name: string, version: Option<string>): seq<string> {
    if version.Some? && version.value != "" then [name + "=" + version.value] else []
  }

  function Given(options: map<string, OptionValue>, key: string): bool {
    key in options && !options[key].isNone
  }

  function SortedKeys(options: map<string, OptionValue>): (keys: seq<string>)
    ensures Ordered(keys, Text.Before)
    ensures forall key :: key in keys <==> key in options
  {
    Text.BeforeIsTotalOrder();
    Sorted(options.Keys, Text.Before)
  }

  function Pair(key: string, value: OptionValue): string { key + "=" + value.text }

  function Pairs(options: map<string, OptionValue>): (pairs: seq<string>)
    ensures |pairs| == |SortedKeys(options)|
  {
    var keys := SortedKeys(options);
    seq(|keys|, i requires 0 <= i < |keys| => assert keys[i] in keys; Pair(keys[i], options[keys[i]]))
  }

  function OptionPairs(options: map<string, OptionValue>): string { Join(Pairs(options)) }

  function SchemaParts(options: map<string, OptionValue>): seq<string> {
    (if Given(options, "spm") then ["spm_provenance_schema=" + SPM_PROVENANCE_SCHEMA] else [])
    + (if Given(options, "breakdown") then ["breakdown_schema=" + LOCAL_AREA_BREAKDOWN_RESULT_SCHEMA_VERSION] else [])
  }

  function ModelText(bundle: RuntimeBundle): string {
    if bundle.modelVersion.Some? then bundle.modelVersion.value else "None"
  }

  function HashParts(options: map<string, OptionValue>, bundle: RuntimeBundle): (parts: seq<string>)
    ensures |parts| >= 2 && parts[1] == "dataset=" + bundle.dataset
  {
    [OptionPairs(options)]
    + (["dataset=" + bundle.dataset, "model_version=" + ModelText(bundle)]
       + (Named("data_version", bundle.dataVersion)
          + (Named("policyengine_version", bundle.policyengineVersion)
             + SchemaParts(options))))
  }

  function BuildOptionsHash(options: map<string, OptionValue>, bundle: RuntimeBundle): string {
    "[" + RStrip(LStrip(Join(HashParts(options, bundle) + Named("runtime_app_name", bundle.runtimeAppName)))) + "]"
  }

  // ---- The lookup pattern ----

  function Replace(text: string, c: char, with: string): string {
    if text == [] then [] else (if text[0] == c then with else [text[0]]) + Replace(text[1..], c, with)
  }

  function ReplaceAll(text: string): string {
    Replace(Replace(Replace(text, '\\', "\\\\"), '%', "\\%"), '_', "\\_")
  }

  function BuildLookupPattern(optionsHash: string): string {
    PatternOf(ReplaceAll(optionsHash), EndsWithBracket(optionsHash))
  }

  function PatternOf(escaped: string, bracketed: bool): string {
    if bracketed then escaped[..if escaped == [] then 0 else |escaped| - 1] + "&%" else escaped + "%"
  }

  predicate EndsWithBracket(text: string) { text != [] && text[|text| - 1] == ']' }

  /** Each wildcard and backslash of `text` preceded by a backslash. */
  function Escaped(text: string): string {
    if text == [] then []
    else (if text[0] in "\\%_" then ['\\', text[0]] else [text[0]]) + Escaped(text[1..])
  }

  lemma ReplaceNext(x: char, rest: string, c: char, with: string)
    ensures Replace([x] + rest, c, with) == (if x == c then with else [x]) + Replace(rest, c, with)
  {
    assert ([x] + rest)[1..] == rest;
  }

  lemma ReplacePasses(x: char, y: char, rest: string, c: char, with: string)
    requires x != c && y != c
    ensures Replace([x, y] + rest, c, with) == [x, y] + Replace(rest, c, with)
  {
    ReplaceNext(x, [y] + rest, c, with);
    ReplaceNext(y, rest, c, with);
    assert [x] + ([y] + rest) == [x, y] + rest;
  }

  /** Replacing backslashes first, the three replacements escape each character once. */
  lemma {:induction false} ReplacementsEscape(text: string)
    ensures ReplaceAll(text) == Escaped(text)
  {
    if text != [] {
      var c, rest := text[0], text[1..];
      ReplacementsEscape(rest);
      var rest1 := Replace(rest, '\\', "\\\\");
      var rest2 := Replace(rest1, '%', "\\%");
      ReplaceNext(c, rest1, '%', "\\%");
      ReplaceNext(c, rest2, '_', "\\_");
      if c == '\\' {
        ReplacePasses('\\', '\\', rest1, '%', "\\%");
        ReplacePasses('\\', '\\', rest2, '_', "\\_");
      } else if c == '%' {
        ReplacePasses('\\', '%', rest2, '_', "\\_");
      }
    }
  }

  lemma {:induction false} EscapedLast(text: string, last: char)
    requires last !in "\\%_"
    ensures Escaped(text + [last]) == Escaped(text) + [last]
  {
    if text == [] {
      assert text + [last] == [last];
    } else {
      EscapedLast(text[1..], last);
      assert (text + [last])[1..] == text[1..] + [last];
    }
  }

  /** What the hash must be extended by: `&` for a bracketed hash, anything for another. */
  function LookupPrefix(optionsHash: string): string {
    if EndsWithBracket(optionsHash) then optionsHash[..|optionsHash| - 1] + "&" else optionsHash
  }

  lemma PatternIsEscapedPrefix(optionsHash: string)
    ensures BuildLookupPattern(optionsHash) == Escaped(LookupPrefix(optionsHash)) + "%"
  {
    ReplacementsEscape(optionsHash);
    if EndsWithBracket(optionsHash) {
      var text := optionsHash[..|optionsHash| - 1];
      assert optionsHash == text + [']'];
      EscapedLast(text, ']');
      EscapedLast(text, '&');
      var escaped := Escaped(text);
      assert PatternOf(escaped + [']'], true) == (escaped + ['&']) + "%" by {
        assert (escaped + [']'])[..|escaped|] == escaped;
      }
      assert LookupPrefix(optionsHash) == text + ['&'];
    }
  }

  /** Escaped text matches exactly itself: the pattern is a prefix test. */
  lemma {:induction false} EscapedMatchesPrefix(text: string, value: string)
    ensures LineLike(Escaped(text) + "%", value) <==> text <= value && NewlineFree(value[|text|..])
  {
    var pattern := Escaped(text) + "%";
    if text == [] {
      assert pattern == "%" && value[0..] == value;
      PercentMatches(value, NotNewline);
    } else {
      var rest := Escaped(text[1..]) + "%";
      if text[0] in "\\%_" {
        assert pattern[2..] == rest;
      } else {
        assert pattern[1..] == rest;
      }
      if value != [] {
        EscapedMatchesPrefix(text[1..], value[1..]);
        assert text == [text[0]] + text[1..] && value == [value[0]] + value[1..];
        if text <= value { assert value[1..][|text| - 1..] == value[|text|..]; }
      }
    }
  }

  /** `value` is `prefix` and then one line, whose newline may be the value's last character. */
  predicate ExtendsOnOneLine(prefix: string, value: string) {
    prefix <= value
    && (|| NewlineFree(value[|prefix|..])
        || (|value| > |prefix| && value[|value| - 1] == '\n' && NewlineFree(value[|prefix|..|value| - 1])))
  }

  /** Escaping is exact: a stored hash matches the lookup pattern exactly when it extends the
      hash, for every hash and every stored text. */
  lemma PatternFindsExtensions(optionsHash: string, value: string)
    ensures MatchesLine(BuildLookupPattern(optionsHash), value)
       <==> ExtendsOnOneLine(LookupPrefix(optionsHash), value)
    ensures NewlineFree(value) ==>
              (MatchesLine(BuildLookupPattern(optionsHash), value) <==> LookupPrefix(optionsHash) <= value)
  {
    var prefix := LookupPrefix(optionsHash);
    PatternIsEscapedPrefix(optionsHash);
    EscapedMatchesPrefix(prefix, value);
    if value != [] {
      var shorter := value[..|value| - 1];
      EscapedMatchesPrefix(prefix, shorter);
      assert prefix <= shorter <==> prefix <= value && |prefix| < |value|;
      if prefix <= shorter { assert shorter[|prefix|..] == value[|prefix|..|value| - 1]; }
    }
    if NewlineFree(value) && prefix <= value {
      forall c | c in value[|prefix|..] ensures NotNewline(c) { assert c in value; }
    }
  }

  // ---- A resolved hash extends the unresolved one ----

  predicate HasOther(text: string) { exists i :: 0 <= i < |text| && text[i] != '&' }

  lemma {:induction false} LStripConcat(a: string, b: string)
    requires HasOther(a)
    ensures LStrip(a + b) == LStrip(a) + b && HasOther(LStrip(a))
  {
    assert a != [];
    if a[0] == '&' {
      var i :| 0 <= i < |a| && a[i] != '&';
      assert a[1..][i - 1] == a[i];
      LStripConcat(a[1..], b);
      assert (a + b)[1..] == a[1..] + b;
    }
  }

  lemma {:induction false} RStripConcat(a: string, b: string)
    requires HasOther(b)
    ensures RStrip(a + b) == a + RStrip(b)
  {
    assert b != [];
    var n := |b| - 1;
    if b[n] == '&' {
      var i :| 0 <= i < |b| && b[i] != '&';
      assert b[..n][i] == b[i];
      RStripConcat(a, b[..n]);
      assert (a + b)[..|a + b| - 1] == a + b[..n];
    } else {
      assert (a + b)[|a + b| - 1] == b[n];
    }
  }

  lemma {:induction false} RStripLeavesAmpersands(text: string)
    ensures RStrip(text) <= text
    ensures forall i :: |RStrip(text)| <= i < |text| ==> text[i] == '&'
  {
    if text != [] && text[|text| - 1] == '&' { RStripLeavesAmpersands(text[..|text| - 1]); }
  }

  lemma {:induction false} JoinKeeps(parts: seq<string>, i: nat, k: nat)
    requires i < |parts| && k < |parts[i]| && parts[i][k] != '&'
    ensures HasOther(Join(parts))
  {
    var n := |parts| - 1;
    if n == 0 {
      assert Join(parts)[k] == parts[0][k];
    } else if i == n {
      var head := Join(parts[..n]) + "&";
      assert (head + parts[n])[|head| + k] == parts[n][k];
    } else {
      JoinKeeps(parts[..n], i, k);
      var j :| 0 <= j < |Join(parts[..n])| && Join(parts[..n])[j] != '&';
      assert Join(parts)[j] == Join(parts[..n])[j];
    }
  }

  /** A hash without a worker app, whether the app is unresolved or its name is empty. */
  lemma UnresolvedHash(options: map<string, OptionValue>, bundle: RuntimeBundle)
    requires bundle.runtimeAppName.None? || bundle.runtimeAppName.value == ""
    ensures BuildOptionsHash(options, bundle) == "[" + RStrip(LStrip(Join(HashParts(options, bundle)))) + "]"
  {
    var parts := HashParts(options, bundle);
    assert parts + [] == parts;
  }

  /** The hash with the worker app resolved continues the unresolved hash's text, `&`s and all. */
  lemma ResolvedHash(options: map<string, OptionValue>, bundle: RuntimeBundle, app: string)
    requires app != "" && bundle.runtimeAppName == Some(app)
    ensures BuildOptionsHash(options, bundle)
         == "[" + (LStrip(Join(HashParts(options, bundle))) + ("&runtime_app_name=" + RStrip(app))) + "]"
  {
    var parts := HashParts(options, bundle);
    AppNameLast(options, bundle, app);
    PartsHaveOther(options, bundle);
    StripLast(parts, "runtime_app_name=" + app);
    StripAppName(app);
  }

  lemma AppNameLast(options: map<string, OptionValue>, bundle: RuntimeBundle, app: string)
    requires app != "" && bundle.runtimeAppName == Some(app)
    ensures BuildOptionsHash(options, bundle)
         == "[" + RStrip(LStrip(Join(HashParts(options, bundle) + ["runtime_app_name=" + app]))) + "]"
  {
    assert "runtime_app_name" + "=" + app == "runtime_app_name=" + app;
    assert Named("runtime_app_name", bundle.runtimeAppName) == ["runtime_app_name=" + app];
  }

  lemma PartsHaveOther(options: map<string, OptionValue>, bundle: RuntimeBundle)
    ensures HasOther(Join(HashParts(options, bundle)))
  {
    assert HashParts(options, bundle)[1][0] == 'd';
    JoinKeeps(HashParts(options, bundle), 1, 0);
  }

  lemma StripLast(parts: seq<string>, name: string)
    requires parts != [] && HasOther(Join(parts)) && name != "" && name[0] != '&'
    ensures RStrip(LStrip(Join(parts + [name]))) == LStrip(Join(parts)) + RStrip("&" + name)
  {
    assert (parts + [name])[..|parts|] == parts;
    assert Join(parts + [name]) == Join(parts) + ("&" + name);
    LStripConcat(Join(parts), "&" + name);
    assert ("&" + name)[1] != '&';
    RStripConcat(LStrip(Join(parts)), "&" + name);
  }

  lemma {:induction false} StripAppName(app: string)
    ensures RStrip("&" + ("runtime_app_name=" + app)) == "&runtime_app_name=" + RStrip(app)
  {
    var text := "&" + ("runtime_app_name=" + app);
    assert text == "&runtime_app_name=" + app;
    if app != [] && app[|app| - 1] == '&' {
      StripAppName(app[..|app| - 1]);
      assert text[..|text| - 1] == "&" + ("runtime_app_name=" + app[..|app| - 1]);
    } else {
      assert text[|text| - 1] != '&';
    }
  }

  /** The hash built after resolving a worker app is found by the pattern of the hash built
      before, for every options dictionary and the same versions, exactly when the app's name
      has no newline in it. */
  lemma LookupFindsResolvedHash(options: map<string, OptionValue>, bundle: RuntimeBundle, app: string)
    requires app != "" && (bundle.runtimeAppName.None? || bundle.runtimeAppName.value == "")
    ensures var before := BuildOptionsHash(options, bundle);
            var after := BuildOptionsHash(options, bundle.(runtimeAppName := Some(app)));
            MatchesLine(BuildLookupPattern(before), after) <==> NewlineFree(app)
  {
    UnresolvedHash(options, bundle);
    ResolvedHash(options, bundle.(runtimeAppName := Some(app)), app);
    assert HashParts(options, bundle.(runtimeAppName := Some(app))) == HashParts(options, bundle);
    PatternFindsContinuation(LStrip(Join(HashParts(options, bundle))), app);
  }

  lemma PatternFindsContinuation(text: string, app: string)
    ensures var before, after := "[" + RStrip(text) + "]", "[" + (text + ("&runtime_app_name=" + RStrip(app))) + "]";
            MatchesLine(BuildLookupPattern(before), after) <==> NewlineFree(app)
  {
    var head := RStrip(text);
    var before, after := "[" + head + "]", "[" + (text + ("&runtime_app_name=" + RStrip(app))) + "]";
    PatternFindsExtensions(before, after);
    assert before[..|before| - 1] == "[" + head;
    RStripLeavesAmpersands(text);
    var tail := text[|head|..] + "&runtime_app_name=";
    AmpersandsThenName(text[|head|..]);
    ContinuationSplits(head, text, tail, RStrip(app));
    BracketedExtension("[" + head + "&", after);
    RestOnOneLine(tail[1..], app);
  }

  lemma AmpersandsThenName(ampersands: string)
    requires forall i :: 0 <= i < |ampersands| ==> ampersands[i] == '&'
    ensures var tail := ampersands + "&runtime_app_name=";
            tail[0] == '&' && NewlineFree(tail[1..])
  {
    var tail := ampersands + "&runtime_app_name=";
    forall c | c in tail ensures NotNewline(c) {}
  }

  /** For a value that ends in a bracket, extending on one line means the rest has no newline. */
  lemma BracketedExtension(prefix: string, value: string)
    requires prefix <= value && value != "" && value[|value| - 1] == ']'
    ensures ExtendsOnOneLine(prefix, value) <==> NewlineFree(value[|prefix|..])
  {
  }

  lemma ContinuationSplits(head: string, text: string, tail: string, app: string)
    requires head <= text && tail == text[|head|..] + "&runtime_app_name=" && tail[0] == '&'
    ensures var prefix, after := "[" + head + "&", "[" + (text + ("&runtime_app_name=" + app)) + "]";
            prefix <= after && after[|prefix|..] == tail[1..] + app + "]" && after[|after| - 1] == ']'
  {
    var prefix, after := "[" + head + "&", "[" + (text + ("&runtime_app_name=" + app)) + "]";
    assert text == head + text[|head|..];
    assert text + ("&runtime_app_name=" + app) == head + (tail + app);
    assert tail == ['&'] + tail[1..];
    assert after == prefix + (tail[1..] + app + "]");
  }

  lemma RestOnOneLine(tail: string, app: string)
    requires NewlineFree(tail)
    ensures NewlineFree(tail + RStrip(app) + "]") <==> NewlineFree(app)
  {
    var rest := tail + RStrip(app) + "]";
    RStripLeavesAmpersands(app);
    if NewlineFree(rest) {
      forall c | c in app ensures NotNewline(c) {
        var i :| 0 <= i < |app| && app[i] == c;
        if i < |RStrip(app)| { assert rest[|tail| + i] == c; }
      }
    }
    if NewlineFree(app) {
      forall c | c in rest ensures NotNewline(c) {
        if c in RStrip(app) { assert c in app; }
      }
    }
  }

  // ---- A hash identifies its runtime bundle ----

  predicate AmpersandFree(text: string) { forall i :: 0 <= i < |text| ==> text[i] != '&' }

  /** Parts that are not empty and have no ampersand. */
  predicate Proper(parts: seq<string>) { forall i :: 0 <= i < |parts| ==> parts[i] != "" && AmpersandFree(parts[i]) }

  /** The text of a version that the hash names: a missing one reads like an empty one. */
  function NamedText(version: Option<string>): string { if version.Some? then version.value else "" }

  predicate SameBundle(a: RuntimeBundle, b: RuntimeBundle) {
    && a.dataset == b.dataset && ModelText(a) == ModelText(b)
    && NamedText(a.dataVersion) == NamedText(b.dataVersion)
    && NamedText(a.policyengineVersion) == NamedText(b.policyengineVersion)
    && NamedText(a.runtimeAppName) == NamedText(b.runtimeAppName)
  }

  predicate BundleAmpersandFree(bundle: RuntimeBundle) {
    && AmpersandFree(bundle.dataset) && AmpersandFree(ModelText(bundle)) && AmpersandFree(NamedText(bundle.dataVersion))
    && AmpersandFree(NamedText(bundle.policyengineVersion)) && AmpersandFree(NamedText(bundle.runtimeAppName))
  }

  /** The parts after the option pairs. */
  function BundleParts(options: map<string, OptionValue>, bundle: RuntimeBundle): seq<string> {
    ["dataset=" + bundle.dataset, "model_version=" + ModelText(bundle)]
    + (Named("data_version", bundle.dataVersion)
       + (Named("policyengine_version", bundle.policyengineVersion)
          + (SchemaParts(options) + Named("runtime_app_name", bundle.runtimeAppName))))
  }

  lemma {:induction false} JoinFirst(first: string, rest: seq<string>)
    requires rest != []
    ensures Join([first] + rest) == first + ("&" + Join(rest))
  {
    var n := |rest| - 1;
    assert ([first] + rest)[..n + 1] == [first] + rest[..n];
    if n > 0 {
      JoinFirst(first, rest[..n]);
      assert first + ("&" + Join(rest[..n])) + "&" + rest[n] == first + ("&" + (Join(rest[..n]) + "&" + rest[n]));
    } else {
      assert rest[..0] == [];
      assert [first] + [] == [first];
    }
  }

  lemma {:induction false} LStripAmpersands(a: string, b: string)
    requires !HasOther(a)
    ensures LStrip(a + b) == LStrip(b)
  {
    if a == [] {
      assert a + b == b;
    } else {
      assert (a + b)[1..] == a[1..] + b;
      LStripAmpersands(a[1..], b);
    }
  }

  /** What stripping leaves of the option pairs and the ampersand after them. */
  function Front(pairs: string): string { if HasOther(pairs) then LStrip(pairs) + "&" else "" }

  lemma StrippedText(pairs: string, rest: string)
    requires rest != "" && rest[0] != '&' && rest[|rest| - 1] != '&'
    ensures RStrip(LStrip(pairs + ("&" + rest))) == Front(pairs) + rest
  {
    StrippedFront(pairs, rest);
    RStripNothing(Front(pairs), rest);
  }

  lemma StrippedFront(pairs: string, rest: string)
    requires rest != "" && rest[0] != '&'
    ensures LStrip(pairs + ("&" + rest)) == Front(pairs) + rest
  {
    if HasOther(pairs) {
      LStripConcat(pairs, "&" + rest);
      assert LStrip(pairs) + ("&" + rest) == LStrip(pairs) + "&" + rest;
    } else {
      LStripAmpersands(pairs, "&" + rest);
      assert ("&" + rest)[1..] == rest;
    }
  }

  lemma RStripNothing(front: string, rest: string)
    requires rest != "" && rest[|rest| - 1] != '&'
    ensures RStrip(front + rest) == front + rest
  {
    assert (front + rest)[|front + rest| - 1] == rest[|rest| - 1];
  }

  /** Splitting off the last part leaves no choice. */
  lemma LastPart(x: string, u: string, y: string, v: string)
    requires AmpersandFree(u) && AmpersandFree(v) && x + "&" + u == y + "&" + v
    ensures x == y && u == v
  {
    var text := x + "&" + u;
    assert text[|x|] == '&' && text[|y|] == '&';
    assert forall i :: |x| < i < |text| ==> text[i] == u[i - |x| - 1];
    assert forall i :: |y| < i < |text| ==> text[i] == v[i - |y| - 1];
    assert x == text[..|x|] && u == text[|x| + 1..];
  }

  lemma {:induction false} JoinIsInjective(a: seq<string>, b: seq<string>)
    requires a != [] && b != [] && Proper(a) && Proper(b)
    requires Join(a) == Join(b)
    ensures a == b
  {
    var n, k := |a| - 1, |b| - 1;
    if n > 0 && k > 0 {
      LastPart(Join(a[..n]), a[n], Join(b[..k]), b[k]);
      JoinIsInjective(a[..n], b[..k]);
      assert a == a[..n] + [a[n]] && b == b[..k] + [b[k]];
    } else {
      JoinOfSeveral(a);
      JoinOfSeveral(b);
    }
  }

  lemma JoinOfSeveral(parts: seq<string>)
    requires parts != []
    ensures |parts| > 1 ==> !AmpersandFree(Join(parts))
    ensures |parts| == 1 ==> Join(parts) == parts[0]
  {
    var n := |parts| - 1;
    if n > 0 { assert Join(parts)[|Join(parts[..n])|] == '&'; }
  }

  lemma JoinEnds(parts: seq<string>)
    requires parts != [] && parts[0] != "" && parts[|parts| - 1] != ""
    ensures Join(parts) != "" && Join(parts)[0] == parts[0][0]
    ensures Join(parts)[|Join(parts)| - 1] == parts[|parts| - 1][|parts[|parts| - 1]| - 1]
  {
    var n := |parts| - 1;
    if n > 0 {
      JoinFirst(parts[0], parts[1..]);
      assert parts == [parts[0]] + parts[1..];
    }
  }

  /** The list does not start with a part that starts with this letter. */
  predicate StartsOtherwise(parts: seq<string>, c: char) { parts == [] || (parts[0] != "" && parts[0][0] != c) }

  lemma SplitNamed(name: string, v: Option<string>, x: seq<string>, w: Option<string>, y: seq<string>)
    requires name != "" && StartsOtherwise(x, name[0]) && StartsOtherwise(y, name[0])
    requires Named(name, v) + x == Named(name, w) + y
    ensures NamedText(v) == NamedText(w) && x == y
  {
    var whole := Named(name, v) + x;
    var i, j := |Named(name, v)|, |Named(name, w)|;
    assert i > 0 ==> whole[0] == name + "=" + v.value && whole[0][0] == name[0];
    assert j > 0 ==> whole[0] == name + "=" + w.value && whole[0][0] == name[0];
    assert i == 0 ==> StartsOtherwise(whole, name[0]);
    assert j == 0 ==> StartsOtherwise(whole, name[0]);
    assert i == j;
    assert x == whole[i..] && y == whole[j..];
    if i > 0 { SamePrefix(name + "=", v.value, w.value); }
  }

  lemma SamePrefix(prefix: string, a: string, b: string)
    requires prefix + a == prefix + b
    ensures a == b
  {
    assert a == (prefix + a)[|prefix|..] && b == (prefix + b)[|prefix|..];
  }

  lemma NamedStartsWith(name: string, version: Option<string>, c: char)
    requires name != "" && name[0] != c
    ensures StartsOtherwise(Named(name, version), c)
  {
  }

  lemma SchemaPartsProper(options: map<string, OptionValue>)
    ensures Proper(SchemaParts(options))
    ensures SchemaParts(options) != [] ==> SchemaParts(options)[0] != "" && SchemaParts(options)[0][0] in "sb"
  {
    var spm, breakdown := "spm_provenance_schema=" + SPM_PROVENANCE_SCHEMA,
                          "breakdown_schema=" + LOCAL_AREA_BREAKDOWN_RESULT_SCHEMA_VERSION;
    assert AmpersandFree("spm_provenance_schema=") && AmpersandFree(SPM_PROVENANCE_SCHEMA);
    assert AmpersandFree(spm) && spm[0] == 's';
    assert AmpersandFree(breakdown) && breakdown[0] == 'b';
  }

  lemma SchemaPartsStart(options: map<string, OptionValue>, app: Option<string>)
    ensures var parts := SchemaParts(options) + Named("runtime_app_name", app);
            StartsOtherwise(parts, 'd') && StartsOtherwise(parts, 'p')
  {
    NamedStartsWith("runtime_app_name", app, 'd');
    NamedStartsWith("runtime_app_name", app, 'p');
    SchemaPartsProper(options);
    if SchemaParts(options) == [] {
      assert SchemaParts(options) + Named("runtime_app_name", app) == Named("runtime_app_name", app);
    }
  }

  lemma VersionPartsIdentify(versionA: Option<string>, versionB: Option<string>, x: seq<string>, y: seq<string>,
                             dataA: Option<string>, dataB: Option<string>)
    requires StartsOtherwise(x, 'd') && StartsOtherwise(x, 'p') && StartsOtherwise(y, 'd') && StartsOtherwise(y, 'p')
    requires Named("data_version", dataA) + (Named("policyengine_version", versionA) + x)
          == Named("data_version", dataB) + (Named("policyengine_version", versionB) + y)
    ensures NamedText(dataA) == NamedText(dataB) && NamedText(versionA) == NamedText(versionB) && x == y
  {
    OtherwiseAfterNamed("policyengine_version", versionA, x, 'd');
    OtherwiseAfterNamed("policyengine_version", versionB, y, 'd');
    SplitNamed("data_version", dataA, Named("policyengine_version", versionA) + x,
               dataB, Named("policyengine_version", versionB) + y);
    SplitNamed("policyengine_version", versionA, x, versionB, y);
  }

  lemma OtherwiseAfterNamed(name: string, version: Option<string>, rest: seq<string>, c: char)
    requires name != "" && name[0] != c && StartsOtherwise(rest, c)
    ensures StartsOtherwise(Named(name, version) + rest, c)
  {
    NamedStartsWith(name, version, c);
    if Named(name, version) == [] { assert Named(name, version) + rest == rest; }
  }

  lemma BundlePartsIdentify(options: map<string, OptionValue>, a: RuntimeBundle, b: RuntimeBundle)
    requires BundleParts(options, a) == BundleParts(options, b)
    ensures SameBundle(a, b)
  {
    var partsA, partsB := BundleParts(options, a), BundleParts(options, b);
    assert partsA[0] == "dataset=" + a.dataset && partsB[0] == "dataset=" + b.dataset;
    assert partsA[1] == "model_version=" + ModelText(a) && partsB[1] == "model_version=" + ModelText(b);
    SamePrefix("dataset=", a.dataset, b.dataset);
    SamePrefix("model_version=", ModelText(a), ModelText(b));
    var x := SchemaParts(options) + Named("runtime_app_name", a.runtimeAppName);
    var y := SchemaParts(options) + Named("runtime_app_name", b.runtimeAppName);
    SchemaPartsStart(options, a.runtimeAppName);
    SchemaPartsStart(options, b.runtimeAppName);
    assert partsA[2..] == Named("data_version", a.dataVersion) + (Named("policyengine_version", a.policyengineVersion) + x);
    assert partsB[2..] == Named("data_version", b.dataVersion) + (Named("policyengine_version", b.policyengineVersion) + y);
    VersionPartsIdentify(a.policyengineVersion, b.policyengineVersion, x, y, a.dataVersion, b.dataVersion);
    assert Named("runtime_app_name", a.runtimeAppName) == x[|SchemaParts(options)|..];
    assert Named("runtime_app_name", b.runtimeAppName) == y[|SchemaParts(options)|..];
    SplitNamed("runtime_app_name", a.runtimeAppName, [], b.runtimeAppName, []);
  }

  lemma NamedProper(name: string, version: Option<string>)
    requires AmpersandFree(name) && AmpersandFree(NamedText(version))
    ensures Proper(Named(name, version))
  {
  }

  lemma ProperTogether(a: seq<string>, b: seq<string>)
    requires Proper(a) && Proper(b)
    ensures Proper(a + b)
  {
  }

  lemma BundlePartsProper(options: map<string, OptionValue>, bundle: RuntimeBundle)
    requires BundleAmpersandFree(bundle)
    ensures Proper(BundleParts(options, bundle)) && BundleParts(options, bundle) != []
  {
    var app := Named("runtime_app_name", bundle.runtimeAppName);
    var version := Named("policyengine_version", bundle.policyengineVersion);
    var data := Named("data_version", bundle.dataVersion);
    NamedProper("data_version", bundle.dataVersion);
    NamedProper("policyengine_version", bundle.policyengineVersion);
    NamedProper("runtime_app_name", bundle.runtimeAppName);
    SchemaPartsProper(options);
    ProperTogether(SchemaParts(options), app);
    ProperTogether(version, SchemaParts(options) + app);
    ProperTogether(data, version + (SchemaParts(options) + app));
    FirstPartsProper(bundle);
    ProperTogether(["dataset=" + bundle.dataset, "model_version=" + ModelText(bundle)],
                   data + (version + (SchemaParts(options) + app)));
  }

  lemma FirstPartsProper(bundle: RuntimeBundle)
    requires BundleAmpersandFree(bundle)
    ensures Proper(["dataset=" + bundle.dataset, "model_version=" + ModelText(bundle)])
  {
  }

  lemma AppendInnermost(a: seq<string>, b: seq<string>, c: seq<string>, d: seq<string>, e: seq<string>, f: seq<string>)
    ensures (a + (b + (c + (d + e)))) + f == a + (b + (c + (d + (e + f))))
  {
  }

  lemma HashForm(options: map<string, OptionValue>, bundle: RuntimeBundle)
    requires BundleAmpersandFree(bundle)
    ensures BuildOptionsHash(options, bundle)
         == "[" + (Front(OptionPairs(options)) + Join(BundleParts(options, bundle))) + "]"
  {
    var parts := BundleParts(options, bundle);
    AppendInnermost([OptionPairs(options)], ["dataset=" + bundle.dataset, "model_version=" + ModelText(bundle)],
                    Named("data_version", bundle.dataVersion), Named("policyengine_version", bundle.policyengineVersion),
                    SchemaParts(options), Named("runtime_app_name", bundle.runtimeAppName));
    BundlePartsProper(options, bundle);
    StrippedJoin(OptionPairs(options), parts);
  }

  lemma StrippedJoin(pairs: string, parts: seq<string>)
    requires Proper(parts) && parts != []
    ensures RStrip(LStrip(Join([pairs] + parts))) == Front(pairs) + Join(parts)
  {
    JoinFirst(pairs, parts);
    JoinEnds(parts);
    StrippedText(pairs, Join(parts));
  }

  lemma BracketsAside(front: string, a: string, b: string)
    requires "[" + (front + a) + "]" == "[" + (front + b) + "]"
    ensures a == b
  {
    var text := "[" + (front + a) + "]";
    assert a == text[1 + |front|..|text| - 1] && b == text[1 + |front|..|text| - 1];
  }

  /** For the same options, two hashes are equal exactly if they name the same dataset, versions and
      worker application: nothing of the bundle is lost by joining and stripping. A missing version
      counts as an empty one, and the names must have no ampersand. */
  lemma HashIdentifiesBundle(options: map<string, OptionValue>, a: RuntimeBundle, b: RuntimeBundle)
    requires BundleAmpersandFree(a) && BundleAmpersandFree(b)
    ensures BuildOptionsHash(options, a) == BuildOptionsHash(options, b) <==> SameBundle(a, b)
  {
    HashForm(options, a);
    HashForm(options, b);
    if BuildOptionsHash(options, a) == BuildOptionsHash(options, b) {
      BracketsAside(Front(OptionPairs(options)), Join(BundleParts(options, a)), Join(BundleParts(options, b)));
      BundlePartsProper(options, a);
      BundlePartsProper(options, b);
      JoinIsInjective(BundleParts(options, a), BundleParts(options, b));
      BundlePartsIdentify(options, a, b);
    }
  }

  lemma {:induction false} JoinMerges(before: seq<string>, a: string, b: string, after: seq<string>)
    requires before != []
    ensures Join(before + [a + "&" + b] + after) == Join(before + [a, b] + after)
  {
    if after == [] {
      var merged, apart := before + [a + "&" + b], before + [a, b];
      assert merged + [] == merged && apart + [] == apart;
      assert merged[..|before|] == before && apart[..|before| + 1] == before + [a];
      assert (before + [a])[..|before|] == before;
      assert Join(before) + "&" + (a + "&" + b) == Join(before) + "&" + a + "&" + b;
    } else {
      var n := |after| - 1;
      JoinMerges(before, a, b, after[..n]);
      assert (before + [a + "&" + b] + after)[..|before| + 1 + n] == before + [a + "&" + b] + after[..n];
      assert (before + [a, b] + after)[..|before| + 2 + n] == before + [a, b] + after[..n];
    }
  }

  lemma GroupParts(a: seq<string>, b: seq<string>, c: seq<string>, d: seq<string>, e: seq<string>, f: seq<string>)
    ensures (a + (b + (c + (d + e)))) + f == (a + b) + (c + d) + (e + f)
  {
  }

  lemma VersionsInHash(options: map<string, OptionValue>, bundle: RuntimeBundle, versions: seq<string>)
    requires versions == Named("data_version", bundle.dataVersion) + Named("policyengine_version", bundle.policyengineVersion)
    ensures HashParts(options, bundle) + Named("runtime_app_name", bundle.runtimeAppName)
         == ([OptionPairs(options)] + ["dataset=" + bundle.dataset, "model_version=" + ModelText(bundle)])
            + versions + (SchemaParts(options) + Named("runtime_app_name", bundle.runtimeAppName))
  {
    GroupParts([OptionPairs(options)], ["dataset=" + bundle.dataset, "model_version=" + ModelText(bundle)],
               Named("data_version", bundle.dataVersion), Named("policyengine_version", bundle.policyengineVersion),
               SchemaParts(options), Named("runtime_app_name", bundle.runtimeAppName));
  }

  /** Names with ampersands can collide: one data version that contains `&policyengine_version=`
      reads like two versions, so different bundles share a hash. */
  lemma AmpersandsCollide(options: map<string, OptionValue>, bundle: RuntimeBundle, data: string, version: string)
    requires data != "" && version != ""
    ensures var a := bundle.(dataVersion := Some(data + "&" + ("policyengine_version=" + version)), policyengineVersion := None);
            var b := bundle.(dataVersion := Some(data), policyengineVersion := Some(version));
            BuildOptionsHash(options, a) == BuildOptionsHash(options, b) && !SameBundle(a, b)
  {
    var a := bundle.(dataVersion := Some(data + "&" + ("policyengine_version=" + version)), policyengineVersion := None);
    var b := bundle.(dataVersion := Some(data), policyengineVersion := Some(version));
    var first, second := "data_version=" + data, "policyengine_version=" + version;
    assert "data_version" + "=" == "data_version=" && "policyengine_version" + "=" == "policyengine_version=";
    assert "data_version=" + (data + "&" + second) == first + "&" + second;
    SameTextSameHash(options, a, b, first, second);
  }

  /** One version's text that reads like two versions. */
  lemma SameTextSameHash(options: map<string, OptionValue>, a: RuntimeBundle, b: RuntimeBundle, first: string, second: string)
    requires a.dataset == b.dataset && a.modelVersion == b.modelVersion && a.runtimeAppName == b.runtimeAppName
    requires Named("data_version", a.dataVersion) + Named("policyengine_version", a.policyengineVersion) == [first + "&" + second]
    requires Named("data_version", b.dataVersion) + Named("policyengine_version", b.policyengineVersion) == [first, second]
    ensures BuildOptionsHash(options, a) == BuildOptionsHash(options, b)
  {
    VersionsInHash(options, a, [first + "&" + second]);
    VersionsInHash(options, b, [first, second]);
    JoinMerges([OptionPairs(options)] + ["dataset=" + a.dataset, "model_version=" + ModelText(a)], first, second,
               SchemaParts(options) + Named("runtime_app_name", a.runtimeAppName));
  }
}
