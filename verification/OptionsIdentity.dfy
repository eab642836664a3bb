/** A hash identifies its options as well: what two requests have in common when one's pattern finds the other's hash. */
module OptionsIdentity {
  import opened OptionsHash
  import Text

  /** An option whose text can be read back: only None is written "None", and nothing in it is a separator. */
  predicate PlainOption(key: string, value: OptionValue) {
    && key != "" && key != "dataset" && AmpersandFree(key) && !('=' in key)
    && AmpersandFree(value.text) && (value.isNone <==> value.text == "None")
  }

  predicate Plain(options: map<string, OptionValue>) {
    forall key :: key in options ==> PlainOption(key, options[key])
  }

  lemma PairAt(options: map<string, OptionValue>, i: nat)
    requires Plain(options) && i < |Pairs(options)|
    ensures var key := SortedKeys(options)[i];
            key in options && PlainOption(key, options[key]) && Pairs(options)[i] == Pair(key, options[key])
  {
    assert SortedKeys(options)[i] in SortedKeys(options);
  }

  lemma PairProper(key: string, value: OptionValue)
    requires PlainOption(key, value)
    ensures Pair(key, value) != "" && AmpersandFree(Pair(key, value))
  {
  }

  lemma PairsProper(options: map<string, OptionValue>)
    requires Plain(options)
    ensures Proper(Pairs(options))
  {
    forall i | 0 <= i < |Pairs(options)| ensures Pairs(options)[i] != "" && AmpersandFree(Pairs(options)[i]) {
      PairAt(options, i);
      PairProper(SortedKeys(options)[i], options[SortedKeys(options)[i]]);
    }
  }

  // ---- The hash as one list of parts ----

  lemma JoinLast(parts: seq<string>, rest: seq<string>, last: string)
    requires rest != [] && parts == rest + [last]
    ensures Join(parts) == Join(rest) + "&" + last
  {
    assert parts[..|rest|] == rest;
  }

  lemma Regroup(x: string, y: string, z: string)
    ensures (x + ("&" + y)) + "&" + z == x + ("&" + (y + "&" + z))
  {
  }

  lemma {:induction false} JoinTogether(a: seq<string>, b: seq<string>)
    requires a != [] && b != []
    ensures Join(a + b) == Join(a) + ("&" + Join(b))
  {
    var n := |b| - 1;
    var rest, last := b[..n], b[n];
    assert b == rest + [last] && a + b == (a + rest) + [last];
    if n > 0 {
      JoinTogether(a, rest);
      JoinLast(a + b, a + rest, last);
      JoinLast(b, rest, last);
      Regroup(Join(a), Join(rest), last);
    } else {
      JoinLast(a + b, a, last);
    }
  }

  lemma FrontJoins(pairs: seq<string>, parts: seq<string>)
    requires Proper(pairs) && parts != []
    ensures Front(Join(pairs)) + Join(parts) == Join(pairs + parts)
  {
    if pairs == [] {
      assert pairs + parts == parts;
    } else {
      JoinTogether(pairs, parts);
      JoinEnds(pairs);
      NothingStripped(Join(pairs));
      assert Join(pairs) + "&" + Join(parts) == Join(pairs) + ("&" + Join(parts));
    }
  }

  /** For plain options nothing is stripped: the hash joins the pairs and the bundle's parts. */
  lemma PlainHash(options: map<string, OptionValue>, bundle: RuntimeBundle)
    requires Plain(options) && BundleAmpersandFree(bundle)
    ensures BuildOptionsHash(options, bundle) == "[" + Join(Pairs(options) + BundleParts(options, bundle)) + "]"
    ensures Proper(Pairs(options) + BundleParts(options, bundle))
  {
    HashForm(options, bundle);
    PairsProper(options);
    BundlePartsProper(options, bundle);
    ProperTogether(Pairs(options), BundleParts(options, bundle));
    FrontJoins(Pairs(options), BundleParts(options, bundle));
  }

  lemma NothingStripped(text: string)
    requires text != "" && text[0] != '&'
    ensures Front(text) == text + "&"
  {
  }

  // ---- Reading the parts back from a prefix ----

  /** Joined parts that are continued by an ampersand are the first of the parts that they are joined into. */
  lemma {:induction false} PrefixParts(a: seq<string>, b: seq<string>)
    requires Proper(a) && Proper(b) && a != [] && b != []
    requires Join(a) + "&" <= Join(b) || Join(a) == Join(b)
    ensures |a| <= |b| && a == b[..|a|]
  {
    if Join(a) == Join(b) {
      JoinIsInjective(a, b);
    } else {
      SplitFirst(a);
      SplitFirst(b);
      var restA, restB := TextAfterFirst(a), TextAfterFirst(b);
      SamePrefixPart(a[0], restA + "&", b[0], restB);
      if |a| > 1 {
        assert restA == "&" + Join(a[1..]) && |b| > 1 && restB == "&" + Join(b[1..]);
        DropAmpersand(Join(a[1..]), Join(b[1..]));
        PrefixParts(a[1..], b[1..]);
        assert a == [a[0]] + a[1..] && b == [b[0]] + b[1..];
      }
    }
  }

  lemma DropAmpersand(x: string, y: string)
    requires "&" + x + "&" <= "&" + y
    ensures x + "&" <= y
  {
    assert x + "&" == ("&" + x + "&")[1..] && y == ("&" + y)[1..];
  }

  /** What follows the first part, with the ampersand before it. */
  function TextAfterFirst(parts: seq<string>): string
    requires parts != []
  {
    if |parts| == 1 then "" else "&" + Join(parts[1..])
  }

  lemma SplitFirst(parts: seq<string>)
    requires parts != []
    ensures Join(parts) == parts[0] + TextAfterFirst(parts)
  {
    if |parts| > 1 {
      JoinFirst(parts[0], parts[1..]);
      assert parts == [parts[0]] + parts[1..];
    }
  }

  /** Two texts without ampersands, each followed by one or by nothing: if the one is followed by one
      and with it begins the other, they are equal. */
  lemma SamePrefixPart(u: string, afterU: string, v: string, afterV: string)
    requires AmpersandFree(u) && AmpersandFree(v) && afterU != "" && afterU[0] == '&'
    requires afterV == "" || afterV[0] == '&'
    requires u + afterU <= v + afterV
    ensures u == v && afterU <= afterV
  {
    var text := v + afterV;
    FirstAmpersand(u, afterU);
    FirstAmpersand(v, afterV);
    assert text[|u|] == (u + afterU)[|u|] == '&';
    assert forall i :: 0 <= i < |u| ==> text[i] == (u + afterU)[i];
    assert |u| == |v|;
    assert u == text[..|u|] && v == text[..|v|];
    AfterPrefix(u, afterU, afterV);
  }

  lemma FirstAmpersand(u: string, afterU: string)
    requires AmpersandFree(u) && (afterU == "" || afterU[0] == '&')
    ensures forall i :: 0 <= i < |u| ==> (u + afterU)[i] != '&'
    ensures afterU != "" ==> (u + afterU)[|u|] == '&'
  {
  }

  lemma AfterPrefix(u: string, x: string, y: string)
    requires u + x <= u + y
    ensures x <= y
  {
    assert x == (u + x)[|u|..] && y == (u + y)[|u|..];
  }

  /** The one hash's pattern finds the other: it is the same or extends it. */
  predicate Finds(a: string, b: string) { a == b || LookupPrefix(a) <= b }

  lemma FoundText(x: string, y: string)
    requires Finds("[" + x + "]", "[" + y + "]")
    ensures x == y || x + "&" <= y
  {
    var hashX, hashY := "[" + x + "]", "[" + y + "]";
    assert x == hashX[1..|hashX| - 1] && y == hashY[1..|hashY| - 1];
    if hashX != hashY {
      assert hashX[..|hashX| - 1] == "[" + x;
      assert "[" + x + "&" <= hashY;
      ContinuedText(x, y);
    }
  }

  lemma ContinuedText(x: string, y: string)
    requires "[" + x + "&" <= "[" + y + "]"
    ensures x + "&" <= y
  {
    var prefix, whole := "[" + x + "&", "[" + y + "]";
    assert prefix[|x| + 1] == '&' && whole[|x| + 1] == '&' && whole[|y| + 1] == ']';
    assert |x| < |y|;
    assert x + "&" == prefix[1..] && prefix[1..] == whole[1..|x| + 2];
    assert y[..|x| + 1] == whole[1..|x| + 2];
  }

  lemma FoundParts(a: seq<string>, b: seq<string>)
    requires Proper(a) && Proper(b) && a != [] && b != []
    requires Finds("[" + Join(a) + "]", "[" + Join(b) + "]")
    ensures |a| <= |b| && a == b[..|a|]
  {
    FoundText(Join(a), Join(b));
    PrefixParts(a, b);
  }

  // ---- The options ----

  predicate NamesDataset(part: string) { "dataset=" <= part }

  lemma PairNamesNoDataset(key: string, value: OptionValue)
    requires PlainOption(key, value)
    ensures !NamesDataset(Pair(key, value))
  {
    if NamesDataset(Pair(key, value)) { PairReadsBack("dataset", Pair(key, value)[8..], key, value.text); }
  }

  lemma PairReadsBack(keyA: string, textA: string, keyB: string, textB: string)
    requires !('=' in keyA) && !('=' in keyB) && keyA + "=" + textA == keyB + "=" + textB
    ensures keyA == keyB && textA == textB
  {
    Text.SplitsOnce('=', keyA, textA, keyB, textB);
  }

  /** The dataset's part is the first of its kind, so it tells where the pairs end. */
  lemma PairsEndAtDataset(options: map<string, OptionValue>, bundle: RuntimeBundle)
    requires Plain(options)
    ensures var parts := Pairs(options) + BundleParts(options, bundle);
            && |parts| > |Pairs(options)| && NamesDataset(parts[|Pairs(options)|])
            && forall i :: 0 <= i < |Pairs(options)| ==> !NamesDataset(parts[i])
  {
    var parts := Pairs(options) + BundleParts(options, bundle);
    assert parts[|Pairs(options)|] == "dataset=" + bundle.dataset;
    forall i | 0 <= i < |Pairs(options)| ensures !NamesDataset(parts[i]) {
      PairAt(options, i);
      PairNamesNoDataset(SortedKeys(options)[i], options[SortedKeys(options)[i]]);
    }
  }

  lemma SamePairs(options: map<string, OptionValue>, bundle: RuntimeBundle, other: map<string, OptionValue>,
                  otherBundle: RuntimeBundle)
    requires Plain(options) && Plain(other)
    requires var a, b := Pairs(options) + BundleParts(options, bundle), Pairs(other) + BundleParts(other, otherBundle);
             |a| <= |b| && a == b[..|a|]
    ensures Pairs(options) == Pairs(other)
  {
    var a, b := Pairs(options) + BundleParts(options, bundle), Pairs(other) + BundleParts(other, otherBundle);
    PairsEndAtDataset(options, bundle);
    PairsEndAtDataset(other, otherBundle);
    assert forall i :: 0 <= i < |a| ==> a[i] == b[i];
    assert |Pairs(options)| == |Pairs(other)|;
    assert Pairs(options) == a[..|Pairs(options)|] && Pairs(other) == b[..|Pairs(other)|];
  }

  lemma SamePairAt(a: map<string, OptionValue>, b: map<string, OptionValue>, i: nat)
    requires Plain(a) && Plain(b) && Pairs(a) == Pairs(b) && i < |Pairs(a)|
    ensures var key := SortedKeys(a)[i];
            key == SortedKeys(b)[i] && key in a && key in b && a[key] == b[key]
  {
    PairAt(a, i);
    PairAt(b, i);
    var keyA, keyB := SortedKeys(a)[i], SortedKeys(b)[i];
    PairReadsBack(keyA, a[keyA].text, keyB, b[keyB].text);
  }

  /** Each option is at some place among the sorted keys. */
  lemma KeyAt(options: map<string, OptionValue>, key: string) returns (i: nat)
    requires key in options
    ensures i < |Pairs(options)| && SortedKeys(options)[i] == key
  {
    assert key in SortedKeys(options);
    i :| 0 <= i < |SortedKeys(options)| && SortedKeys(options)[i] == key;
  }

  lemma PairsIdentifyOption(a: map<string, OptionValue>, b: map<string, OptionValue>, key: string)
    requires Plain(a) && Plain(b) && Pairs(a) == Pairs(b) && key in a
    ensures key in b && a[key] == b[key]
  {
    var i := KeyAt(a, key);
    SamePairAt(a, b, i);
  }

  /** Equal pairs are of equal options. */
  lemma PairsIdentifyOptions(a: map<string, OptionValue>, b: map<string, OptionValue>)
    requires Plain(a) && Plain(b) && Pairs(a) == Pairs(b)
    ensures a == b
  {
    forall key | key in a ensures key in b && a[key] == b[key] { PairsIdentifyOption(a, b, key); }
    forall key | key in b ensures key in a { PairsIdentifyOption(b, a, key); }
  }

  /** A request's pattern finds only jobs with the same options: for plain options and versions
      without ampersands, if the hash built for a request is, or is extended by, the hash built for
      another, both have the same options, whatever worker application either has resolved. */
  lemma FoundHashHasSameOptions(options: map<string, OptionValue>, bundle: RuntimeBundle,
                                other: map<string, OptionValue>, otherBundle: RuntimeBundle)
    requires Plain(options) && Plain(other) && BundleAmpersandFree(bundle) && BundleAmpersandFree(otherBundle)
    requires Finds(BuildOptionsHash(options, bundle), BuildOptionsHash(other, otherBundle))
    ensures options == other
  {
    PlainHash(options, bundle);
    PlainHash(other, otherBundle);
    FoundParts(Pairs(options) + BundleParts(options, bundle), Pairs(other) + BundleParts(other, otherBundle));
    SamePairs(options, bundle, other, otherBundle);
    PairsIdentifyOptions(options, other);
  }

  /** A hash identifies its calculation: hashes of plain options are equal exactly if the options,
      dataset, versions and worker application are. */
  lemma HashIdentifiesCalculation(options: map<string, OptionValue>, bundle: RuntimeBundle,
                                  other: map<string, OptionValue>, otherBundle: RuntimeBundle)
    requires Plain(options) && Plain(other) && BundleAmpersandFree(bundle) && BundleAmpersandFree(otherBundle)
    ensures BuildOptionsHash(options, bundle) == BuildOptionsHash(other, otherBundle)
       <==> options == other && SameBundle(bundle, otherBundle)
  {
    HashIdentifiesBundle(options, bundle, otherBundle);
    if BuildOptionsHash(options, bundle) == BuildOptionsHash(other, otherBundle) {
      FoundHashHasSameOptions(options, bundle, other, otherBundle);
    }
  }
}
