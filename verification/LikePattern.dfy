/** SQL LIKE, matched by translating the pattern to a Python regular expression. */
module LikePattern {
  import opened Outcome

  // ---- The meaning of a LIKE pattern ----

  /** `%` matches any text, `_` any one character, a backslash makes the next character
      itself, and a backslash at the end is itself. `wild` says what `%` and `_` may match. */
  predicate LikeOver(pattern: string, value: string, wild: char -> bool)
    decreases |pattern| + |value|
  {
    if pattern == [] then value == []
    else if pattern[0] == '\\' then
      if |pattern| == 1 then value == "\\"
      else value != [] && value[0] == pattern[1] && LikeOver(pattern[2..], value[1..], wild)
    else if pattern[0] == '%' then
      LikeOver(pattern[1..], value, wild) || (value != [] && wild(value[0]) && LikeOver(pattern, value[1..], wild))
    else if pattern[0] == '_' then value != [] && wild(value[0]) && LikeOver(pattern[1..], value[1..], wild)
    else value != [] && value[0] == pattern[0] && LikeOver(pattern[1..], value[1..], wild)
  }

  predicate NotNewline(c: char) { c != '\n' }

  predicate NewlineFree(text: string) { forall c :: c in text ==> NotNewline(c) }

  predicate Anything(c: char) { true }

  predicate Like(pattern: string, value: string) { LikeOver(pattern, value, Anything) }

  /** LIKE whose wildcards stop at a line's end. */
  predicate LineLike(pattern: string, value: string) { LikeOver(pattern, value, NotNewline) }

  lemma {:induction false} LineLikeIsLike(pattern: string, value: string)
    requires NewlineFree(value)
    ensures LineLike(pattern, value) == Like(pattern, value)
    decreases |pattern| + |value|
  {
    if pattern != [] {
      if pattern[0] == '\\' {
        if |pattern| > 1 && value != [] { LineLikeIsLike(pattern[2..], value[1..]); }
      } else {
        if pattern[0] == '%' { LineLikeIsLike(pattern[1..], value); }
        if value != [] {
          LineLikeIsLike(pattern[1..], value[1..]);
          LineLikeIsLike(pattern, value[1..]);
        }
      }
    }
  }

  // ---- The regular expressions the translation produces ----

  datatype Item = Bol | Eol | Literal(c: char) | AnyOne | AnyMany

  /** Characters with a meaning of their own in a regular expression, or that `re.escape` escapes. */
  predicate Special(c: char) {
    c in "()[]{}?*+-|^$\\.&~# \t\n\r\U{b}\U{c}"
  }

  function ReEscape(c: char): string { if Special(c) then ['\\', c] else [c] }

  /** How Python reads the subset of its syntax that the translation writes; anything else is
      outside that subset. An escaped special character is that character. */
  function Parse(expression: string): Option<seq<Item>> {
    if expression == [] then Some([])
    else if expression[0] == '\\' then
      if |expression| >= 2 && Special(expression[1]) then Before(Literal(expression[1]), Parse(expression[2..]))
      else None
    else if expression[0] == '.' then
      if |expression| >= 2 && expression[1] == '*' then Before(AnyMany, Parse(expression[2..]))
      else Before(AnyOne, Parse(expression[1..]))
    else if expression[0] == '^' then Before(Bol, Parse(expression[1..]))
    else if expression[0] == '$' then Before(Eol, Parse(expression[1..]))
    else if Special(expression[0]) then None
    else Before(Literal(expression[0]), Parse(expression[1..]))
  }

  function Before(item: Item, rest: Option<seq<Item>>): Option<seq<Item>> {
    if rest.Some? then Some([item] + rest.value) else None
  }

  /** Whether the items match `value` from position `i`. A dot never matches a newline, and
      `$` matches at the end or before a newline that ends the value. */
  predicate MatchesFrom(items: seq<Item>, value: string, i: nat)
    requires i <= |value|
    decreases |items|, 0
  {
    if items == [] then true
    else
      match items[0]
      case Bol => i == 0 && MatchesFrom(items[1..], value, i)
      case Eol => (i == |value| || (i + 1 == |value| && value[i] == '\n')) && MatchesFrom(items[1..], value, i)
      case Literal(c) => i < |value| && value[i] == c && MatchesFrom(items[1..], value, i + 1)
      case AnyOne => i < |value| && value[i] != '\n' && MatchesFrom(items[1..], value, i + 1)
      case AnyMany => Skips(items[1..], value, i)
  }

  /** Some text without newlines can be skipped before the rest matches. */
  predicate Skips(rest: seq<Item>, value: string, i: nat)
    requires i <= |value|
    decreases |rest|, 1
  {
    exists k :: i <= k <= |value| && NewlineFree(value[i..k]) && MatchesFrom(rest, value, k)
  }

  /** `re.match(expression, value) is not None`. */
  predicate ReMatch(expression: string, value: string) {
    Parse(expression).Some? && MatchesFrom(Parse(expression).value, value, 0)
  }

  // ---- The translation ----

  /** The items the pattern translates to. */
  function Translated(pattern: string): seq<Item> {
    if pattern == [] then []
    else if pattern[0] == '\\' then
      if |pattern| == 1 then [Literal('\\')] else [Literal(pattern[1])] + Translated(pattern[2..])
    else
      [if pattern[0] == '%' then AnyMany else if pattern[0] == '_' then AnyOne else Literal(pattern[0])]
      + Translated(pattern[1..])
  }

  function WrittenItem(item: Item): string {
    match item
    case Bol => "^"
    case Eol => "$"
    case Literal(c) => ReEscape(c)
    case AnyOne => "."
    case AnyMany => ".*"
  }

  function Written(items: seq<Item>): string {
    if items == [] then [] else WrittenItem(items[0]) + Written(items[1..])
  }

  /** Escaping keeps every character of the pattern from being read as syntax: an item is read
      back as it was written, whatever follows it that does not begin with a star. */
  lemma {:induction false} ParseReadsBack(items: seq<Item>)
    ensures Parse(Written(items)) == Some(items)
    ensures Written(items) == [] || Written(items)[0] != '*'
  {
    if items != [] {
      var text, rest := Written(items), Written(items[1..]);
      ParseReadsBack(items[1..]);
      assert items == [items[0]] + items[1..];
      match items[0]
      case Bol => assert text[1..] == rest;
      case Eol => assert text[1..] == rest;
      case Literal(c) =>
        if Special(c) { assert text[2..] == rest; } else { assert text[1..] == rest; }
      case AnyOne => assert text[1..] == rest;
      case AnyMany => assert text[2..] == rest;
    }
  }

  lemma {:induction false} WrittenToEnd(items: seq<Item>)
    ensures Written(items + [Eol]) == Written(items) + "$"
  {
    var all := items + [Eol];
    if items == [] {
      assert all[1..] == [];
    } else {
      WrittenToEnd(items[1..]);
      assert all[1..] == items[1..] + [Eol];
      var head, tail := WrittenItem(items[0]), Written(items[1..]);
      assert head + (tail + "$") == (head + tail) + "$";
    }
  }

  /** What the loop has still to translate: an escape it has read but not written, and the rest. */
  function Pending(escaped: bool, rest: string): string { if escaped then "\\" + rest else rest }

  /** What one turn of the loop writes for `character`. */
  function Emitted(escaped: bool, character: char): string {
    if escaped then ReEscape(character)
    else
      match character
      case '\\' => ""
      case '%' => ".*"
      case '_' => "."
      case _ => ReEscape(character)
  }

  predicate Escapes(escaped: bool, character: char) { !escaped && character == '\\' }

  /** The loop of `_like_matches`, up to the call of `re.match`: the regular expression for `pattern`. */
  method Expression(pattern: string) returns (expression: string)
    ensures expression == Written([Bol] + Translated(pattern) + [Eol])
  {
    expression := "^";
    var escaped := false;
    for i := 0 to |pattern|
      invariant expression + Written(Translated(Pending(escaped, pattern[i..]))) == "^" + Written(Translated(pattern))
    {
      var character := pattern[i];
      TurnKeeps(expression, escaped, pattern[i..]);
      assert pattern[i..][1..] == pattern[i + 1..];
      var text: string, escapes := "", false;
      if escaped {
        text := ReEscape(character);
      } else if character == '\\' {
        escapes := true;
      } else if character == '%' {
        text := ".*";
      } else if character == '_' {
        text := ".";
      } else {
        text := ReEscape(character);
      }
      expression, escaped := expression + text, escapes;
    }
    assert pattern[|pattern|..] == "";
    if escaped {
      assert Written(Translated("\\")) == ReEscape('\\') by { assert Translated("\\")[1..] == []; }
      expression := expression + ReEscape('\\');
    }
    expression := expression + "$";
    WrittenBetween(Translated(pattern));
  }

  /** A turn of the loop writes what it takes off the pattern. */
  lemma TurnKeeps(expression: string, escaped: bool, rest: string)
    requires rest != []
    ensures (expression + Emitted(escaped, rest[0])) + Written(Translated(Pending(Escapes(escaped, rest[0]), rest[1..])))
         == expression + Written(Translated(Pending(escaped, rest)))
  {
    TranslatedStep(escaped, rest);
    var later := Written(Translated(Pending(Escapes(escaped, rest[0]), rest[1..])));
    assert Written(Translated(Pending(escaped, rest))) == Emitted(escaped, rest[0]) + later;
    assert (expression + Emitted(escaped, rest[0])) + later == expression + (Emitted(escaped, rest[0]) + later);
  }

  lemma WrittenBetween(items: seq<Item>)
    ensures Written([Bol] + items + [Eol]) == "^" + Written(items) + "$"
  {
    WrittenToEnd(items);
    assert ([Bol] + items + [Eol])[1..] == items + [Eol];
  }

  /** What one turn of the loop adds. */
  lemma TranslatedStep(escaped: bool, rest: string)
    requires rest != []
    ensures escaped ==>
              Written(Translated(Pending(true, rest))) == ReEscape(rest[0]) + Written(Translated(rest[1..]))
    ensures !escaped && rest[0] == '\\' ==> Pending(true, rest[1..]) == rest
    ensures !escaped && rest[0] == '%' ==> Written(Translated(rest)) == ".*" + Written(Translated(rest[1..]))
    ensures !escaped && rest[0] == '_' ==> Written(Translated(rest)) == "." + Written(Translated(rest[1..]))
    ensures !escaped && rest[0] !in "\\%_" ==>
              Written(Translated(rest)) == ReEscape(rest[0]) + Written(Translated(rest[1..]))
  {
    var items := Translated(Pending(escaped, rest));
    if escaped {
      assert Pending(true, rest)[2..] == rest[1..] && items[1..] == Translated(rest[1..]);
    } else if rest[0] != '\\' {
      assert items[1..] == Translated(rest[1..]);
    }
  }

  // ---- The translation preserves meaning ----

  /** The value, or the value without the newline that ends it. */
  predicate MatchesLine(pattern: string, value: string) {
    || LineLike(pattern, value)
    || (value != [] && value[|value| - 1] == '\n' && LineLike(pattern, value[..|value| - 1]))
  }

  lemma SkipTo(rest: seq<Item>, value: string, i: nat) returns (k: nat)
    requires i <= |value| && Skips(rest, value, i)
    ensures i <= k <= |value| && NewlineFree(value[i..k]) && MatchesFrom(rest, value, k)
  {
    k :| i <= k <= |value| && NewlineFree(value[i..k]) && MatchesFrom(rest, value, k);
  }

  lemma SkipFrom(rest: seq<Item>, value: string, i: nat, k: nat)
    requires i <= k <= |value| && NewlineFree(value[i..k]) && MatchesFrom(rest, value, k)
    ensures Skips(rest, value, i)
  {
  }

  lemma NewlineFreeCons(c: char, text: string)
    ensures NewlineFree([c] + text) <==> c != '\n' && NewlineFree(text)
  {
    if NewlineFree([c] + text) {
      assert NotNewline(([c] + text)[0]);
      forall d | d in text ensures NotNewline(d) { assert d in [c] + text; }
    }
  }

  lemma SkipStep(rest: seq<Item>, value: string, i: nat)
    requires i <= |value|
    ensures Skips(rest, value, i)
       <==> MatchesFrom(rest, value, i) || (i < |value| && value[i] != '\n' && Skips(rest, value, i + 1))
  {
    if Skips(rest, value, i) {
      var k := SkipTo(rest, value, i);
      if k > i {
        NewlineFreeCons(value[i], value[i + 1..k]);
        assert value[i..k] == [value[i]] + value[i + 1..k];
        SkipFrom(rest, value, i + 1, k);
      }
    }
    if MatchesFrom(rest, value, i) {
      SkipFrom(rest, value, i, i);
    }
    if i < |value| && value[i] != '\n' && Skips(rest, value, i + 1) {
      var k := SkipTo(rest, value, i + 1);
      NewlineFreeCons(value[i], value[i + 1..k]);
      assert value[i..k] == [value[i]] + value[i + 1..k];
      SkipFrom(rest, value, i, k);
    }
  }

  lemma {:induction false} ItemsMeanPattern(pattern: string, value: string, i: nat)
    requires i <= |value|
    ensures MatchesFrom(Translated(pattern) + [Eol], value, i) <==> MatchesLine(pattern, value[i..])
    decreases |pattern| + |value| - i
  {
    var items, rest := Translated(pattern) + [Eol], value[i..];
    if pattern == [] {
      assert items == [Eol] && items[1..] == [];
    } else if pattern == "\\" {
      LoneBackslash(value, i);
    } else {
      var tail := if pattern[0] == '\\' then pattern[2..] else pattern[1..];
      assert items[1..] == Translated(tail) + [Eol];
      if i < |value| {
        LineTail(value, i);
        ItemsMeanPattern(tail, value, i + 1);
      }
      if pattern[0] == '%' {
        ItemsMeanPattern(tail, value, i);
        SkipStep(items[1..], value, i);
        assert MatchesFrom(items, value, i) == Skips(items[1..], value, i);
        if i < |value| {
          ItemsMeanPattern(pattern, value, i + 1);
          assert MatchesFrom(items, value, i + 1) == Skips(items[1..], value, i + 1);
        }
      }
    }
  }

  lemma LoneBackslash(value: string, i: nat)
    requires i <= |value|
    ensures MatchesFrom(Translated("\\") + [Eol], value, i) <==> MatchesLine("\\", value[i..])
  {
    var items, rest := Translated("\\") + [Eol], value[i..];
    assert items == [Literal('\\'), Eol] && items[1..] == [Eol] && items[1..][1..] == [];
    assert i < |value| ==> MatchesFrom([Eol], value, i + 1)
                           == (i + 1 == |value| || (i + 2 == |value| && value[i + 1] == '\n'));
    BackslashIs(rest);
    if rest != [] {
      BackslashIs(rest[..|rest| - 1]);
      assert rest[0] == value[i] && rest[|rest| - 1] == value[|value| - 1];
      assert |rest| == 2 ==> rest[..|rest| - 1][0] == value[i];
    }
  }

  lemma BackslashIs(text: string)
    ensures LineLike("\\", text) <==> |text| == 1 && text[0] == '\\'
  {
    assert text == "\\" <==> |text| == 1 && text[0] == '\\';
  }

  /** Taking the first character off a rest that is more than a final newline. */
  lemma LineTail(value: string, i: nat)
    requires i < |value|
    ensures value[i..][0] == value[i] && value[i..][1..] == value[i + 1..]
    ensures |value| - i > 1 ==>
              value[i..][..|value| - i - 1][0] == value[i]
              && value[i..][..|value| - i - 1][1..] == value[i + 1..][..|value| - i - 2]
  {
  }

  /** `_like_matches`, for every pattern and value: LIKE with wildcards that stop at newlines,
      of the value or of the value without a final newline. */
  lemma LikeMatchesExactly(pattern: string, value: string)
    ensures ReMatch(Written([Bol] + Translated(pattern) + [Eol]), value) <==> MatchesLine(pattern, value)
  {
    var items := [Bol] + Translated(pattern) + [Eol];
    ParseReadsBack(items);
    assert items[1..] == Translated(pattern) + [Eol];
    ItemsMeanPattern(pattern, value, 0);
    assert value[0..] == value;
  }

  /** `_like_matches` is LIKE on values without newlines. */
  method LikeMatches(value: string, pattern: string) returns (matches: bool)
    ensures matches <==> MatchesLine(pattern, value)
    ensures NewlineFree(value) ==> (matches <==> Like(pattern, value))
  {
    var expression := Expression(pattern);
    matches := ReMatch(expression, value);
    LikeMatchesExactly(pattern, value);
    if NewlineFree(value) { MatchesLineWithoutNewline(pattern, value); }
  }

  // ---- Where the translation and LIKE part ----

  /** A pattern of one percent sign. */
  lemma {:induction false} PercentMatches(value: string, wild: char -> bool)
    ensures LikeOver("%", value, wild) <==> forall c :: c in value ==> wild(c)
  {
    assert "%"[1..] == "";
    assert LikeOver("", value, wild) <==> value == "";
    if value != [] {
      PercentMatches(value[1..], wild);
      assert value == [value[0]] + value[1..];
      assert LikeOver("%", value, wild) <==> wild(value[0]) && LikeOver("%", value[1..], wild);
    }
  }

  function Underscores(n: nat): (pattern: string) { if n == 0 then [] else "_" + Underscores(n - 1) }

  lemma {:induction false} UnderscoresMatch(n: nat, value: string, wild: char -> bool)
    ensures LikeOver(Underscores(n), value, wild) <==> |value| == n && forall c :: c in value ==> wild(c)
  {
    if n > 0 {
      assert Underscores(n)[1..] == Underscores(n - 1);
      if value != [] {
        UnderscoresMatch(n - 1, value[1..], wild);
        assert value == [value[0]] + value[1..];
      }
    }
  }

  lemma MatchesLineWithoutNewline(pattern: string, value: string)
    requires NewlineFree(value)
    ensures MatchesLine(pattern, value) <==> Like(pattern, value)
  {
    LineLikeIsLike(pattern, value);
    assert value != [] ==> value[|value| - 1] in value;
  }

  /** A pattern on which `_like_matches` and LIKE disagree about this value. */
  lemma Disagreement(value: string) returns (pattern: string)
    requires !NewlineFree(value)
    ensures MatchesLine(pattern, value) != Like(pattern, value)
  {
    var n := |value| - 1;
    PercentMatches(value, NotNewline);
    PercentMatches(value, Anything);
    if value[n] == '\n' && NewlineFree(value[..n]) {
      pattern := Underscores(n);
      UnderscoresMatch(n, value, Anything);
      UnderscoresMatch(n, value[..n], NotNewline);
    } else {
      pattern := "%";
      PercentMatches(value[..n], NotNewline);
    }
  }

  /** `_like_matches` is LIKE for every pattern exactly on the values without newlines: `$` does
      not see a newline that ends the value, and the wildcards match no other. */
  lemma AgreesWithoutNewlines(value: string)
    ensures (forall pattern :: MatchesLine(pattern, value) <==> Like(pattern, value)) <==> NewlineFree(value)
  {
    if NewlineFree(value) {
      forall pattern ensures MatchesLine(pattern, value) <==> Like(pattern, value) {
        MatchesLineWithoutNewline(pattern, value);
      }
    } else {
      var pattern := Disagreement(value);
    }
  }
}
