/**
 * tracker_parser_text as tests/libtracker-common/tracker-parser-test.c drives
 * it: the text, already broken into tokens, is folded into a word -> weight
 * table. A token takes part when it is long enough and, with number filtering
 * on, not all digits; its key is the token cut to the maximum length; a new
 * key enters the table only while the table holds fewer than the maximum
 * number of words, and a key already present accumulates the weight again.
 */
module Parser {
  import TypeUtils

  /** The bounds a caller passes to tracker_parser_text. */
  datatype Limits = Limits(maxWords: nat, maxLength: nat, minLength: nat, filterNumbers: bool)

  /** The key a token is stored under: a longer token is cut to `maxLength` characters, not dropped. */
  function Key(token: string, limits: Limits): (k: string)
    ensures |k| <= limits.maxLength && |k| <= |token|
    ensures k <= token
    ensures |token| <= limits.maxLength ==> k == token
  {
    if |token| > limits.maxLength then token[..limits.maxLength] else token
  }

  /** Whether a token takes part: long enough, not a number when numbers are filtered, non-empty once cut. */
  predicate Admissible(token: string, limits: Limits) {
    && |token| >= limits.minLength
    && !(limits.filterNumbers && TypeUtils.AllDigits(token))
    && |Key(token, limits)| > 0
  }

  /**
   * One token added to the table: its key accumulates the weight, enters
   * while there is room, or is dropped. The keys are kept, at most the
   * token's own key is added, and the table never grows past the cap.
   */
  function AddToken(m: map<string, int>, token: string, weight: int, limits: Limits): (r: map<string, int>)
    ensures forall k :: k in m ==> k in r
    ensures forall k :: k in r ==> k in m || (Admissible(token, limits) && k == Key(token, limits))
    ensures |m| <= limits.maxWords ==> |r| <= limits.maxWords
  {
    var k := Key(token, limits);
    if !Admissible(token, limits) then m
    else if k in m then m[k := m[k] + weight]
    else if |m| < limits.maxWords then m[k := weight]
    else m
  }

  /** Adding a token adds the weight to its key's entry, if that key is (or gets) in the table. */
  lemma AddTokenWeights(m: map<string, int>, token: string, weight: int, limits: Limits)
    ensures var r := AddToken(m, token, weight, limits);
      forall k :: k in r ==>
        r[k] == (if k in m then m[k] else 0) + (if Admissible(token, limits) && Key(token, limits) == k then weight else 0)
  {
  }

  /**
   * tracker_parser_text: the tokens folded, in order, into `table` with the
   * given weight. Entries already in the table stay, and a table within the
   * cap stays within it.
   */
  function ParseText(table: map<string, int>, tokens: seq<string>, weight: int, limits: Limits): (r: map<string, int>)
    ensures table.Keys <= r.Keys
    ensures |table| <= limits.maxWords ==> |r| <= limits.maxWords
  {
    if tokens == [] then table
    else AddToken(ParseText(table, tokens[..|tokens| - 1], weight, limits), tokens[|tokens| - 1], weight, limits)
  }

  /** The number of admissible tokens stored under key `k`. */
  function Occurrences(tokens: seq<string>, k: string, limits: Limits): nat {
    if tokens == [] then 0
    else
      var token := tokens[|tokens| - 1];
      Occurrences(tokens[..|tokens| - 1], k, limits)
        + (if Admissible(token, limits) && Key(token, limits) == k then 1 else 0)
  }

  /** The keys of all admissible tokens. */
  function AdmissibleKeys(tokens: seq<string>, limits: Limits): set<string> {
    set t | t in tokens && Admissible(t, limits) :: Key(t, limits)
  }

  lemma AdmissibleKeysSnoc(init: seq<string>, token: string, limits: Limits)
    ensures AdmissibleKeys(init + [token], limits)
         == AdmissibleKeys(init, limits) + (if Admissible(token, limits) then {Key(token, limits)} else {})
  {
    var tokens := init + [token];
    forall k | k in AdmissibleKeys(tokens, limits)
      ensures k in AdmissibleKeys(init, limits) || (Admissible(token, limits) && k == Key(token, limits))
    {
      var t :| t in tokens && Admissible(t, limits) && k == Key(t, limits);
      if t != token {
        assert t in init;
      }
    }
    forall k | k in AdmissibleKeys(init, limits) ensures k in AdmissibleKeys(tokens, limits) {
      var t :| t in init && Admissible(t, limits) && k == Key(t, limits);
      assert t in tokens;
    }
    if Admissible(token, limits) {
      assert token in tokens;
    }
  }

  lemma OccurrencesPositive(tokens: seq<string>, k: string, limits: Limits)
    ensures Occurrences(tokens, k, limits) > 0 <==> k in AdmissibleKeys(tokens, limits)
  {
    if tokens != [] {
      var init, token := tokens[..|tokens| - 1], tokens[|tokens| - 1];
      assert tokens == init + [token];
      OccurrencesPositive(init, k, limits);
      AdmissibleKeysSnoc(init, token, limits);
    }
  }

  /**
   * Which keys the table holds after parsing: the earlier keys stay, every new
   * key is the key of an admissible token, and the table grows past the cap
   * only if it started past it.
   */
  lemma {:induction false} ParseTextKeys(table: map<string, int>, tokens: seq<string>, weight: int, limits: Limits)
    ensures var r := ParseText(table, tokens, weight, limits);
      && table.Keys <= r.Keys
      && r.Keys <= table.Keys + AdmissibleKeys(tokens, limits)
      && (|table| <= limits.maxWords ==> |r| <= limits.maxWords)
  {
    if tokens != [] {
      var init, token := tokens[..|tokens| - 1], tokens[|tokens| - 1];
      assert tokens == init + [token];
      ParseTextKeys(table, init, weight, limits);
      AdmissibleKeysSnoc(init, token, limits);
    }
  }

  /**
   * The key of every admissible token is in the table unless the table is
   * full: the cap is the only reason a word is left out.
   */
  lemma {:induction false} ParseTextComplete(table: map<string, int>, tokens: seq<string>, weight: int, limits: Limits)
    ensures var r := ParseText(table, tokens, weight, limits);
      forall k :: k in AdmissibleKeys(tokens, limits) ==> k in r || |r| >= limits.maxWords
  {
    if tokens != [] {
      var init, token := tokens[..|tokens| - 1], tokens[|tokens| - 1];
      assert tokens == init + [token];
      ParseTextComplete(table, init, weight, limits);
      AdmissibleKeysSnoc(init, token, limits);
      var m := ParseText(table, init, weight, limits);
      forall k | k in AdmissibleKeys(tokens, limits)
        ensures k in AddToken(m, token, weight, limits) || |AddToken(m, token, weight, limits)| >= limits.maxWords
      {
        AddTokenComplete(m, token, weight, limits, k);
      }
    }
  }

  /** Adding a token loses no key and frees no room, and its own key enters unless the table is full. */
  lemma AddTokenComplete(m: map<string, int>, token: string, weight: int, limits: Limits, k: string)
    requires k in m || |m| >= limits.maxWords || (Admissible(token, limits) && k == Key(token, limits))
    ensures k in AddToken(m, token, weight, limits) || |AddToken(m, token, weight, limits)| >= limits.maxWords
  {
  }

  /**
   * The weight of each key is its earlier weight plus `weight` times the
   * number of admissible tokens stored under it: repeated words accumulate.
   */
  lemma {:induction false} ParseTextWeights(table: map<string, int>, tokens: seq<string>, weight: int, limits: Limits)
    ensures var r := ParseText(table, tokens, weight, limits);
      forall k :: k in r ==> r[k] == (if k in table then table[k] else 0) + weight * Occurrences(tokens, k, limits)
  {
    if tokens != [] {
      ParseTextWeights(table, tokens[..|tokens| - 1], weight, limits);
      forall k | k in ParseText(table, tokens, weight, limits)
        ensures ParseText(table, tokens, weight, limits)[k]
             == (if k in table then table[k] else 0) + weight * Occurrences(tokens, k, limits)
      {
        ParseTextWeightAt(table, tokens, weight, limits, k);
      }
    }
  }

  /** The step of ParseTextWeights for one key, given its weight after all tokens but the last. */
  lemma ParseTextWeightAt(table: map<string, int>, tokens: seq<string>, weight: int, limits: Limits, k: string)
    requires tokens != []
    requires var m := ParseText(table, tokens[..|tokens| - 1], weight, limits);
      k in m ==> m[k] == (if k in table then table[k] else 0) + weight * Occurrences(tokens[..|tokens| - 1], k, limits)
    requires k in ParseText(table, tokens, weight, limits)
    ensures ParseText(table, tokens, weight, limits)[k]
         == (if k in table then table[k] else 0) + weight * Occurrences(tokens, k, limits)
  {
    var init, token := tokens[..|tokens| - 1], tokens[|tokens| - 1];
    var m := ParseText(table, init, weight, limits);
    if k !in m {
      AddTokenNewKey(m, token, weight, limits, k);
      AbsentKey(table, init, weight, limits, k);
    }
    AddTokenWeightAt(m, token, weight, limits, k, if k in table then table[k] else 0, Occurrences(init, k, limits));
  }

  /** A key that adding a token brings into the table is that token's key, and there was room for it. */
  lemma AddTokenNewKey(m: map<string, int>, token: string, weight: int, limits: Limits, k: string)
    requires k !in m && k in AddToken(m, token, weight, limits)
    ensures Admissible(token, limits) && Key(token, limits) == k && |m| < limits.maxWords
  {
  }

  /** Adding a token to an entry of weight `base + weight * before` counts the token once more if it is stored there. */
  lemma AddTokenWeightAt(m: map<string, int>, token: string, weight: int, limits: Limits, k: string, base: int, before: nat)
    requires k in m ==> m[k] == base + weight * before
    requires k !in m ==> base == 0 && before == 0
    requires k in AddToken(m, token, weight, limits)
    ensures AddToken(m, token, weight, limits)[k]
         == base + weight * (before + if Admissible(token, limits) && Key(token, limits) == k then 1 else 0)
  {
    if Admissible(token, limits) && Key(token, limits) == k {
      assert weight * (before + 1) == weight * before + weight;
    }
  }

  /** A key missing from a table with room left: no token was stored under it, and it was not in the table. */
  lemma AbsentKey(table: map<string, int>, tokens: seq<string>, weight: int, limits: Limits, k: string)
    requires var m := ParseText(table, tokens, weight, limits); k !in m && |m| < limits.maxWords
    ensures Occurrences(tokens, k, limits) == 0 && k !in table
  {
    ParseTextComplete(table, tokens, weight, limits);
    OccurrencesPositive(tokens, k, limits);
  }

  /**
   * With number filtering on, no all-digit word shorter than the maximum
   * length is ever a key: only a token equal to it could give that key.
   */
  lemma NumbersFiltered(tokens: seq<string>, weight: int, limits: Limits, k: string)
    requires limits.filterNumbers && TypeUtils.AllDigits(k) && |k| < limits.maxLength
    ensures k !in ParseText(map[], tokens, weight, limits)
  {
    ParseTextKeys(map[], tokens, weight, limits);
    forall t | t in tokens && Admissible(t, limits) ensures Key(t, limits) != k {
      if |t| <= limits.maxLength {
        assert Key(t, limits) == t;
      }
    }
  }

  lemma {:induction false} SubsetCardinality<T>(a: set<T>, b: set<T>)
    requires a <= b
    ensures |a| <= |b|
    ensures a < b ==> |a| < |b|
    decreases |b|
  {
    if a != {} {
      var x :| x in a;
      SubsetCardinality(a - {x}, b - {x});
      if a < b {
        var y :| y in b && y !in a;
        assert y in b - {x} && y !in a - {x};
      }
    } else if a < b {
      var y :| y in b;
    }
  }

  /** Every key of a parse into an empty table is at most `maxLength` characters long. */
  lemma KeysWithinMaxLength(tokens: seq<string>, weight: int, limits: Limits)
    ensures forall k :: k in ParseText(map[], tokens, weight, limits) ==> |k| <= limits.maxLength
  {
    ParseTextKeys(map[], tokens, weight, limits);
  }

  /** When the admissible keys fit under the cap, the table holds exactly them. */
  lemma AllKeysFit(tokens: seq<string>, weight: int, limits: Limits)
    requires |AdmissibleKeys(tokens, limits)| <= limits.maxWords
    ensures ParseText(map[], tokens, weight, limits).Keys == AdmissibleKeys(tokens, limits)
  {
    ParseTextKeys(map[], tokens, weight, limits);
    ParseTextComplete(map[], tokens, weight, limits);
    var r := ParseText(map[], tokens, weight, limits);
    var keys := AdmissibleKeys(tokens, limits);
    assert r.Keys <= keys;
    SubsetCardinality(r.Keys, keys);
  }

  /** When there are at least as many admissible keys as the cap, the table is full. */
  lemma CapReached(tokens: seq<string>, weight: int, limits: Limits)
    requires |AdmissibleKeys(tokens, limits)| >= limits.maxWords
    ensures |ParseText(map[], tokens, weight, limits)| == limits.maxWords
  {
    ParseTextKeys(map[], tokens, weight, limits);
    ParseTextComplete(map[], tokens, weight, limits);
    var r := ParseText(map[], tokens, weight, limits);
    var keys := AdmissibleKeys(tokens, limits);
    if |r| < limits.maxWords {
      SubsetCardinality(keys, r.Keys);
    }
  }
}

/**
 * The calls of tests/libtracker-common/tracker-parser-test.c on its sample
 * text, and what each asserts about the resulting table.
 */
module ParserScenarios {
  import TypeUtils
  import opened Parser

  /** The whitespace-separated tokens of "Here a good collection of various words to parse 12345678". */
  function SampleTokens(): seq<string> {
    ["Here", "a", "good", "collection", "of", "various", "words", "to", "parse", "12345678"]
  }

  lemma KeyOf(tokens: seq<string>, i: nat, limits: Limits)
    requires i < |tokens| && Admissible(tokens[i], limits)
    ensures Key(tokens[i], limits) in AdmissibleKeys(tokens, limits)
  {
  }

  /** test_parser_text_max_words_to_index: a cap of 5 words, lengths 3..18; five entries. */
  lemma MaxWordsToIndex(t: seq<string>)
    requires t == SampleTokens()
    ensures |ParseText(map[], t, 1, Limits(5, 18, 3, false))| == 5
  {
    var limits := Limits(5, 18, 3, false);
    KeyOf(t, 0, limits);
    KeyOf(t, 2, limits);
    KeyOf(t, 3, limits);
    KeyOf(t, 5, limits);
    KeyOf(t, 6, limits);
    FiveKeys();
    SubsetCardinality({"Here", "good", "collection", "various", "words"}, AdmissibleKeys(t, limits));
    CapReached(t, 1, limits);
  }

  lemma KeysWithin(tokens: seq<string>, limits: Limits, keys: set<string>)
    requires forall i :: 0 <= i < |tokens| && Admissible(tokens[i], limits) ==> Key(tokens[i], limits) in keys
    ensures AdmissibleKeys(tokens, limits) <= keys
  {
    forall k | k in AdmissibleKeys(tokens, limits) ensures k in keys {
      var t :| t in tokens && Admissible(t, limits) && k == Key(t, limits);
      var i :| 0 <= i < |tokens| && tokens[i] == t;
    }
  }

  /** The keys of the sample with lengths 3..6: the three longer words are cut to six characters. */
  lemma ShortKeys()
    ensures AdmissibleKeys(SampleTokens(), Limits(10, 6, 3, false))
         == {"Here", "good", "collec", "variou", "words", "parse", "123456"}
  {
    var limits := Limits(10, 6, 3, false);
    var t := SampleTokens();
    var keys := {"Here", "good", "collec", "variou", "words", "parse", "123456"};
    forall i | 0 <= i < |t| && Admissible(t[i], limits) ensures Key(t[i], limits) in keys {
      if i == 3 {
        assert Key(t[3], limits) == "collec";
      } else if i == 5 {
        assert Key(t[5], limits) == "variou";
      } else if i == 9 {
        assert Key(t[9], limits) == "123456";
      }
    }
    KeysWithin(t, limits, keys);
    ShortKeysPresent();
  }

  lemma ShortKeysPresent()
    ensures AdmissibleKeys(SampleTokens(), Limits(10, 6, 3, false))
         >= {"Here", "good", "collec", "variou", "words", "parse", "123456"}
  {
    ShortWholeKeys();
    ShortCutKeys();
  }

  lemma ShortWholeKeys()
    ensures AdmissibleKeys(SampleTokens(), Limits(10, 6, 3, false)) >= {"Here", "good", "words", "parse"}
  {
    var limits := Limits(10, 6, 3, false);
    var t := SampleTokens();
    KeyOf(t, 0, limits);
    KeyOf(t, 2, limits);
    KeyOf(t, 6, limits);
    KeyOf(t, 8, limits);
  }

  lemma ShortCutKeys()
    ensures AdmissibleKeys(SampleTokens(), Limits(10, 6, 3, false)) >= {"collec", "variou", "123456"}
  {
    var limits := Limits(10, 6, 3, false);
    var t := SampleTokens();
    KeyOf(t, 3, limits);
    KeyOf(t, 5, limits);
    KeyOf(t, 9, limits);
    assert Key(t[3], limits) == "collec" && Key(t[5], limits) == "variou" && Key(t[9], limits) == "123456";
  }

  /**
   * test_parser_text_max_length: lengths 3..6 and a cap of 10; seven entries,
   * none longer than 6: the three longer words are cut, not dropped.
   */
  lemma MaxLength(t: seq<string>)
    requires t == SampleTokens()
    ensures var r := ParseText(map[], t, 1, Limits(10, 6, 3, false));
      && |r| == 7
      && (forall k :: k in r ==> |k| <= 6)
      && r.Keys == {"Here", "good", "collec", "variou", "words", "parse", "123456"}
  {
    var limits := Limits(10, 6, 3, false);
    ShortKeys();
    SevenKeys();
    AllKeysFit(t, 1, limits);
    KeysWithinMaxLength(t, 1, limits);
  }

  /** The keys of the sample with numbers filtered: every token but "12345678". */
  lemma WordKeys()
    ensures AdmissibleKeys(SampleTokens(), Limits(100, 100, 1, true))
         == {"Here", "a", "good", "collection", "of", "various", "words", "to", "parse"}
  {
    var limits := Limits(100, 100, 1, true);
    var t := SampleTokens();
    var keys := {"Here", "a", "good", "collection", "of", "various", "words", "to", "parse"};
    assert TypeUtils.AllDigits(t[9]);
    assert !Admissible(t[9], limits);
    KeysWithin(t, limits, keys);
    WordKeysPresent();
  }

  lemma WordKeysPresent()
    ensures AdmissibleKeys(SampleTokens(), Limits(100, 100, 1, true))
         >= {"Here", "a", "good", "collection", "of", "various", "words", "to", "parse"}
  {
    var limits := Limits(100, 100, 1, true);
    var t := SampleTokens();
    forall i | 0 <= i < 9 ensures Admissible(t[i], limits) {
      assert !TypeUtils.IsDigit(t[i][0]);
    }
    KeyOf(t, 0, limits);
    KeyOf(t, 1, limits);
    KeyOf(t, 2, limits);
    KeyOf(t, 3, limits);
    KeyOf(t, 4, limits);
    KeyOf(t, 5, limits);
    KeyOf(t, 6, limits);
    KeyOf(t, 7, limits);
    KeyOf(t, 8, limits);
  }

  /** test_parser_text_filter_numbers, filtering on: nine entries, and no "12345678". */
  lemma FilterNumbers(t: seq<string>)
    requires t == SampleTokens()
    ensures var r := ParseText(map[], t, 1, Limits(100, 100, 1, true));
      |r| == 9 && "12345678" !in r
  {
    WordKeys();
    NineKeys();
    AllKeysFit(t, 1, Limits(100, 100, 1, true));
    DigitsFiltered(t);
  }

  lemma DigitsFiltered(t: seq<string>)
    ensures "12345678" !in ParseText(map[], t, 1, Limits(100, 100, 1, true))
  {
    assert TypeUtils.AllDigits("12345678");
    NumbersFiltered(t, 1, Limits(100, 100, 1, true), "12345678");
  }

  /** The keys of the sample with numbers kept: all ten tokens. */
  lemma AllTokenKeys()
    ensures AdmissibleKeys(SampleTokens(), Limits(100, 100, 1, false))
         == {"Here", "a", "good", "collection", "of", "various", "words", "to", "parse", "12345678"}
  {
    var limits := Limits(100, 100, 1, false);
    var t := SampleTokens();
    var keys := {"Here", "a", "good", "collection", "of", "various", "words", "to", "parse", "12345678"};
    KeysWithin(t, limits, keys);
    AllTokenKeysPresent(t);
  }

  lemma AllTokenKeysPresent(t: seq<string>)
    requires t == SampleTokens()
    ensures AdmissibleKeys(t, Limits(100, 100, 1, false))
         >= {"Here", "a", "good", "collection", "of", "various", "words", "to", "parse", "12345678"}
  {
    FirstTokenKeysPresent(t);
    LastTokenKeysPresent(t);
  }

  lemma FirstTokenKeysPresent(t: seq<string>)
    requires t == SampleTokens()
    ensures AdmissibleKeys(t, Limits(100, 100, 1, false)) >= {"Here", "a", "good", "collection", "of"}
  {
    var limits := Limits(100, 100, 1, false);
    KeyOf(t, 0, limits);
    KeyOf(t, 1, limits);
    KeyOf(t, 2, limits);
    FirstTokenKeysRest(t);
  }

  lemma FirstTokenKeysRest(t: seq<string>)
    requires t == SampleTokens()
    ensures AdmissibleKeys(t, Limits(100, 100, 1, false)) >= {"collection", "of"}
  {
    var limits := Limits(100, 100, 1, false);
    KeyOf(t, 3, limits);
    KeyOf(t, 4, limits);
  }

  lemma LastTokenKeysPresent(t: seq<string>)
    requires t == SampleTokens()
    ensures AdmissibleKeys(t, Limits(100, 100, 1, false)) >= {"various", "words", "to", "parse", "12345678"}
  {
    var limits := Limits(100, 100, 1, false);
    KeyOf(t, 5, limits);
    KeyOf(t, 6, limits);
    KeyOf(t, 7, limits);
    KeyOf(t, 8, limits);
    KeyOf(t, 9, limits);
  }

  /** test_parser_text_filter_numbers, filtering off: all ten tokens, "12345678" included; no stop word is removed. */
  lemma NoFilterNumbers(t: seq<string>)
    requires t == SampleTokens()
    ensures var r := ParseText(map[], t, 1, Limits(100, 100, 1, false));
      |r| == 10 && "12345678" in r && "a" in r && "of" in r && "to" in r
  {
    AllTokenKeys();
    TenKeys();
    AllKeysFit(t, 1, Limits(100, 100, 1, false));
  }

  lemma FiveKeys()
    ensures |{"Here", "good", "collection", "various", "words"}| == 5
  {
  }

  lemma SevenKeys()
    ensures |{"Here", "good", "collec", "variou", "words", "parse", "123456"}| == 7
  {
  }

  lemma NineKeys()
    ensures |{"Here", "a", "good", "collection", "of", "various", "words", "to", "parse"}| == 9
    ensures "12345678" !in {"Here", "a", "good", "collection", "of", "various", "words", "to", "parse"}
  {
  }

  lemma TenKeys()
    ensures |{"Here", "a", "good", "collection", "of", "various", "words", "to", "parse", "12345678"}| == 10
  {
  }
}
