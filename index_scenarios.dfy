/**
 * The scenarios of tests/tracker-indexer/tracker-index-test.c, each a method
 * that drives an Index as the test does and returns what the test's read
 * helpers report; the ensures clauses are the test's assertions.
 */
module IndexScenarios {
  import opened Ints
  import opened IndexCodec
  import opened InvertedIndex
  import TypeUtils

  /** The posting every scenario adds for document `id`: service type 1, weight 1. */
  function Unit(id: uint32): Posting {
    Posting(id, 1, 1)
  }

  /** test_add_one_word: one word, one flush; one word stored with one result. */
  method AddOneWord() returns (words: int, results: int)
    ensures words == 1 && results == 1
  {
    var index := new Index(BUCKET_COUNT);
    index.AddWord("word1", 1, 1, 1);
    assert index.buffer == map["word1" := [Unit(1)]];
    FlushOneWord("word1", [Unit(1)]);
    index.Flush();
    var store := index.store;
    assert store == map["word1" := EncodeList([Unit(1)])];
    words := NumberWordsInIndex(store);
    results := ResultsForWord(store, "word1");
  }

  /** The word `g_strdup_printf ("word%d", i)`. */
  function NumberedWord(i: int32): string {
    "word" + TypeUtils.IntToString(i)
  }

  lemma NumberedWordInjective(i: int32, j: int32)
    requires NumberedWord(i) == NumberedWord(j)
    ensures i == j
  {
    assert NumberedWord(i)[4..] == TypeUtils.IntToString(i);
    assert NumberedWord(j)[4..] == TypeUtils.IntToString(j);
  }

  /** The buffer after adding the first `n` numbered words for document 1. */
  function NumberedBuffer(n: int32): map<string, seq<Posting>>
    requires 0 <= n
  {
    map j: int32 | 0 <= j < n :: NumberedWord(j) := [Unit(1)]
  }

  lemma {:induction false} NumberedBufferStep(n: int32)
    requires 0 <= n < 0x7FFF_FFFF
    ensures NumberedWord(n) !in NumberedBuffer(n)
    ensures NumberedBuffer(n + 1) == NumberedBuffer(n)[NumberedWord(n) := [Unit(1)]]
    ensures |NumberedBuffer(n + 1)| == |NumberedBuffer(n)| + 1
  {
    if NumberedWord(n) in NumberedBuffer(n) {
      var j: int32 :| 0 <= j < n && NumberedWord(j) == NumberedWord(n);
      NumberedWordInjective(j, n);
    }
  }

  /** The store the twenty numbered words flush into. */
  lemma NumberedBufferFlushed()
    ensures var store := Flushed(map[], NumberedBuffer(20));
      |store| == |NumberedBuffer(20)| && NumberedWord(5) in store && |store[NumberedWord(5)]| == 1
  {
    var buffer := NumberedBuffer(20);
    NumberedBufferEntries(20);
    FlushIntoEmptyStore(buffer);
    FlushedSize(buffer);
    var store := Flushed(map[], buffer);
    assert NumberedWord(5) in buffer;
    assert |DecodeList(store[NumberedWord(5)])| == 1;
  }

  /** Every numbered word is buffered with the one posting of document 1. */
  lemma NumberedBufferEntries(n: int32)
    requires 0 <= n
    ensures forall w :: w in NumberedBuffer(n) ==> NumberedBuffer(n)[w] == [Unit(1)] && DistinctIds(NumberedBuffer(n)[w])
  {
  }

  /** Flushing into an empty store stores one list per buffered word. */
  lemma FlushedSize(buffer: map<string, seq<Posting>>)
    ensures |Flushed(map[], buffer)| == |buffer|
  {
    var store := Flushed(map[], buffer);
    assert store.Keys == buffer.Keys;
    assert |store| == |store.Keys| == |buffer.Keys| == |buffer|;
  }

  /** test_add_n_words: twenty different words for one document; twenty words, "word5" has one result. */
  method AddNWords() returns (words: int, results: int)
    ensures words == 20 && results == 1
  {
    var index := new Index(BUCKET_COUNT);
    var i: int32 := 0;
    assert NumberedBuffer(0) == map[];
    while i < 20
      invariant 0 <= i <= 20
      invariant index.Valid() && index.store == map[]
      invariant index.buffer == NumberedBuffer(i)
      invariant |index.buffer| == i as int
    {
      NumberedBufferStep(i);
      index.AddWord(NumberedWord(i), 1, 1, 1);
      i := i + 1;
    }
    NumberedBufferFlushed();
    index.Flush();
    var store := index.store;
    words := NumberWordsInIndex(store);
    results := ResultsForWord(store, NumberedWord(5));
  }

  /** test_add_word_n_times: one word for twenty documents; one word with twenty results. */
  method AddWordNTimes() returns (words: int, results: int)
    ensures words == 1 && results == 20
  {
    var index := new Index(BUCKET_COUNT);
    var i: uint32 := 0;
    while i < 20
      invariant 0 <= i <= 20
      invariant index.Valid() && index.store == map[]
      invariant i == 0 ==> index.buffer == map[]
      invariant i > 0 ==> index.buffer.Keys == {"test-word"} && |index.buffer["test-word"]| == i as int
      invariant i > 0 ==> forall k :: 0 <= k < |index.buffer["test-word"]| ==> index.buffer["test-word"][k].id < i
    {
      ghost var before := Lookup(index.buffer, "test-word");
      assert i !in Ids(before);
      AccumulateNew(before, Unit(i));
      index.AddWord("test-word", i, 1, 1);
      assert index.buffer["test-word"] == before + [Unit(i)];
      i := i + 1;
    }
    ghost var list := index.buffer["test-word"];
    assert index.buffer == map["test-word" := list];
    FlushOneWord("test-word", list);
    index.Flush();
    var store := index.store;
    assert store == map["test-word" := EncodeList(list)];
    words := NumberWordsInIndex(store);
    results := ResultsForWord(store, "test-word");
  }

  /** test_add_word_multiple_occurrences: one word twenty times for one document; one result of score 20. */
  method AddWordMultipleOccurrences() returns (words: int, results: int, score: int)
    ensures words == 1 && results == 1 && score == 20
  {
    var index := new Index(BUCKET_COUNT);
    var i := 0;
    while i < 20
      invariant 0 <= i <= 20
      invariant index.Valid() && index.store == map[]
      invariant i == 0 ==> index.buffer == map[]
      invariant i > 0 ==> index.buffer == map["test-word" := [Posting(1, 1, i)]]
    {
      assert Accumulate(Lookup(index.buffer, "test-word"), Unit(1)) == [Posting(1, 1, i + 1)];
      index.AddWord("test-word", 1, 1, 1);
      i := i + 1;
    }
    FlushOneWord("test-word", [Posting(1, 1, 20)]);
    index.Flush();
    var store := index.store;
    assert store == map["test-word" := EncodeList([Posting(1, 1, 20)])];
    DecodeEncode(Posting(1, 1, 20));
    words := NumberWordsInIndex(store);
    results := ResultsForWord(store, "test-word");
    score := ScoreForWord(store, "test-word");
  }

  /** The buffer after adding each word of `words`, in order, for document `id`. */
  function AddAll(buffer: map<string, seq<Posting>>, words: seq<string>, id: uint32): map<string, seq<Posting>>
  {
    if words == [] then buffer
    else AddToBuffer(AddAll(buffer, words[..|words| - 1], id), words[|words| - 1], Unit(id))
  }

  /**
   * Adding a text's words for one document gives one posting per distinct
   * word, whose score is the number of times the word occurs.
   */
  lemma {:induction false} AddAllCounts(words: seq<string>, id: uint32)
    requires |words| < 0x7FFF
    ensures AddAll(map[], words, id).Keys == set w | w in words
    ensures forall w :: w in words ==> AddAll(map[], words, id)[w] == [Posting(id, 1, multiset(words)[w])]
  {
    if words != [] {
      var init, last := words[..|words| - 1], words[|words| - 1];
      assert words == init + [last];
      AddAllCounts(init, id);
      AddOneCount(AddAll(map[], init, id), init, last, id);
    }
  }

  /** One more word added to a buffer that already counts the words of `init`. */
  lemma AddOneCount(b: map<string, seq<Posting>>, init: seq<string>, last: string, id: uint32)
    requires |init| < 0x7FFE
    requires b.Keys == set w | w in init
    requires forall w :: w in init ==> b[w] == [Posting(id, 1, multiset(init)[w])]
    ensures AddToBuffer(b, last, Unit(id)).Keys == set w | w in init + [last]
    ensures forall w :: w in init + [last] ==>
      AddToBuffer(b, last, Unit(id))[w] == [Posting(id, 1, multiset(init + [last])[w])]
  {
    var words := init + [last];
    var r := AddToBuffer(b, last, Unit(id));
    var acc := Accumulate(Lookup(b, last), Unit(id));
    assert r == b[last := acc];
    assert multiset(words) == multiset(init) + multiset{last};
    if last in init {
      assert acc == [Posting(id, 1, multiset(words)[last])];
    } else {
      assert acc == [Unit(id)];
    }
    forall w | w in words
      ensures r[w] == [Posting(id, 1, multiset(words)[w])]
    {
      if w != last {
        assert w in init;
        assert r[w] == b[w];
      }
    }
    assert r.Keys == set w | w in words;
  }

  /** g_strsplit (text1, " ", -1) in test_add_with_flushs, in three parts of five words. */
  function FirstText(): seq<string> {
    ["this", "is", "a", "text", "to"] + ["try", "a", "kind", "of", "real"] + ["use", "case", "of", "the", "indexer"]
  }

  /** g_strsplit (text2, " ", -1) in test_add_with_flushs. */
  function SecondText(): seq<string> {
    ["this", "is", "another", "text"] + ["with", "some", "common", "words"]
  }

  lemma FirstTextWords()
    ensures (set w | w in FirstText())
         == {"this", "is", "a", "text", "to", "try", "kind", "of", "real", "use", "case", "the", "indexer"}
  {
    var t := FirstText();
    assert t[0] == "this" && t[1] == "is" && t[2] == "a" && t[3] == "text" && t[4] == "to" && t[5] == "try";
    assert t[7] == "kind" && t[8] == "of" && t[9] == "real" && t[10] == "use" && t[11] == "case";
    assert t[13] == "the" && t[14] == "indexer";
  }

  lemma SecondTextWords()
    ensures (set w | w in SecondText()) == {"this", "is", "another", "text", "with", "some", "common", "words"}
  {
  }

  /** The two texts share "this", "is" and "text": eighteen distinct words in all. */
  lemma TextWords()
    ensures |(set w | w in FirstText()) + (set w | w in SecondText())| == 18
  {
    FirstTextWords();
    SecondTextWords();
    WordUnion();
    WordCount();
  }

  lemma WordUnion()
    ensures {"this", "is", "a", "text", "to", "try", "kind", "of", "real", "use", "case", "the", "indexer"}
          + {"this", "is", "another", "text", "with", "some", "common", "words"}
         == {"this", "is", "a", "text", "to", "try", "kind", "of", "real", "use", "case", "the", "indexer",
             "another", "with", "some", "common", "words"}
  {
  }

  lemma WordCount()
    ensures |{"this", "is", "a", "text", "to", "try", "kind", "of", "real", "use", "case", "the", "indexer",
              "another", "with", "some", "common", "words"}| == 18
  {
    var short := {"is", "a", "to", "try", "of", "use", "the"};
    var long := {"this", "text", "kind", "real", "case", "indexer", "another", "with", "some", "common", "words"};
    ShortCount();
    LongCount();
    DisjointByLength(short, long);
    assert {"this", "is", "a", "text", "to", "try", "kind", "of", "real", "use", "case", "the", "indexer",
            "another", "with", "some", "common", "words"} == short + long;
  }

  /** Words of at most three letters and words of at least four are disjoint, so their counts add up. */
  lemma DisjointByLength(short: set<string>, long: set<string>)
    requires short == {"is", "a", "to", "try", "of", "use", "the"}
    requires long == {"this", "text", "kind", "real", "case", "indexer", "another", "with", "some", "common", "words"}
    ensures |short + long| == |short| + |long|
  {
    assert forall w :: w in short ==> |w| <= 3;
    assert forall w :: w in long ==> |w| >= 4;
    assert short !! long;
  }

  lemma ShortCount()
    ensures |{"is", "a", "to", "try", "of", "use", "the"}| == 7
  {
  }

  lemma LongCount()
    ensures |{"this", "text", "kind", "real", "case", "indexer", "another", "with", "some", "common", "words"}| == 11
  {
  }

  lemma FirstTextCounts()
    ensures multiset(FirstText())["this"] == 1 && multiset(FirstText())["a"] == 2
    ensures multiset(FirstText())["common"] == 0
  {
    FirstPartCounts();
    MiddlePartCounts();
    LastPartCounts();
  }

  lemma FirstPartCounts()
    ensures multiset(["this", "is", "a", "text", "to"])["this"] == 1
    ensures multiset(["this", "is", "a", "text", "to"])["a"] == 1
    ensures multiset(["this", "is", "a", "text", "to"])["common"] == 0
  {
  }

  lemma MiddlePartCounts()
    ensures multiset(["try", "a", "kind", "of", "real"])["this"] == 0
    ensures multiset(["try", "a", "kind", "of", "real"])["a"] == 1
    ensures multiset(["try", "a", "kind", "of", "real"])["common"] == 0
  {
  }

  lemma LastPartCounts()
    ensures multiset(["use", "case", "of", "the", "indexer"])["this"] == 0
    ensures multiset(["use", "case", "of", "the", "indexer"])["a"] == 0
    ensures multiset(["use", "case", "of", "the", "indexer"])["common"] == 0
  {
  }

  lemma SecondTextCounts()
    ensures multiset(SecondText())["this"] == 1 && multiset(SecondText())["common"] == 1
    ensures multiset(SecondText())["a"] == 0
  {
    SecondTextHalfCounts();
  }

  lemma SecondTextHalfCounts()
    ensures multiset(["this", "is", "another", "text"])["this"] == 1
    ensures multiset(["this", "is", "another", "text"])["common"] == 0
    ensures multiset(["this", "is", "another", "text"])["a"] == 0
    ensures multiset(["with", "some", "common", "words"])["this"] == 0
    ensures multiset(["with", "some", "common", "words"])["common"] == 1
    ensures multiset(["with", "some", "common", "words"])["a"] == 0
  {
  }

  /** Feeds the words of `text` to the index for document `id`, as the test's loop over the pieces does. */
  method AddText(index: Index, text: seq<string>, id: uint32)
    requires index.Valid()
    modifies index
    ensures index.Valid()
    ensures index.buffer == AddAll(old(index.buffer), text, id)
    ensures index.store == old(index.store)
  {
    var i := 0;
    while i < |text|
      invariant 0 <= i <= |text|
      invariant index.Valid() && index.store == old(index.store)
      invariant index.buffer == AddAll(old(index.buffer), text[..i], id)
    {
      assert text[..i + 1][..i] == text[..i];
      index.AddWord(text[i], id, 1, 1);
      i := i + 1;
    }
    assert text[..i] == text;
  }

  /**
   * test_add_with_flushs: the first text for document 1, a flush, the second
   * text for document 2, a flush. Eighteen words; "this" has two results,
   * "common" one, and "a" keeps its score of 2 from the first flush.
   */
  method AddWithFlushes() returns (words: int, thisResults: int, commonResults: int, aScore: int)
    ensures words == 18 && thisResults == 2 && commonResults == 1 && aScore == 2
  {
    var index := new Index(BUCKET_COUNT);
    ghost var empty := index.buffer;
    AddText(index, FirstText(), 1);
    ghost var first := index.buffer;
    index.Flush();
    ghost var store1 := index.store;
    ghost var flushed := index.buffer;
    AddText(index, SecondText(), 2);
    ghost var second := index.buffer;
    index.Flush();
    var store := index.store;
    FirstTextCounts();
    SecondTextCounts();
    TextWords();
    FlushedTexts(FirstText(), SecondText(), empty, flushed, first, store1, second, store);
    words := NumberWordsInIndex(store);
    thisResults := ResultsForWord(store, "this");
    commonResults := ResultsForWord(store, "common");
    aScore := ScoreForWord(store, "a");
  }

  /** What a first flush stores for a text holding "this" once, "a" twice and no "common", for document 1. */
  lemma FirstFlush(text: seq<string>, first: map<string, seq<Posting>>, store1: map<string, seq<Element>>)
    requires |text| < 0x7FFF
    requires multiset(text)["this"] == 1 && multiset(text)["a"] == 2 && multiset(text)["common"] == 0
    requires first == AddAll(map[], text, 1) && store1 == Flushed(map[], first)
    ensures store1.Keys == set w | w in text
    ensures "this" in store1 && DecodeList(store1["this"]) == [Unit(1)]
    ensures "a" in store1 && DecodeList(store1["a"]) == [Posting(1, 1, 2)]
    ensures "common" !in store1
  {
    AddAllCounts(text, 1);
    assert "this" in text && "a" in text;
    FlushIntoEmptyStore(first);
  }

  /** What a second buffer holds for a text with "this" and "common" once and no "a", for document 2. */
  lemma SecondBuffer(text: seq<string>, second: map<string, seq<Posting>>)
    requires |text| < 0x7FFF
    requires multiset(text)["this"] == 1 && multiset(text)["common"] == 1 && multiset(text)["a"] == 0
    requires second == AddAll(map[], text, 2)
    ensures second.Keys == set w | w in text
    ensures "this" in second && second["this"] == [Unit(2)]
    ensures "common" in second && second["common"] == [Unit(2)]
    ensures "a" !in second
  {
    AddAllCounts(text, 2);
    assert "this" in text && "common" in text;
  }

  /** The store after flushing the first text's words for document 1 and then the second text's for document 2. */
  lemma FlushedTexts(text1: seq<string>, text2: seq<string>, empty1: map<string, seq<Posting>>,
                     empty2: map<string, seq<Posting>>, first: map<string, seq<Posting>>, store1: map<string, seq<Element>>,
                     second: map<string, seq<Posting>>, store: map<string, seq<Element>>)
    requires |text1| < 0x7FFF && |text2| < 0x7FFF
    requires multiset(text1)["this"] == 1 && multiset(text1)["a"] == 2 && multiset(text1)["common"] == 0
    requires multiset(text2)["this"] == 1 && multiset(text2)["common"] == 1 && multiset(text2)["a"] == 0
    requires empty1 == map[] && empty2 == map[]
    requires first == AddAll(empty1, text1, 1) && store1 == Flushed(map[], first)
    requires second == AddAll(empty2, text2, 2) && store == Flushed(store1, second)
    ensures |store| == |(set w | w in text1) + (set w | w in text2)|
    ensures "this" in store && |store["this"]| == 2
    ensures "common" in store && |store["common"]| == 1
    ensures "a" in store && |store["a"]| == 1 && GetScore(store["a"][0]) == 2
  {
    FirstFlush(text1, first, store1);
    SecondBuffer(text2, second);
    assert |store| == |store.Keys|;
    FlushedThis(store1, second);
    FlushedCommon(store1, second);
    FlushedA(store1, second);
  }

  /** "this": stored for document 1, merged with the delta for document 2. */
  lemma FlushedThis(store1: map<string, seq<Element>>, second: map<string, seq<Posting>>)
    requires "this" in store1 && DecodeList(store1["this"]) == [Unit(1)]
    requires "this" in second && second["this"] == [Unit(2)]
    ensures "this" in Flushed(store1, second) && |Flushed(store1, second)["this"]| == 2
  {
    FlushedRecordsOfWord(store1, second, "this");
    MergeTwoDocuments();
  }

  /** "common": only in the second text. */
  lemma FlushedCommon(store1: map<string, seq<Element>>, second: map<string, seq<Posting>>)
    requires "common" !in store1
    requires "common" in second && second["common"] == [Unit(2)]
    ensures "common" in Flushed(store1, second) && |Flushed(store1, second)["common"]| == 1
  {
    FlushedRecordsOfWord(store1, second, "common");
    assert Lookup(store1, "common") == [] && DecodeList([]) == [];
    MergeOneDocument();
  }

  /** "a": only in the first text, kept as stored. */
  lemma FlushedA(store1: map<string, seq<Element>>, second: map<string, seq<Posting>>)
    requires "a" in store1 && DecodeList(store1["a"]) == [Posting(1, 1, 2)]
    requires "a" !in second
    ensures "a" in Flushed(store1, second) && |Flushed(store1, second)["a"]| == 1
    ensures GetScore(Flushed(store1, second)["a"][0]) == 2
  {
    var records := store1["a"];
    assert |records| == |DecodeList(records)| == 1;
    assert DecodeList(records)[0] == Decode(records[0]);
  }

  lemma MergeOneDocument()
    ensures Merge([], [Unit(2)]) == [Unit(2)]
  {
    assert Accumulate([], Unit(2)) == [Unit(2)];
  }

  lemma MergeTwoDocuments()
    ensures Merge([Unit(1)], [Unit(2)]) == [Unit(1), Unit(2)]
  {
    assert Accumulate([Unit(1)], Unit(2)) == [Unit(1), Unit(2)];
  }
}
