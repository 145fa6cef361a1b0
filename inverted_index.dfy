/**
 * The inverted index under test in tests/tracker-indexer/tracker-index-test.c:
 * tracker_index_add_word collects postings in an in-memory buffer and
 * tracker_index_flush merges the buffer into the on-disk store, a map from
 * word to the records of its posting list. The store is the QDBM depot seen as
 * a map; the test's read helpers (dprnum, dpvsiz, dpget) become functions on it.
 *
 * A posting is identified by its document id within a word's list: adding the
 * same (word, document) again accumulates the score, a new document appends a
 * posting, and a flush merges into what earlier flushes stored.
 */
module InvertedIndex {
  import opened Ints
  import opened IndexCodec

  /** The bucket count the test opens its index with. */
  const BUCKET_COUNT: nat := 100

  // ---------------------------------------------------------------------
  // Posting lists
  // ---------------------------------------------------------------------

  function Ids(l: seq<Posting>): set<uint32> {
    set i | 0 <= i < |l| :: l[i].id
  }

  lemma IdsCons(l: seq<Posting>)
    requires l != []
    ensures Ids(l) == {l[0].id} + Ids(l[1..])
  {
    forall x | x in Ids(l) ensures x in {l[0].id} + Ids(l[1..]) {
      var i :| 0 <= i < |l| && l[i].id == x;
      if i > 0 {
        assert l[1..][i - 1].id == x;
      }
    }
    forall x | x in Ids(l[1..]) ensures x in Ids(l) {
      var i :| 0 <= i < |l[1..]| && l[1..][i].id == x;
      assert l[i + 1].id == x;
    }
  }

  lemma IdsAppend(l: seq<Posting>, p: Posting)
    ensures Ids(l + [p]) == Ids(l) + {p.id}
  {
    var r := l + [p];
    assert r[|l|].id == p.id;
    forall x | x in Ids(r) ensures x in Ids(l) + {p.id} {
      var i :| 0 <= i < |r| && r[i].id == x;
      if i < |l| {
        assert l[i].id == x;
      }
    }
    forall x | x in Ids(l) ensures x in Ids(r) {
      var i :| 0 <= i < |l| && l[i].id == x;
      assert r[i].id == x;
    }
  }

  /** No two postings of the list are for the same document. */
  predicate DistinctIds(l: seq<Posting>) {
    forall i, j :: 0 <= i < j < |l| ==> l[i].id != l[j].id
  }

  lemma DistinctTail(l: seq<Posting>)
    requires DistinctIds(l) && l != []
    ensures DistinctIds(l[1..])
    ensures l[0].id !in Ids(l[1..])
  {
    forall i | 0 <= i < |l[1..]| ensures l[1..][i].id != l[0].id {
      assert l[1..][i] == l[i + 1];
    }
  }

  /** The score of document `id` in the list, 0 when it has no posting there. */
  function ScoreOf(l: seq<Posting>, id: uint32): int16 {
    if l == [] then 0 else if l[0].id == id then l[0].score else ScoreOf(l[1..], id)
  }

  /**
   * One posting added into a list: a posting for the same document has its
   * score raised by the new score (saturating), otherwise the posting is
   * appended. Other postings keep their place and value.
   */
  function Accumulate(l: seq<Posting>, p: Posting): (r: seq<Posting>)
    ensures Ids(r) == Ids(l) + {p.id}
    ensures |r| == if p.id in Ids(l) then |l| else |l| + 1
  {
    if l == [] then
      IdsAppend(l, p);
      assert l + [p] == [p];
      [p]
    else if l[0].id == p.id then
      var r := [l[0].(score := SaturatingAdd(l[0].score, p.score))] + l[1..];
      IdsCons(l);
      assert r[1..] == l[1..];
      IdsCons(r);
      r
    else
      var rest := Accumulate(l[1..], p);
      var r := [l[0]] + rest;
      IdsCons(l);
      assert r[1..] == rest;
      IdsCons(r);
      r
  }

  /** A posting for a document the list does not hold is appended. */
  lemma {:induction false} AccumulateNew(l: seq<Posting>, p: Posting)
    requires p.id !in Ids(l)
    ensures Accumulate(l, p) == l + [p]
  {
    if l != [] {
      IdsCons(l);
      AccumulateNew(l[1..], p);
      assert [l[0]] + (l[1..] + [p]) == l + [p];
    }
  }

  /** Postings for other documents keep their place and value. */
  lemma {:induction false} AccumulateKeepsOthers(l: seq<Posting>, p: Posting, i: nat)
    requires i < |l| && l[i].id != p.id
    ensures i < |Accumulate(l, p)| && Accumulate(l, p)[i] == l[i]
  {
    if i > 0 && l[0].id != p.id {
      AccumulateKeepsOthers(l[1..], p, i - 1);
    }
  }

  /** The document's score is raised by the posting's score; every other score is unchanged. */
  lemma {:induction false} AccumulateScores(l: seq<Posting>, p: Posting, id: uint32)
    ensures ScoreOf(Accumulate(l, p), p.id) == SaturatingAdd(ScoreOf(l, p.id), p.score)
    ensures id != p.id ==> ScoreOf(Accumulate(l, p), id) == ScoreOf(l, id)
  {
    if l != [] && l[0].id != p.id {
      AccumulateScores(l[1..], p, id);
      var r := Accumulate(l, p);
      assert r[1..] == Accumulate(l[1..], p);
    } else if l != [] {
      var r := Accumulate(l, p);
      assert r[1..] == l[1..];
    }
  }

  /** Accumulation keeps one posting per document. */
  lemma {:induction false} AccumulateDistinct(l: seq<Posting>, p: Posting)
    requires DistinctIds(l)
    ensures DistinctIds(Accumulate(l, p))
  {
    if l != [] {
      DistinctTail(l);
      var r := Accumulate(l, p);
      if l[0].id == p.id {
        assert r[1..] == l[1..];
        forall i, j | 0 <= i < j < |r| ensures r[i].id != r[j].id {
          assert r[i].id == l[i].id && r[j].id == l[j].id;
        }
      } else {
        AccumulateDistinct(l[1..], p);
        var rest := Accumulate(l[1..], p);
        assert r == [l[0]] + rest;
        IdsCons(l);
        forall i, j | 0 <= i < j < |r| ensures r[i].id != r[j].id {
          if i == 0 {
            assert r[j].id == rest[j - 1].id && rest[j - 1].id in Ids(rest);
          } else {
            assert r[i] == rest[i - 1] && r[j] == rest[j - 1];
          }
        }
      }
    }
  }

  /** The deltas of one word, added in order into its existing list. */
  function Merge(l: seq<Posting>, deltas: seq<Posting>): seq<Posting>
    decreases |deltas|
  {
    if deltas == [] then l
    else
      Merge(Accumulate(l, deltas[0]), deltas[1..])
  }

  // ---------------------------------------------------------------------
  // The buffer and the store as values
  // ---------------------------------------------------------------------

  function Lookup<T>(m: map<string, seq<T>>, word: string): seq<T> {
    if word in m then m[word] else []
  }

  /** tracker_index_add_word on the buffer: the word's pending list accumulates the posting. */
  function AddToBuffer(buffer: map<string, seq<Posting>>, word: string, p: Posting): (r: map<string, seq<Posting>>)
    ensures r.Keys == buffer.Keys + {word}
    ensures Ids(r[word]) == Ids(Lookup(buffer, word)) + {p.id}
    ensures forall w :: w in buffer && w != word ==> r[w] == buffer[w]
  {
    buffer[word := Accumulate(Lookup(buffer, word), p)]
  }

  /** The stored records of `word` after merging its pending deltas into what is stored. */
  function MergedRecords(store: map<string, seq<Element>>, deltas: seq<Posting>, word: string): seq<Element> {
    EncodeList(Merge(DecodeList(Lookup(store, word)), deltas))
  }

  /** tracker_index_flush on the store: every buffered word is merged, every other word is kept. */
  function Flushed(store: map<string, seq<Element>>, buffer: map<string, seq<Posting>>): (r: map<string, seq<Element>>)
    ensures r.Keys == store.Keys + buffer.Keys
    ensures forall w :: w in store && w !in buffer ==> r[w] == store[w]
  {
    map w | w in store.Keys + buffer.Keys ::
      if w in buffer then MergedRecords(store, buffer[w], w) else store[w]
  }

  /** The store part-way through a flush: the words of `done` are merged, the others untouched. */
  function PartlyFlushed(store: map<string, seq<Element>>, buffer: map<string, seq<Posting>>,
                         done: set<string>): map<string, seq<Element>>
    requires done <= buffer.Keys
  {
    map w | w in store.Keys + done ::
      if w in done then MergedRecords(store, buffer[w], w) else store[w]
  }

  lemma PartlyFlushedStep(store: map<string, seq<Element>>, buffer: map<string, seq<Posting>>,
                          done: set<string>, word: string)
    requires done <= buffer.Keys && word in buffer
    ensures PartlyFlushed(store, buffer, done + {word})
         == PartlyFlushed(store, buffer, done)[word := MergedRecords(store, buffer[word], word)]
  {
  }

  /** Before any word is merged the store is as it was; once every word is, it is the flushed store. */
  lemma PartlyFlushedEnds(store: map<string, seq<Element>>, buffer: map<string, seq<Posting>>)
    ensures PartlyFlushed(store, buffer, {}) == store
    ensures PartlyFlushed(store, buffer, buffer.Keys) == Flushed(store, buffer)
  {
  }

  /** Moving one word from the pending words to the merged ones keeps the two a partition of `keys`. */
  lemma PendingStep(keys: set<string>, pending: set<string>, done: set<string>, word: string)
    requires done == keys - pending && pending <= keys && word in pending
    ensures word in keys && word !in done
    ensures done + {word} == keys - (pending - {word}) && pending - {word} <= keys
  {
  }

  /** Merged records keep one posting per document. */
  lemma MergedRecordsDistinct(store: map<string, seq<Element>>, deltas: seq<Posting>, word: string)
    requires word in store ==> DistinctIds(DecodeList(store[word]))
    ensures DistinctIds(DecodeList(MergedRecords(store, deltas, word)))
  {
    var merged := Merge(DecodeList(Lookup(store, word)), deltas);
    MergeIds(DecodeList(Lookup(store, word)), deltas);
    DecodeEncodeList(merged);
  }

  // ---------------------------------------------------------------------
  // Properties of accumulation and flushing
  // ---------------------------------------------------------------------

  /** Merging deltas whose documents are all new appends them, in order. */
  lemma {:induction false} MergeNewDocuments(l: seq<Posting>, deltas: seq<Posting>)
    requires DistinctIds(deltas)
    requires Ids(l) !! Ids(deltas)
    ensures Merge(l, deltas) == l + deltas
    decreases |deltas|
  {
    if deltas != [] {
      var d := deltas[0];
      IdsCons(deltas);
      DistinctTail(deltas);
      AccumulateNew(l, d);
      IdsAppend(l, d);
      DisjointAfterMove(Ids(l), d.id, Ids(deltas[1..]));
      MergeNewDocuments(l + [d], deltas[1..]);
      MoveFirst(l, deltas);
    }
  }

  lemma MoveFirst(l: seq<Posting>, deltas: seq<Posting>)
    requires deltas != []
    ensures (l + [deltas[0]]) + deltas[1..] == l + deltas
  {
    assert deltas == [deltas[0]] + deltas[1..];
  }

  /** Moving the first document of the deltas to the list keeps the two sides disjoint. */
  lemma DisjointAfterMove(listIds: set<uint32>, id: uint32, restIds: set<uint32>)
    requires listIds !! ({id} + restIds) && id !in restIds
    ensures (listIds + {id}) !! restIds
  {
  }

  /** Merging keeps one posting per document and covers the documents of both sides. */
  lemma {:induction false} MergeIds(l: seq<Posting>, deltas: seq<Posting>)
    ensures DistinctIds(l) ==> DistinctIds(Merge(l, deltas))
    ensures Ids(Merge(l, deltas)) == Ids(l) + Ids(deltas)
    decreases |deltas|
  {
    if deltas != [] {
      IdsCons(deltas);
      if DistinctIds(l) {
        AccumulateDistinct(l, deltas[0]);
      }
      MergeIds(Accumulate(l, deltas[0]), deltas[1..]);
    }
  }

  /**
   * Merging only touches the documents named by the deltas: every other
   * document keeps its score.
   */
  lemma {:induction false} MergeKeepsOtherScores(l: seq<Posting>, deltas: seq<Posting>, id: uint32)
    requires id !in Ids(deltas)
    ensures ScoreOf(Merge(l, deltas), id) == ScoreOf(l, id)
    decreases |deltas|
  {
    if deltas != [] {
      IdsCons(deltas);
      AccumulateScores(l, deltas[0], id);
      MergeKeepsOtherScores(Accumulate(l, deltas[0]), deltas[1..], id);
    }
  }

  /** Merging one delta for a document raises that document's stored score by the delta's score. */
  lemma {:induction false} MergeOneDelta(l: seq<Posting>, d: Posting)
    ensures ScoreOf(Merge(l, [d]), d.id) == SaturatingAdd(ScoreOf(l, d.id), d.score)
  {
    assert [d][1..] == [];
    AccumulateScores(l, d, d.id);
  }

  /** Flushing an empty buffer changes nothing. */
  lemma FlushEmptyBuffer(store: map<string, seq<Element>>)
    ensures Flushed(store, map[]) == store
  {
    assert Flushed(store, map[]).Keys == store.Keys;
  }

  /**
   * Flushing into an empty store writes every buffered list as it is: the
   * records read back are exactly the buffered postings.
   */
  lemma FlushIntoEmptyStore(buffer: map<string, seq<Posting>>)
    requires forall w :: w in buffer ==> DistinctIds(buffer[w])
    ensures Flushed(map[], buffer).Keys == buffer.Keys
    ensures forall w :: w in buffer ==> DecodeList(Flushed(map[], buffer)[w]) == buffer[w]
  {
    forall w | w in buffer ensures DecodeList(Flushed(map[], buffer)[w]) == buffer[w] {
      assert Ids([]) == {};
      MergeNewDocuments([], buffer[w]);
      assert [] + buffer[w] == buffer[w];
      DecodeEncodeList(buffer[w]);
    }
  }

  /** The records a flush stores for a buffered word read back as the stored list merged with the deltas. */
  lemma FlushedRecordsOfWord(store: map<string, seq<Element>>, buffer: map<string, seq<Posting>>, word: string)
    requires word in buffer
    ensures word in Flushed(store, buffer)
    ensures DecodeList(Flushed(store, buffer)[word]) == Merge(DecodeList(Lookup(store, word)), buffer[word])
  {
    DecodeEncodeList(Merge(DecodeList(Lookup(store, word)), buffer[word]));
  }

  /** Flushing one word into an empty store stores that word's encoded list and nothing else. */
  lemma FlushOneWord(word: string, l: seq<Posting>)
    requires DistinctIds(l)
    ensures Flushed(map[], map[word := l]) == map[word := EncodeList(l)]
  {
    var store: map<string, seq<Element>> := map[];
    var f := Flushed(store, map[word := l]);
    assert Ids([]) == {};
    MergeNewDocuments([], l);
    assert [] + l == l;
    assert Lookup(store, word) == [] && DecodeList([]) == [];
    assert f[word] == MergedRecords(store, l, word) == EncodeList(l);
    assert f.Keys == {word};
    SingletonMap(f, word, EncodeList(l));
  }

  lemma SingletonMap<V>(f: map<string, V>, word: string, v: V)
    requires f.Keys == {word} && word in f && f[word] == v
    ensures f == map[word := v]
  {
  }

  /**
   * A flush merges with what is stored instead of overwriting it: a document
   * stored for a word stays stored, with its score, unless the buffer holds a
   * delta for it.
   */
  lemma FlushKeepsStoredPostings(store: map<string, seq<Element>>, buffer: map<string, seq<Posting>>,
                                 word: string, id: uint32)
    requires word in store && id in Ids(DecodeList(store[word]))
    requires id !in Ids(Lookup(buffer, word))
    ensures word in Flushed(store, buffer)
    ensures id in Ids(DecodeList(Flushed(store, buffer)[word]))
    ensures ScoreOf(DecodeList(Flushed(store, buffer)[word]), id) == ScoreOf(DecodeList(store[word]), id)
  {
    if word in buffer {
      var before := DecodeList(store[word]);
      var merged := Merge(before, buffer[word]);
      DecodeEncodeList(merged);
      MergeIds(before, buffer[word]);
      MergeKeepsOtherScores(before, buffer[word], id);
    }
  }

  // ---------------------------------------------------------------------
  // The test's read helpers, on the store
  // ---------------------------------------------------------------------

  /** get_number_words_in_index: dprnum, the number of stored words. */
  function NumberWordsInIndex(store: map<string, seq<Element>>): (n: nat)
    ensures n == |store.Keys|
  {
    |store|
  }

  /** dpvsiz: the byte size of a word's stored value, -1 when the word is absent. */
  function ValueSize(store: map<string, seq<Element>>, word: string): (n: int)
    ensures word in store ==> n == |store[word]| * ELEMENT_SIZE
    ensures word !in store ==> n == -1
  {
    if word in store then |store[word]| * ELEMENT_SIZE else -1
  }

  /**
   * get_results_for_word: `result / sizeof (TrackerIndexElement)` as C computes
   * it. sizeof is a size_t, so a -1 size is first converted to 2^64 - 1, and
   * the quotient is then truncated to a gint on return.
   */
  function ResultsForWord(store: map<string, seq<Element>>, word: string): (n: int)
    ensures word in store && |store[word]| < 0x8000_0000 ==> n == |store[word]|
    ensures word !in store ==> n == -1
  {
    ToInt32(ToUInt64(ValueSize(store, word)) / ELEMENT_SIZE)
  }

  /**
   * get_score_for_word: the score of the word's first record when the word has
   * exactly one record, -1 otherwise.
   */
  function ScoreForWord(store: map<string, seq<Element>>, word: string): (score: int)
    ensures word in store && |store[word]| == 1 ==> score == GetScore(store[word][0])
    ensures !(word in store && |store[word]| == 1) ==> score == -1
  {
    if word in store && |store[word]| * ELEMENT_SIZE / ELEMENT_SIZE == 1 then GetScore(store[word][0])
    else -1
  }

  // ---------------------------------------------------------------------
  // The index object
  // ---------------------------------------------------------------------

  class Index {
    const bucketCount: nat
    /** Postings added since the last flush, by word. */
    var buffer: map<string, seq<Posting>>
    /** The on-disk depot: the records of every flushed word. */
    var store: map<string, seq<Element>>

    /** Every list, pending or stored, has at most one posting per document. */
    ghost predicate Valid()
      reads this
    {
      && (forall w :: w in buffer ==> DistinctIds(buffer[w]))
      && (forall w :: w in store ==> DistinctIds(DecodeList(store[w])))
    }

    /** tracker_index_new on a fresh file: an empty buffer and an empty store. */
    constructor (bucketCount: nat)
      ensures Valid()
      ensures this.bucketCount == bucketCount
      ensures buffer == map[] && store == map[]
    {
      this.bucketCount := bucketCount;
      buffer := map[];
      store := map[];
    }

    /** tracker_index_add_word: only the buffer changes; nothing is written to the store. */
    method AddWord(word: string, serviceId: uint32, serviceType: uint8, weight: int16)
      requires Valid()
      modifies this
      ensures Valid()
      ensures buffer == AddToBuffer(old(buffer), word, Posting(serviceId, serviceType, weight))
      ensures store == old(store)
    {
      var elements := if word in buffer then buffer[word] else [];
      AccumulateDistinct(elements, Posting(serviceId, serviceType, weight));
      elements := Accumulate(elements, Posting(serviceId, serviceType, weight));
      buffer := buffer[word := elements];
    }

    /** tracker_index_flush: each buffered word is merged into its stored list, then the buffer is emptied. */
    method Flush()
      requires Valid()
      modifies this
      ensures Valid()
      ensures store == Flushed(old(store), old(buffer))
      ensures buffer == map[]
    {
      var pending := buffer.Keys;
      ghost var stored := store;
      ghost var done: set<string> := {};
      PartlyFlushedEnds(stored, buffer);
      while pending != {}
        invariant buffer == old(buffer)
        invariant done == buffer.Keys - pending && pending <= buffer.Keys
        invariant store == PartlyFlushed(stored, buffer, done)
        invariant forall w :: w in stored ==> DistinctIds(DecodeList(stored[w]))
        invariant forall w :: w in store ==> DistinctIds(DecodeList(store[w]))
        decreases pending
      {
        var word :| word in pending;
        PendingStep(buffer.Keys, pending, done, word);
        var current := if word in store then DecodeList(store[word]) else [];
        assert current == DecodeList(Lookup(stored, word));
        var merged := Merge(current, buffer[word]);
        MergedRecordsDistinct(stored, buffer[word], word);
        PartlyFlushedStep(stored, buffer, done, word);
        assert EncodeList(merged) == MergedRecords(stored, buffer[word], word);
        store := store[word := EncodeList(merged)];
        pending := pending - {word};
        done := done + {word};
      }
      assert done == buffer.Keys;
      buffer := map[];
    }
  }
}
