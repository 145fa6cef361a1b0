# Tracker core, modelled in Dafny

This project models the small, sequential core of the Tracker desktop
search daemon and proves properties of it:

- **the daemon's directory-monitor table** (`src/trackerd/tracker-monitor.c`):
  - the module-level `monitors` hash table and the `config` reference;
  - `init`, `shutdown`, and `add` (idempotent and capped at `MAX_MONITORS`);
  - `remove`, `is_watched` and `get_count`.

  `MAX_MONITORS` is written with C's `^`, which is exclusive or, so the cap
  is 4294966811 rather than 7692. The model keeps that value.
- **the daemon's helpers** (`src/trackerd/tracker-utils.c`):
  - stripping a suffix;
  - prepending a value to a key's list in a metadata hash table;
  - the throttle sleep amount;
  - the low-disk-space percentage test;
  - the two pause decisions.
- **the store's configuration object** (`src/tracker-store/tracker-config.c`):
  - the five settings with their defaults and declared ranges;
  - the getters and setters;
  - filling a key file with defaults;
  - loading each key only when it reads without error;
  - saving the settings back to the key file;
  - which file-monitor events reload the file.
- **the inverted index as its test drives it** (`tests/tracker-indexer/tracker-index-test.c`):
  - a pending buffer of postings and an on-disk store of 8-byte records;
  - `add_word`, which accumulates the score of a repeated (word, document);
  - `flush`, which merges the buffer into what earlier flushes stored;
  - the test's own record decoder `helper_get_score`, modelled bit for bit;
  - the test's query helpers.
- **the tokenizer as its test drives it** (`tests/libtracker-common/tracker-parser-test.c`):
  - `tracker_parser_text` over the whitespace tokens of the sample text;
  - a distinct-word cap, a minimum length, a maximum length that truncates
    rather than drops, and optional number filtering.
- **the string utilities of libtracker-common** (`tests/libtracker-common/tracker-type-utils-test.c`):
  - list join and split;
  - index-of;
  - boolean-text mapping;
  - the integer renderers and their parser;
  - list-to-array conversion.

The indexer (`tracker-index.c`), the tokenizer (`tracker-parser.c`) and the
string utilities (`tracker-type-utils.c`) are not part of this model's
sources. For them the model states exactly what their tests assert and
proves those assertions from an abstract definition.

The modules are:
- `Wrappers`: `Option` and `Result`.
- `Ints`: the C integer widths and their wrap-around conversions.
- `TypeUtils`, `Parser` and `ParserScenarios`.
- `IndexCodec`, `InvertedIndex` and `IndexScenarios`.
- `Monitor`, `DaemonUtils` and `StoreConfig`.

State the source changes in place becomes a class:
- `Monitor.Monitors` (the two globals);
- `DaemonUtils.MetadataTable` (the metadata hash table);
- `StoreConfig.Config` (the private record and its key file);
- `InvertedIndex.Index` (buffer and store).

Each method is proved against a function on values, and the lemmas are about those functions.

## Model

| member | source | states |
|---|---|---|
| Ints.ToInt16 | tests/tracker-indexer/tracker-index-test.c:27 | the `(gint16)` cast: congruent modulo 2^16 and the identity in range |
| Ints.ToInt32 | src/trackerd/tracker-monitor.c:153 | the `guint`→`gint` conversion: congruent modulo 2^32 and the identity in range |
| Ints.ToUInt32 | src/trackerd/tracker-monitor.c:32 | the `(guint)` cast of a negative value wraps modulo 2^32 |
| Ints.ToUInt64 | tests/tracker-indexer/tracker-index-test.c:59 | the signed-to-`size_t` conversion wraps modulo 2^64 |
| IndexCodec.GetScore | tests/tracker-indexer/tracker-index-test.c:19-28 | the score is the signed 16-bit value with bits 16–23 as high byte and bits 8–15 as low byte |
| IndexCodec.GetScoreIgnoresOuterBytes | tests/tracker-indexer/tracker-index-test.c:19-28 | bits 0–7 and 24–31 of the amalgamated word never change the score |
| IndexCodec.DecodeEncode | tests/tracker-indexer/tracker-index-test.c:14-28 | a posting written as a record reads back with the same id and score |
| IndexCodec.EncodeDecode | tests/tracker-indexer/tracker-index-test.c:14-17 | a record holding a score is re-encoded to the same two 32-bit words |
| IndexCodec.DecodeEncodeList | tests/tracker-indexer/tracker-index-test.c:14-17 | a whole stored value decodes back to the postings written |
| IndexCodec.SaturatingAdd | tests/tracker-indexer/tracker-index-test.c:202-213 | a repeated posting adds its weight to the score, clamped to the `gint16` range |
| InvertedIndex.Accumulate | tests/tracker-indexer/tracker-index-test.c:169-213 | the ids after adding a posting are the old ids plus its id; the list grows by one only for a new document |
| InvertedIndex.AccumulateNew | tests/tracker-indexer/tracker-index-test.c:179-187 | a posting for a new document is appended as is |
| InvertedIndex.AccumulateKeepsOthers | tests/tracker-indexer/tracker-index-test.c:179-187 | postings of other documents keep their scores |
| InvertedIndex.AccumulateScores | tests/tracker-indexer/tracker-index-test.c:202-213 | a posting for a present document adds its weight to that document's score |
| InvertedIndex.AccumulateDistinct | tests/tracker-indexer/tracker-index-test.c:211-212 | accumulating never creates a second posting for one document |
| InvertedIndex.MergeNewDocuments | tests/tracker-indexer/tracker-index-test.c:243-254 | a flush merges with the stored postings and appends documents not yet stored |
| InvertedIndex.MergeIds | tests/tracker-indexer/tracker-index-test.c:249-255 | the merged ids are exactly the stored ids plus the buffered ids |
| InvertedIndex.MergeKeepsOtherScores | tests/tracker-indexer/tracker-index-test.c:249-256 | stored documents absent from the buffer keep their scores |
| InvertedIndex.MergeOneDelta | tests/tracker-indexer/tracker-index-test.c:249-256 | merging one buffered posting is accumulating it into the stored list |
| InvertedIndex.AddToBuffer | tests/tracker-indexer/tracker-index-test.c:131 | adding a word gives the old words plus the word, the word's documents plus the new one, and leaves other words' lists unchanged |
| InvertedIndex.Flushed | tests/tracker-indexer/tracker-index-test.c:241-256 | after a flush the stored words are the old words plus the buffered words, and an unbuffered stored word keeps its records |
| InvertedIndex.FlushEmptyBuffer | tests/tracker-indexer/tracker-index-test.c:241-249 | flushing an empty buffer leaves the store unchanged |
| InvertedIndex.FlushIntoEmptyStore | tests/tracker-indexer/tracker-index-test.c:131-136 | a first flush stores each buffered word with its buffered postings |
| InvertedIndex.FlushedRecordsOfWord | tests/tracker-indexer/tracker-index-test.c:243-255 | a buffered word's stored records are its old postings merged with the buffered ones |
| InvertedIndex.FlushOneWord | tests/tracker-indexer/tracker-index-test.c:131-136 | one word with one posting flushed into an empty store gives one word with one posting |
| InvertedIndex.FlushKeepsStoredPostings | tests/tracker-indexer/tracker-index-test.c:249-256 | a flush never drops a stored document or a stored word |
| InvertedIndex.NumberWordsInIndex | tests/tracker-indexer/tracker-index-test.c:32-45 | the number of records in the depot is the number of stored words |
| InvertedIndex.ValueSize | tests/tracker-indexer/tracker-index-test.c:55 | `dpvsiz`: -1 for a missing word, 8 bytes per posting otherwise |
| InvertedIndex.ResultsForWord | tests/tracker-indexer/tracker-index-test.c:47-60 | the number of postings for a stored word; -1 for a missing one after the `size_t` division and `gint` truncation |
| InvertedIndex.ScoreForWord | tests/tracker-indexer/tracker-index-test.c:62-83 | the decoded score when the word has exactly one posting, and -1 otherwise |
| InvertedIndex.Index.constructor | tests/tracker-indexer/tracker-index-test.c:129 | a new index has an empty buffer and an empty store |
| InvertedIndex.Index.AddWord | tests/tracker-indexer/tracker-index-test.c:131 | the buffer accumulates the posting for the word and the store is unchanged |
| InvertedIndex.Index.Flush | tests/tracker-indexer/tracker-index-test.c:132 | the store becomes the old store merged with the buffer, and the buffer is emptied |
| IndexScenarios.AddOneWord | tests/tracker-indexer/tracker-index-test.c:122-139 | one word added and flushed: 1 word in the index, 1 result for it |
| IndexScenarios.NumberedWordInjective | tests/tracker-indexer/tracker-index-test.c:156 | `word%d` gives distinct words for distinct numbers |
| IndexScenarios.NumberedBufferStep | tests/tracker-indexer/tracker-index-test.c:155-159 | after the first n iterations the buffer holds words 0..n-1, each with one posting |
| IndexScenarios.NumberedBufferFlushed | tests/tracker-indexer/tracker-index-test.c:161-165 | flushing the 20 words gives 20 stored words and 1 result for `word5` |
| IndexScenarios.AddNWords | tests/tracker-indexer/tracker-index-test.c:142-167 | 20 distinct words: 20 words in the index, 1 result for `word5` |
| IndexScenarios.AddWordNTimes | tests/tracker-indexer/tracker-index-test.c:169-190 | one word for 20 distinct documents: 1 word, 20 results |
| IndexScenarios.AddWordMultipleOccurrences | tests/tracker-indexer/tracker-index-test.c:192-217 | one (word, document) added 20 times: 1 word, 1 result, score 20 |
| IndexScenarios.AddAllCounts | tests/tracker-indexer/tracker-index-test.c:236-240 | adding a text's words for one document stores each distinct word once, with score equal to its number of occurrences |
| IndexScenarios.AddOneCount | tests/tracker-indexer/tracker-index-test.c:236-240 | one more word keeps one posting per distinct word with score equal to its number of occurrences |
| IndexScenarios.FirstTextWords | tests/tracker-indexer/tracker-index-test.c:229 | the words of the first text |
| IndexScenarios.SecondTextWords | tests/tracker-indexer/tracker-index-test.c:230 | the words of the second text |
| IndexScenarios.TextWords | tests/tracker-indexer/tracker-index-test.c:229-230 | the two texts have 18 distinct words in total |
| IndexScenarios.FirstTextCounts | tests/tracker-indexer/tracker-index-test.c:229 | "a" occurs twice in the first text and "common" does not occur |
| IndexScenarios.SecondTextCounts | tests/tracker-indexer/tracker-index-test.c:230 | "this" and "common" occur once in the second text and "a" does not occur |
| IndexScenarios.AddText | tests/tracker-indexer/tracker-index-test.c:236-240 | the split-and-add loop leaves the buffer equal to the text's words added for the document |
| IndexScenarios.AddWithFlushes | tests/tracker-indexer/tracker-index-test.c:220-259 | two texts with a flush after each: 18 words, 2 results for "this", 1 for "common", score 2 for "a" |
| IndexScenarios.FirstFlush | tests/tracker-indexer/tracker-index-test.c:235-241 | the store after the first flush holds the first text's words for document 1 |
| IndexScenarios.SecondBuffer | tests/tracker-indexer/tracker-index-test.c:243-248 | the second buffer holds the second text's words for document 2 |
| IndexScenarios.FlushedTexts | tests/tracker-indexer/tracker-index-test.c:249-253 | after the second flush the store has one word per distinct word of the two texts, 2 postings for "this", 1 for "common" and score 2 for "a" |
| IndexScenarios.FlushedThis | tests/tracker-indexer/tracker-index-test.c:254 | "this" has postings for documents 1 and 2 |
| IndexScenarios.FlushedCommon | tests/tracker-indexer/tracker-index-test.c:255 | "common" has one posting |
| IndexScenarios.FlushedA | tests/tracker-indexer/tracker-index-test.c:256 | "a" has one posting with score 2 |
| Parser.Key | tests/libtracker-common/tracker-parser-test.c:59-78 | a key is the token truncated to the maximum length, and is a prefix of it |
| Parser.AddToken | tests/libtracker-common/tracker-parser-test.c:37-54 | one token keeps every key, adds at most its own key and only when admissible, and never takes the table past the cap |
| Parser.ParseText | tests/libtracker-common/tracker-parser-test.c:37-121 | parsing keeps the keys already in the table and never takes a table within the cap past it |
| Parser.AddTokenComplete | tests/libtracker-common/tracker-parser-test.c:37-54 | a token never loses a key or frees room, and its own key enters unless the table is full |
| Parser.AddTokenWeights | tests/libtracker-common/tracker-parser-test.c:42-49 | an added token adds its weight to its key's entry |
| Parser.ParseTextKeys | tests/libtracker-common/tracker-parser-test.c:37-121 | every key comes from an admissible token and the table never exceeds the cap |
| Parser.ParseTextComplete | tests/libtracker-common/tracker-parser-test.c:83-121 | below the cap, every admissible token's key is in the table |
| Parser.ParseTextWeights | tests/libtracker-common/tracker-parser-test.c:42-49 | below the cap, a key's weight is the weight times its number of occurrences |
| Parser.NumbersFiltered | tests/libtracker-common/tracker-parser-test.c:89-98 | with number filtering on, no all-digit token becomes a key |
| Parser.KeysWithinMaxLength | tests/libtracker-common/tracker-parser-test.c:26-32 | every key is at most the maximum length long |
| Parser.AllKeysFit | tests/libtracker-common/tracker-parser-test.c:106-117 | when there are fewer distinct keys than the cap, the table has exactly those keys |
| Parser.CapReached | tests/libtracker-common/tracker-parser-test.c:37-54 | with at least cap distinct admissible keys, the table has exactly cap entries |
| ParserScenarios.MaxWordsToIndex | tests/libtracker-common/tracker-parser-test.c:37-54 | the sample with cap 5, min 3 and max 18 gives 5 entries |
| ParserScenarios.ShortKeys | tests/libtracker-common/tracker-parser-test.c:59-78 | with max length 6, the keys are the 7 tokens of length at least 3, truncated to 6 |
| ParserScenarios.MaxLength | tests/libtracker-common/tracker-parser-test.c:59-78 | the sample with max 6, min 3 and cap 10 gives 7 entries, each at most 6 long |
| ParserScenarios.WordKeys | tests/libtracker-common/tracker-parser-test.c:88-100 | with filtering, the keys are the 9 tokens other than "12345678" |
| ParserScenarios.FilterNumbers | tests/libtracker-common/tracker-parser-test.c:83-103 | with filtering, "12345678" is absent and 9 entries remain |
| ParserScenarios.DigitsFiltered | tests/libtracker-common/tracker-parser-test.c:98 | with filtering, "12345678" is not a key |
| ParserScenarios.AllTokenKeys | tests/libtracker-common/tracker-parser-test.c:105-117 | without filtering, the keys are all 10 tokens |
| ParserScenarios.NoFilterNumbers | tests/libtracker-common/tracker-parser-test.c:105-120 | without filtering, 10 entries including "12345678" |
| TypeUtils.SplitPieces | tests/libtracker-common/tracker-type-utils-test.c:306 | `g_strsplit` pieces contain no separator and join back to the text |
| TypeUtils.Split | tests/libtracker-common/tracker-type-utils-test.c:306 | the pieces of `g_strsplit` with no limit join back to the text |
| TypeUtils.SplitJoin | tests/libtracker-common/tracker-type-utils-test.c:306-309 | splitting then joining gives back the text |
| TypeUtils.SplitOfJoin | tests/libtracker-common/tracker-type-utils-test.c:306-309 | joining pieces free of the separator then splitting gives back the pieces |
| TypeUtils.StringListToString | tests/libtracker-common/tracker-type-utils-test.c:299-331 | joins the first n pieces with the separator; n = -1 or n past the end joins them all |
| TypeUtils.StringListToStringSplits | tests/libtracker-common/tracker-type-utils-test.c:306-314 | the joined text splits back into the first n pieces |
| TypeUtils.StringListToStringTestValues | tests/libtracker-common/tracker-type-utils-test.c:299-331 | "one two three four" round-trips; 3 pieces with '_' give "one_two_three"; -1 and 6 join all |
| TypeUtils.StringInStringList | tests/libtracker-common/tracker-type-utils-test.c:250-270 | -1 iff the string is absent; otherwise the first index holding an equal string |
| TypeUtils.FirstIndex | tests/libtracker-common/tracker-type-utils-test.c:250-270 | an index holding the string with no earlier occurrence is the index the search returns |
| TypeUtils.StringInStringListTestValues | tests/libtracker-common/tracker-type-utils-test.c:253-269 | "is" is at 1 and "Audio:Title" at 12 |
| TypeUtils.BooleanAsTextToNumber | tests/libtracker-common/tracker-type-utils-test.c:334-384 | "true" in any letter case gives "1", "false" gives "0", other text is returned unchanged |
| TypeUtils.BooleanAsTextToNumberIdempotent | tests/libtracker-common/tracker-type-utils-test.c:334-384 | mapping twice is mapping once |
| TypeUtils.BooleanTestValues | tests/libtracker-common/tracker-type-utils-test.c:340-383 | the nine values of the test map as asserted |
| TypeUtils.DecimalRoundTrip | tests/libtracker-common/tracker-type-utils-test.c:133-211 | every rendered integer parses back to itself |
| TypeUtils.LongToString | tests/libtracker-common/tracker-type-utils-test.c:133-148 | canonical base-10 text (no leading zeros), with '-' exactly for negatives, that parses back to the value |
| TypeUtils.IntToString | tests/libtracker-common/tracker-type-utils-test.c:150-166 | canonical base-10 text (no leading zeros), with '-' exactly for negatives, that parses back to the value; defined as `LongToString` |
| TypeUtils.UintToString | tests/libtracker-common/tracker-type-utils-test.c:169-179 | base-10 text that parses back to the value |
| TypeUtils.Gint32ToString | tests/libtracker-common/tracker-type-utils-test.c:181-197 | canonical base-10 text (no leading zeros), with '-' exactly for negatives, that parses back to the value; defined as `LongToString` |
| TypeUtils.Guint32ToString | tests/libtracker-common/tracker-type-utils-test.c:200-211 | canonical base-10 text whose value is n; defined as `UintToString` |
| TypeUtils.RendererTestValues | tests/libtracker-common/tracker-type-utils-test.c:133-211 | the renderers give "10050", "-9950", "654", "-963", "100" and "-96" |
| TypeUtils.StringToUint | tests/libtracker-common/tracker-type-utils-test.c:214-247 | succeeds iff the text is digits only with a value that fits a `guint` |
| TypeUtils.StringToUintOfUintToString | tests/libtracker-common/tracker-type-utils-test.c:214-222 | parsing a rendered `guint` gives it back |
| TypeUtils.UintToStringOfStringToUint | tests/libtracker-common/tracker-type-utils-test.c:214-222 | rendering a parsed value gives back its canonical text |
| TypeUtils.StringToUintTestValues | tests/libtracker-common/tracker-type-utils-test.c:219-246 | "10" gives 10, and "i am not a number" and "-20" fail |
| TypeUtils.ToVector | tests/libtracker-common/tracker-type-utils-test.c:272-296 | the array has the list's length and its elements in order |
| TypeUtils.FromVector | tests/libtracker-common/tracker-type-utils-test.c:278-284 | the list has the array's length; the round-trip lemmas below fix its elements and order |
| TypeUtils.GSListToStringList | tests/libtracker-common/tracker-type-utils-test.c:272-296 | the array keeps the list's elements in order |
| TypeUtils.ToVectorFromVector | tests/libtracker-common/tracker-type-utils-test.c:278-288 | array → list → array is the identity |
| TypeUtils.FromVectorToVector | tests/libtracker-common/tracker-type-utils-test.c:278-288 | list → array → list is the identity |
| TypeUtils.GSListTestValues | tests/libtracker-common/tracker-type-utils-test.c:278-288 | "one", "two", "three", "four" come out in that order |
| Monitor.MaxMonitorsValue | src/trackerd/tracker-monitor.c:32 | the cap is 4294966811 and not 7692 |
| Monitor.AfterInit | src/trackerd/tracker-monitor.c:37-54 | without a config nothing changes; with one both globals are set, and no path is added or lost |
| Monitor.AfterAdd | src/trackerd/tracker-monitor.c:70-118 | the config is untouched, at most one path is added, the cap holds, and an already watched path changes nothing |
| Monitor.AfterRemove | src/trackerd/tracker-monitor.c:120-140 | the config is untouched, the path is no longer watched, and no path is added |
| Monitor.InitIdempotent | src/trackerd/tracker-monitor.c:37-54 | init sets each global only if NULL, so a second init changes nothing |
| Monitor.AddIdempotent | src/trackerd/tracker-monitor.c:79-81 | adding a watched path changes nothing, so adding twice is adding once |
| Monitor.AddEffect | src/trackerd/tracker-monitor.c:84-117 | a successful add watches exactly one more path; a full table or a failed monitor leaves the table as it was |
| Monitor.UninitialisedTable | src/trackerd/tracker-monitor.c:34-35 | before init the count is 0, nothing is watched, and add and remove change nothing |
| Monitor.RemoveEffect | src/trackerd/tracker-monitor.c:120-140 | after a remove the path is not watched and every other entry is as it was |
| Monitor.AddThenRemove | src/trackerd/tracker-monitor.c:113-133 | removing what an add inserted restores the globals |
| Monitor.Monitors.constructor | src/trackerd/tracker-monitor.c:34-35 | both globals start NULL |
| Monitor.Monitors.Init | src/trackerd/tracker-monitor.c:37-54 | FALSE iff the config is NULL; otherwise each global is set only if it was NULL |
| Monitor.Monitors.Shutdown | src/trackerd/tracker-monitor.c:56-68 | both globals dropped |
| Monitor.Monitors.Add | src/trackerd/tracker-monitor.c:70-118 | TRUE iff the path is non-NULL and already watched or inserted; the table never exceeds the cap |
| Monitor.Monitors.Remove | src/trackerd/tracker-monitor.c:120-140 | TRUE iff the path is non-NULL; the path is no longer watched |
| Monitor.Monitors.IsWatched | src/trackerd/tracker-monitor.c:142-148 | TRUE iff the path is non-NULL and a key of the table |
| Monitor.Monitors.GetCount | src/trackerd/tracker-monitor.c:150-154 | the table size as a `gint` |
| DaemonUtils.LastOccurrenceFrom | src/trackerd/tracker-utils.c:43 | the last position where the needle occurs, searching from a start position |
| DaemonUtils.LastOccurrence | src/trackerd/tracker-utils.c:43 | `g_strrstr`: the last position where the needle occurs; an empty needle is found at the start |
| DaemonUtils.RadixBySuffix | src/trackerd/tracker-utils.c:35-47 | NULL unless both are non-NULL and the text ends with the suffix; with a non-empty suffix, result plus suffix is the text |
| DaemonUtils.RadixBySuffixCorrected | src/trackerd/tracker-utils.c:35-47 | as above, and result plus suffix is the text for every suffix |
| DaemonUtils.RadixAgreesOnNonEmptySuffix | src/trackerd/tracker-utils.c:42-43 | the code as written and the corrected function agree except on the empty suffix |
| DaemonUtils.RadixEmptySuffix | src/trackerd/tracker-utils.c:42-43 | with an empty suffix the code as written returns "" where the text itself is meant |
| DaemonUtils.Throttle | src/trackerd/tracker-utils.c:49-65 | no sleep when the throttle is below 1 or the product is not positive; otherwise a sleep of throttle × multiplier |
| DaemonUtils.ThrottleMonotone | src/trackerd/tracker-utils.c:60-64 | without overflow, a larger multiplier never sleeps less |
| DaemonUtils.ThrottleWraps | src/trackerd/tracker-utils.c:60-64 | a product past `gint` wraps, and a large positive product can become no sleep |
| DaemonUtils.IsLowDiskSpace | src/trackerd/tracker-utils.c:80-112 | low iff the limit is at least 1, statvfs succeeds and available × 100 / blocks, rounded down, is at most the limit (stated without division: available × 100 < (limit + 1) × blocks) |
| DaemonUtils.LowDiskSpaceMonotone | src/trackerd/tracker-utils.c:106-111 | a higher limit never turns low disk space off |
| DaemonUtils.FullDiskIsLow | src/trackerd/tracker-utils.c:106-111 | with no blocks available any positive limit is low |
| DaemonUtils.ShouldPauseOnBattery | src/trackerd/tracker-utils.c:123-135 | pause iff the battery pause is set and so is the config flag the first-time-index state selects (the on-battery-init flag during the first index, the on-battery flag otherwise) |
| DaemonUtils.ShouldPause | src/trackerd/tracker-utils.c:114-121 | pause iff manual pause, or the battery pause with its selected config flag, or low disk space, or databases too big |
| DaemonUtils.ShouldPauseDisabled | src/trackerd/tracker-utils.c:114-135 | with no manual or battery pause, a limit below 1 and small databases, never pause |
| DaemonUtils.AddedMetadata | src/trackerd/tracker-utils.c:67-78 | the table after an add has the old keys plus the key |
| DaemonUtils.AddedAllPrepends | src/trackerd/tracker-utils.c:67-78 | repeated adds leave the values in reverse order in front of the old list |
| DaemonUtils.MetadataTable.AddMetadata | src/trackerd/tracker-utils.c:67-78 | the key maps to the value prepended to its previous list (empty if none), and other keys are unchanged |
| StoreConfig.KeysDistinct | src/tracker-store/tracker-config.c:36-46 | the five settings live under five distinct group/key pairs |
| StoreConfig.WithIntFieldIndependent | src/tracker-store/tracker-config.c:804-888 | setting one integer property leaves the others unchanged |
| StoreConfig.DefaultsInRange | src/tracker-store/tracker-config.c:116-167 | each default lies in its declared range |
| StoreConfig.ReadInteger | src/tracker-store/tracker-config.c:388-393 | an integer read fails for a missing key or text that is not a `gint`, and otherwise gives its value |
| StoreConfig.ReadBoolean | src/tracker-store/tracker-config.c:408-413 | a boolean read gives true for "true"/"1", false for "false"/"0", and fails otherwise |
| StoreConfig.ReadWritten | src/tracker-store/tracker-config.c:449-473 | an integer or boolean written to the key file reads back as written |
| StoreConfig.DefaultEntry | src/tracker-store/tracker-config.c:310-316 | a key's default is written iff overwriting or the key is absent; other keys unchanged |
| StoreConfig.DefaultTextsRendered | src/tracker-store/tracker-config.c:316-350 | the default texts written are the defaults rendered in base 10 |
| StoreConfig.DefaultTexts | src/tracker-store/tracker-config.c:303-351 | after filling with overwrite each key holds its default's text |
| StoreConfig.WithDefaultsKeys | src/tracker-store/tracker-config.c:303-351 | filling adds exactly the five keys |
| StoreConfig.WithDefaultsPreserves | src/tracker-store/tracker-config.c:303-351 | without overwrite an existing key keeps its text |
| StoreConfig.WithDefaultsIdempotent | src/tracker-store/tracker-config.c:303-351 | filling twice is filling once |
| StoreConfig.LoadedIntEffect | src/tracker-store/tracker-config.c:382-400 | a load changes its property only on a successful in-range read, and never another property |
| StoreConfig.LoadDefaults | src/tracker-store/tracker-config.c:578-596 | loading a key file just filled with defaults gives the default settings |
| StoreConfig.SavedKeys | src/tracker-store/tracker-config.c:618-627 | saving writes each property under its own key and leaves other keys unchanged |
| StoreConfig.SaveLoadRoundTrip | src/tracker-store/tracker-config.c:587-627 | loading what was saved restores in-range settings |
| StoreConfig.LoadedAllRead | src/tracker-store/tracker-config.c:587-596 | when every key reads back the matching in-range setting, the five loads yield exactly those settings |
| StoreConfig.SaveLoadOutOfRange | src/tracker-store/tracker-config.c:804-820 | any integer property set out of its declared range is saved, but a load keeps the earlier value instead of restoring it |
| StoreConfig.Config.constructor | src/tracker-store/tracker-config.c:116-167 | a new object holds the defaults |
| StoreConfig.Config.GetVerbosity | src/tracker-store/tracker-config.c:743-753 | returns the verbosity |
| StoreConfig.Config.GetLowMemoryMode | src/tracker-store/tracker-config.c:755-765 | returns the low-memory mode |
| StoreConfig.Config.GetMinWordLength | src/tracker-store/tracker-config.c:767-778 | returns the minimum word length |
| StoreConfig.Config.GetMaxWordLength | src/tracker-store/tracker-config.c:780-790 | returns the maximum word length |
| StoreConfig.Config.GetMaxWordsToIndex | src/tracker-store/tracker-config.c:792-802 | returns the word cap |
| StoreConfig.Config.SetVerbosity | src/tracker-store/tracker-config.c:804-820 | sets the verbosity without rejecting any value, and nothing else |
| StoreConfig.Config.SetLowMemoryMode | src/tracker-store/tracker-config.c:822-834 | sets the low-memory mode and nothing else |
| StoreConfig.Config.SetMinWordLength | src/tracker-store/tracker-config.c:836-852 | sets the minimum word length and nothing else |
| StoreConfig.Config.SetMaxWordLength | src/tracker-store/tracker-config.c:854-870 | sets the maximum word length and nothing else |
| StoreConfig.Config.SetMaxWordsToIndex | src/tracker-store/tracker-config.c:872-888 | sets the word cap and nothing else |
| StoreConfig.Config.SetIntProperty | src/tracker-store/tracker-config.c:242-279 | a property set through GObject changes only when the value is in its declared range |
| StoreConfig.Config.SetDefault | src/tracker-store/tracker-config.c:310-316 | one key of the key file filled with its default |
| StoreConfig.Config.CreateWithDefaults | src/tracker-store/tracker-config.c:303-351 | the key file becomes the old one filled with the five defaults |
| StoreConfig.Config.LoadInt | src/tracker-store/tracker-config.c:382-400 | the property is updated only when the key reads without error |
| StoreConfig.Config.LoadBoolean | src/tracker-store/tracker-config.c:402-420 | the low-memory mode is updated only when the key reads without error |
| StoreConfig.Config.Load | src/tracker-store/tracker-config.c:529-597 | the key file is filled with defaults and the five properties are loaded from it |
| StoreConfig.Config.Save | src/tracker-store/tracker-config.c:599-664 | the five properties are copied into the key file under their keys, the settings are unchanged, and the result is whether the write succeeded |
| StoreConfig.Config.OnFileChanged | src/tracker-store/tracker-config.c:494-527 | the file is reloaded for CHANGED and CHANGES_DONE_HINT, and every other event changes nothing |
| StoreConfig.New | src/tracker-store/tracker-config.c:698-707 | a new config's key file is the file's contents (or nothing) filled with defaults, its settings are those loaded from that key file over the defaults, and with no readable file they are the defaults |
| StoreConfig.LoadFreshDefaults | src/tracker-store/tracker-config.c:698-707 | loading a key file built from defaults alone keeps the default settings |
| StoreConfig.OverwriteIrrelevantOnEmpty | src/tracker-store/tracker-config.c:303-351 | on an empty key file, filling with and without overwrite give the same key file |

## Left out

- The QDBM depot and its I/O (`dpopen`, `dprnum`, `dpvsiz`, `dpget`, iteration) and `debug_print_index`: the store is a map from word to its sequence of 8-byte records.
- `src/tracker-indexer/tracker-index.c` is not part of this model. The encoder of the amalgamated word and the score arithmetic of `add_word` are modelled only as far as the decoder and the test assertions fix them. Putting the service type in the top byte and clamping the score to `gint16` (`IndexCodec.SaturatingAdd`) are the model's own choices.
- The index's bucket count is kept but has no effect on the logical contents.
- `src/libtracker-common/tracker-parser.c` is not part of this model. Unicode word breaking, case folding, stemming, language loading and the delimit flag are left out. The tokens are the whitespace-split pieces of the sample text.
- The `Parser` definitions are fixed by the parser test only at the three calls it makes; elsewhere they are the model's choices:
  - `Parser.Admissible` tests the minimum length on the token before it is cut, and tests the number filter on the raw token;
  - `Parser.Admissible` drops a token whose cut key is empty, which only a maximum length of 0 gives;
  - `Parser.ParseText` counts a table that starts non-empty toward `max_words`;
  - `Parser.AddToken` keeps adding weight to a key already present after the cap is reached, and `Parser.AddTokenWeights` and `Parser.ParseTextWeights` state this.
- The stop-word table test (`tests/libtracker-common/tracker-parser-test.c:123-137`) is left out because the stop-word list is language data not in these sources. No stop words are removed in the modelled calls, as the 10-entry result shows.
- The date functions of the type-utils test are left out: they depend on the local time zone and their parser is not shown.
- Embedded NUL characters are not modelled: strings are `seq<char>`, so a C string ending early at a NUL is not represented.
- `src/libtracker-common/tracker-type-utils.c` is not part of this model. The `TypeUtils` definitions are fixed by the type-utils test only at the values it checks; elsewhere they are the model's choices:
  - `TypeUtils.StringToUint` accepts digits only, so "-20", which the test leaves unspecified, fails;
  - `TypeUtils.StringListToString` with a size of 0 joins nothing, and any negative size joins every piece, as -1 does;
  - `TypeUtils.BooleanAsTextToNumber` beyond the nine texts the type-utils test checks maps "true" and "false" in any ASCII letter case and returns other text unchanged.
- `TypeUtils.BooleanAsTextToNumber`: case-insensitive comparison is ASCII only.
- GIO calls are not modelled:
  - creating and cancelling a `GFileMonitor` in `tracker-monitor.c` is an outcome parameter of `Add`;
  - the config file's own monitor setup is left out.
- `Monitor.Monitors.Remove`: `delete_subdirs` is accepted and ignored, as in the source.
- `statvfs`, `g_usleep` and `tracker_get_data_dir` are not modelled. The statvfs result is a parameter, and `DaemonUtils.Throttle` returns the sleep amount instead of sleeping.
- `tracker_indexer_are_databases_too_big` is a foreign call; it is an input boolean of `DaemonUtils.ShouldPause`.
- The global `tracker` struct is passed as an explicit `Daemon` value.
- `DaemonUtils.IsLowDiskSpace` requires `f_blocks > 0` where the source would divide by zero. It does not model a 64-bit overflow of `f_bavail * 100`.
- The `reported` flag and the log messages of `is_low_diskspace` are not modelled.
- `DaemonUtils.Throttle`: the signed overflow of `throttle * multiplier`, undefined in C, is modelled as a 32-bit wrap.
- In `tracker-config.c`, the following are left out:
  - the file plumbing: `config_dir_ensure_exists_and_return`, `config_save_with_defaults`, the key-file comments, `g_key_file_to_data` and `g_file_set_contents`;
  - GObject class and property registration, `finalize` and `g_object_notify`.

  Loading a file is an `Option` of key-file contents, where `None` is a file that cannot be read. Saving takes whether the write succeeded.
- `StoreConfig.ReadInteger`: GLib's integer reader also tolerates surrounding whitespace and a '+' sign; the model accepts only an optional '-' and digits.
- `StoreConfig.ReadBoolean`: GLib's boolean reader also tolerates trailing whitespace; the model accepts only "true", "1", "false" and "0".

## Findings

| source | as written | input that shows it | evidently intended | confidence | as-written member | corrected member |
|---|---|---|---|---|---|---|
| src/trackerd/tracker-utils.c:42-43 | the radix is the text up to the LAST occurrence of the suffix found by `g_strrstr`, and `g_strrstr` finds an empty needle at the start of the text | str = "abc", suffix = "" gives "" | removing an empty suffix leaves the text, "abc" | medium, not executed | DaemonUtils.RadixEmptySuffix | DaemonUtils.RadixBySuffixCorrected |
