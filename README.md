# POS-Tagger core: a verified model

This project models the core of a maximum-entropy Markov model (MEMM)
part-of-speech tagger written in Python (`main.py`). The tagger reads a
training file of sentences written as `word_tag` tokens separated by spaces.
It then works in these stages:

- **Counting.** `ClassStatistics` counts, for each of eleven feature classes
  (100 to 110), how often every feature key occurs. The counts go into
  insertion-ordered dictionaries. It also collects the sorted set `Y` of tags.
- **Indexing.** `Feature2Id` keeps the keys that pass each class threshold
  (a fixed threshold, or the mean count of the class or of the prefix
  length). It numbers them consecutively across the classes and merges them
  into one dictionary of all features.
- **Activation.** `f_xi_yi` returns the indices of the features that fire at
  one position of a sentence under a tagging.
- **Decoding.** `memm_viterbi` runs a second-order Viterbi recursion with a
  beam (`beam_search`), backtracks, and then forces the tag `:` for `;` and
  `--`. `q_params_calc` builds the four-word window it scores with.
- **Files.** `split_sentence_to_words_and_tags` reads a tagged line, and the
  inference pass writes one. `compare_tagged_files` counts the confusion
  between a gold file and a predicted file, and the accuracy.

The model states these stages over Dafny values:

- Files are sequences of lines and words are strings.
- Python's `OrderedDict` is a map together with its key order (`OMap`).
- Python's exceptions (`ValueError` from unpacking, `IndexError` from
  indexing, division by zero) are explicit `None` or `Malformed` outcomes.
- Loops that update state step by step are methods with loop invariants,
  proved against recursive specification functions. `ClassStatistics` and
  `Feature2Id` are classes whose methods update their fields.
- The probabilities `q[(k, t, u)][v]` are a function parameter, because
  their softmax is floating point. Scores are `real`.

Proved properties include:

- counts equal the number of occurrences of each key;
- the feature index is dense from 0 and `f_xi_yi` never returns an index at
  or above `n_total_features`;
- the beam keeps the best candidates;
- every pair kept by the Viterbi recursion is scored by its best kept
  predecessor, and the backtracked path follows the back pointers;
- a written line reads back as the words and tags that were written;
- the confusion counts are occurrence counts and the accuracy is the share
  of agreeing pairs.

Several places are kept exactly as written, and lemmas state what follows:

- The class-109 counting pass reads the next word only when
  `word_idx + 1 < len - 1`, so the last two words both see `STOP`.
- The counting pass records `''` for missing earlier tags, while the decoder
  asks for `*`.
- The cardinal test of the counting pass admits square brackets, which the
  activation test does not (`BracketCardinalDiffers`).
- The 109.5 branch shadows 109.6 to 109.8 (`CapitalDeadRules`).
- A one-word sentence is tagged `*` unless it is `;` or `--`, because the
  second write of the backtrack lands on index `-1`.
- A line that ends in a space is written back with a newline.

## Model

| member | source | states |
|---|---|---|
| OrderedMaps.Put | main.py:63-66 | `d[k] = v` on an insertion-ordered dictionary keeps keys distinct; a new key goes to the end, an existing key keeps its place |
| OrderedMaps.Increment | main.py:63-66 | the counting idiom: a first sighting stores 1, a later one adds 1; the domain grows by exactly the key and every other count is unchanged |
| OrderedMaps.Merge | main.py:709-720 | the `m.update(d)` loop stores every key of `d` with its value, in the order of `d` |
| OrderedMaps.TallyCounts | main.py:51-67 | counting a stream of keys from an empty dictionary lists the keys in order of first occurrence, and gives each key its number of occurrences |
| OrderedMaps.TallyPositive | main.py:63-66 | every count produced by counting is at least one |
| OrderedMaps.TallyAppend | main.py:55-66 | counting two streams one after the other is counting their concatenation |
| OrderedMaps.TallyKeys | main.py:63-66 | counting adds exactly the counted keys to the dictionary's domain |
| OrderedMaps.OccAppend | main.py:63-66 | occurrences in a concatenation add up |
| OrderedMaps.DedupElements | main.py:63-66 | the keys in first-occurrence order are exactly the elements of the stream |
| Text.Split | main.py:1352 | `re.split(' \|[\n]', line)` and `str.split('_')`: at least one field, and no field contains a separator |
| Text.SplitJoin | main.py:1352-1358 | splitting undoes `sep.join(parts)` when no part contains a split character |
| Text.JoinSplit | main.py:1352 | joining the fields of a single-separator split with that separator restores the string |
| Text.SplitSnoc | main.py:1353-1354 | a trailing newline yields a trailing empty field, which the readers delete |
| Text.SplitCount | main.py:222-223 | splitting at one character yields one more field than there are occurrences of that character (`cur_word.count('-')`) |
| Text.SplitOne | main.py:1510-1514 | a split into a single field leaves the string whole |
| Text.SplitChars | main.py:1510-1515 | every character of every field occurs in the split string |
| Text.SplitFree | main.py:1358 | a string free of separators is one field |
| Text.SplitAt | main.py:1358 | splitting at the first separator gives the field before it, then the fields of the rest |
| Text.CountChar | main.py:222 | `s.count(c)` is at most `len(s)`, and 0 exactly when `c` does not occur |
| Text.TitleCase | main.py:1074 | `w[0].upper() + w[1:].lower()` under ASCII case mapping: the length of `w`, its first character upper-cased and every later one lower-cased |
| Text.LessTransitive | main.py:67 | Python's string order, as `sorted` uses it, is transitive |
| Text.LessTotal | main.py:67 | the string order is total on distinct strings |
| Features.ClassIndex | main.py:709-720 | every class has its position in the order 100 to 110 |
| Features.ClassesDistinct | main.py:709-720 | each class appears once in the order 100 to 110 |
| Features.NumberCategory | main.py:222-275 | the elif chain 108.1 to 108.5 picks at most one category, and 108.1 fires exactly when the separator-split parts match `^[0-9]+$` |
| Features.NumberShapes | main.py:222-294 | class 108 fires exactly for words with a digit; 108.6 fires exactly for a year pattern; 108.7 and 108.8 fire alone, only when no other rule matched, and carry the number of hyphens |
| Features.NumberShapesExclusive | main.py:222-294 | no class-108 shape fires twice, and a word with a digit and no category or year gets exactly one shape |
| Features.YearExample1980s | main.py:197-211 | `1980s` is a year and nothing else in class 108 |
| Features.YearExampleMid1980 | main.py:197-211 | `mid-1980` fires 108.6 |
| Features.YearExampleMid1980s | main.py:197-211 | `mid-1980s` is a year and nothing else in class 108: 108.6 fires and neither hyphenated letter/number category does |
| Features.HyphenPairNoCategory | main.py:222-275 | two hyphen-joined parts that are not number groups, the first not starting with a digit, fall in none of 108.1 to 108.5 |
| Features.YearExampleQuoted | main.py:197-211 | `'80s` is a year and nothing else in class 108 |
| Features.YearLikeHyphen | main.py:276-281 | letters, a hyphen, four digits and an optional `s` always match the year pattern |
| Features.NumberGroupDigits | main.py:244-258 | a run of digits is a number group |
| Features.CapitalCategory | main.py:319-402 | the elif chain 109.1 to 109.12 yields one of its categories only for a word that starts with a capital |
| Features.CapitalShapes | main.py:319-415 | 109.13 fires exactly for a capitalised word, with its hyphen count; 109.14 fires exactly for a lower-case letter followed later by a capital; the chain contributes at most one more shape, first |
| Features.CapitalDeadRules | main.py:352-381 | the branches 109.5 to 109.8 never fire: at the first word the previous word is `*`, and their guards are reached only when that of 109.5 already held |
| Features.FirstWordNoCapitalCategory | main.py:319-402 | the first word of a sentence never gets a category from the chain |
| Features.LongWordShapes | main.py:429-473 | rules 110.1, 110.2 and 110.11 to 110.14 fire exactly for words of thirteen characters or more; 110.2 fires only together with 110.1, for a word ending in `s` |
| Features.When | main.py:501-556 | one independently tested rule fires exactly when its test holds |
| Features.OtherShapesOf | main.py:501-556 | the group 110.5 to 110.93 yields only its own shapes |
| Features.RomanRule | main.py:552-556 | within the group 110.5 to 110.93, 110.93 fires exactly when its own test holds, whatever the other tests give |
| Features.ForeignRule | main.py:538-550 | within the group 110.5 to 110.93, 110.92 fires exactly when the foreign-word test or the `in vitro` test holds, whatever the other tests give |
| Features.OtherWordShapes | main.py:501-556 | rules 110.5 to 110.93 yield only shapes of that group |
| Features.MorphShapes | main.py:429-556 | the class-110 shapes start with the long-word shapes; when 110.3 or 110.4 applies exactly one shape follows them |
| Features.RomanWordRule | main.py:475-556 | 110.93 fires for a word exactly when it is one of `i`, `ii`, `iii`, `iv` and neither 110.3 nor 110.4 applies |
| Features.ForeignWordRule | main.py:475-556 | 110.92 fires for a word exactly when neither 110.3 nor 110.4 applies and the word is in the foreign-word list, or is `in` or `In` followed by `vitro` or `vivo` |
| Features.ArrangeCardinal | main.py:475-501 | in the arrangement, 110.3 fires exactly for a cardinal, and 110.4 exactly for a non-cardinal hyphenated adjective |
| Features.CardinalRule | main.py:475-482 | 110.3 fires exactly for cardinal words |
| Features.HyphenAdjectiveRule | main.py:484-499 | 110.4 fires exactly for hyphenated adjectives that are not cardinal |
| Features.CardinalExcludesOthers | main.py:475-501 | when 110.3 or 110.4 fires, none of 110.5 to 110.93 is tried |
| Patterns.CardinalActiveCounted | main.py:1286-1289 | every word the activation test for cardinals accepts, the counting test accepts too |
| Patterns.BracketCardinalDiffers | main.py:475-482 | `[1]` passes the counting test for cardinals (the class `[][0-9]`) but not the activation test |
| Statistics.Tokens | main.py:1352-1354 | the tokens of a line contain no space or newline, and there are no more of them than split fields |
| Statistics.Fields | main.py:1358 | `token.split('_')` has at least one field |
| Statistics.Words | main.py:1359 | the words are the first `_`-fields of the tokens, one per token |
| Statistics.Tags | main.py:1360 | the tags are the second `_`-fields of the tokens, one per token |
| Statistics.ParsesFields | main.py:56-62 | classes 100 to 102 read a token exactly when it has two `_`-fields; the others when it has at least two |
| Statistics.AffixCount | main.py:80 | `min(len(w) - 1, 7)`: at most 7, below `len(w)` |
| Statistics.SuffixKeys | main.py:78-88 | the class-101 keys are suffixes of the word, of lengths 1 to `n`, not all digits, with the word's tag |
| Statistics.PrefixKeys | main.py:99-109 | the class-102 keys are prefixes of the word, of lengths 1 to `n`, not all digits, with the word's tag |
| Statistics.CountedKeys | main.py:51-556 | every key counted at a position belongs to the class that counts it |
| Statistics.CountedKeysSize | main.py:51-195 | classes 100 and 103 to 107 count one key per position, and the affix classes at most seven |
| Statistics.CountedKeysTag | main.py:51-556 | every key counted at a position carries that position's tag |
| Statistics.NumberKeys | main.py:222-294 | one class-108 key per shape, with the current tag |
| Statistics.CapitalKeys | main.py:319-415 | one class-109 key per shape, with the previous and current tags |
| Statistics.MorphKeys | main.py:429-556 | one class-110 key per shape, with the current tag |
| Statistics.ExtractClass | main.py:51-556 | the per-class extractor yields only keys of its class |
| Statistics.KeysReadClass | main.py:51-556 | every key counted by a pass, however it ends, belongs to the class |
| Statistics.Insert | main.py:67 | inserting into a strictly sorted list keeps it strictly sorted and adds exactly the element |
| Statistics.SortTags | main.py:67 | `sorted(list(Y))` is strictly increasing and holds exactly the tags of `Y` |
| Statistics.CountsAreOccurrences | main.py:51-556 | each class dictionary maps every key to its number of occurrences among the keys counted, in order of first occurrence, all at least one, all of the class |
| Statistics.CountKeys | main.py:82-88 | counting the keys of one position is the fold of `Increment` over them |
| Statistics.FirstUnreadable | main.py:56-62 | the first token a class cannot read lies between the start and the end of the line |
| Statistics.FirstUnreadableSpec | main.py:56-62 | every token before it parses, and the token there does not |
| Statistics.CountLine | main.py:59-66 | one line counts the keys of every token up to the first unreadable one, and reports its position exactly when there is one |
| Statistics.LineTallyStep | main.py:59-66 | one more token extends the count of a line |
| Statistics.CountCorpus | main.py:55-66 | the pass over the file ends normally exactly when every token of every line parses; otherwise it stops at the first unreadable token; the dictionary is the count of the keys read up to there |
| Statistics.MalformedLine | main.py:55-66 | a line with an unreadable token stops the pass there, having counted the earlier lines and the earlier tokens of that line |
| Statistics.WellFormedLine | main.py:55-66 | a line that parses entirely extends the count by its keys |
| Statistics.AddTags | main.py:61 | `self.Y.add(tag)` for every key adds exactly the tags of the keys and keeps `Y` duplicate-free |
| Statistics.TagsOfStep | main.py:61 | one more key adds its tag to the tag set |
| Statistics.ClassStatistics.constructor | main.py:25-49 | a fresh object has empty dictionaries for all classes and an empty `Y` |
| Statistics.ClassStatistics.SetClassDict | main.py:69-556 | `set_class<cls>_dict` changes only the dictionary of its class, to its old content counted further with the keys read, and reports where an unreadable token stopped it |
| Statistics.ClassStatistics.SetClass100Dict | main.py:51-67 | `set_class100_dict` also adds the tags read to `Y`, and sorts `Y` when the file is read to the end |
| Statistics.WellFormedExtend | main.py:55-66 | a line that parses extends a well-formed prefix |
| Statistics.CorpusKeysStep | main.py:55-66 | the keys of a file prefix grow line by line |
| Indexing.Bucket | main.py:629-631 | the class-102 keys with a given prefix length are exactly those keys, in order |
| Indexing.IndexClass | main.py:607-707 | indexing one class numbers its kept keys, in counting order, from the given start, and ends at the start plus their number |
| Indexing.Tests | main.py:1613-1733 | the filters `run_model_1` applies, one per class in the order 100 to 110, all with threshold 0 |
| Indexing.KeyLists | main.py:607-707 | each class is filtered over the keys of its own count dictionary |
| Indexing.KeptMembers | main.py:607-707 | a class keeps exactly the counted keys that pass its test (its threshold, its class mean, or its prefix-length mean), each once |
| Indexing.VocabularyMembers | main.py:607-720 | a feature is indexed exactly when it was counted for its class and its class keeps it |
| Indexing.VocabularyUnique | main.py:607-720 | no feature is indexed twice |
| Indexing.EmptyDicts | main.py:564-605 | a fresh `Feature2Id` has an empty dictionary for every class |
| Indexing.ZeroCounts | main.py:564-605 | a fresh `Feature2Id` has count 0 for every class |
| Indexing.IndexedVocabulary | main.py:607-720 | after indexing all classes and merging, the `j`-th kept feature has index `j`, and `n_total_features` is their number |
| Indexing.IndexStatistics | main.py:607-720 | the indexing steps of `run_model_1` produce a dense index from 0 of exactly the kept features, with `n_total_features` their number |
| Indexing.Feature2Id.constructor | main.py:564-605 | a fresh object has nothing indexed |
| Indexing.Feature2Id.SetIndex | main.py:607-707 | `set_index_class<cls>` numbers the kept keys from `n_class + n_total_features`, adds `n_class` to `n_total_features`, and changes only its class |
| Indexing.Feature2Id.BuildAll | main.py:709-720 | `build_all_classes_feature_index_dict` merges the class dictionaries in the order 100 to 110 |
| Indexing.AboveMean | main.py:629-637 | some key of a non-empty dictionary has at least the mean count |
| Indexing.SumBelow | main.py:629-637 | if every count is below the mean, so is their sum, which is impossible |
| Indexing.MeanKeepsOne | main.py:641-686 | classes 103, 106 and 107 keep at least one feature whenever they counted one |
| Indexing.BucketKeepsOne | main.py:625-639 | class 102 keeps, for every prefix length it counted, a feature of that length |
| Numbering.FilterMembers | main.py:611-616 | an element is kept exactly when it is in the list and passes the test; a filter of distinct elements is distinct |
| Numbering.FilterStep | main.py:611-616 | the filter advances one key at a time |
| Numbering.NumberedStep | main.py:611-616 | numbering advances one key at a time |
| Numbering.NumberKept | main.py:611-616 | the `set_index` loop stores every key that passes under `next` and moves `next` on: the result is the numbering of the filtered keys, ending at start plus their number |
| Numbering.NumberedDense | main.py:611-616 | numbering fresh distinct keys after a dense numbering extends it |
| Numbering.NumberedFresh | main.py:611-616 | numbering distinct keys from an empty dictionary gives the `j`-th key the number `start + j` |
| Numbering.UniqueSplit | main.py:709-720 | both halves of a duplicate-free list are duplicate-free |
| Numbering.UniqueAppend | main.py:709-720 | disjoint duplicate-free lists concatenate to one |
| Numbering.UpdateDense | main.py:709-720 | merging a dense numbering of fresh keys, started right after those already indexed, extends the dense index |
| Numbering.PutDense | main.py:709-720 | storing a fresh key under the next number extends a dense index |
| Numbering.JoinedMembers | main.py:709-720 | an element is in the joined lists exactly when it is in one of them |
| Numbering.JoinedUnique | main.py:709-720 | duplicate-free lists that share no element join into one |
| Numbering.FilterAll | main.py:607-707 | each class is filtered with its own test |
| Numbering.IndexedStep | main.py:607-707 | indexing one more class numbers its keys right after the classes before it and leaves the later classes untouched |
| Numbering.IndexAll | main.py:607-707 | indexing every class in order from empty dictionaries establishes the numbering of all classes |
| Numbering.UpdateAll | main.py:709-720 | merging the class dictionaries keeps the merged dictionary valid |
| Numbering.MergeAll | main.py:709-720 | the merge loop equals `update` with each class dictionary in turn |
| Numbering.IndexedValid | main.py:607-707 | once every class is indexed, each class dictionary is valid |
| Numbering.MergeDense | main.py:709-720 | merging classes indexed one after another numbers their kept keys densely from 0, when no key is kept twice |
| Activation.LookupsMembers | main.py:1068-1340 | an index is appended exactly when some known key of the position has it |
| Activation.LookupsLength | main.py:1068-1340 | at most one index per key tried |
| Activation.LookupsBelowTotal | main.py:1068-1340 | every index appended is below `n_total_features` |
| Activation.LookupsAppend | main.py:1068-1340 | looking up two runs of keys one after the other appends their indices in order |
| Activation.WordKeyAtMostOne | main.py:1068-1076 | class 100 contributes at most one known key: the word itself when known, else its title-cased spelling; an empty unknown word fails on `w[0]` |
| Activation.SuffixCandidates | main.py:1079-1083 | the class-101 keys tried are the suffixes of lengths 1 to `min(len(w) - 1, 7)`, shortest first |
| Activation.PrefixCandidates | main.py:1086-1089 | the class-102 keys tried are the prefixes of the same lengths, shortest first |
| Activation.AppendHits | main.py:1080-1083 | the `if key in dict: append(all[key])` loop appends the lookups of the keys, in order |
| Activation.FXiYi | main.py:1058-1343 | `f_xi_yi` returns the lookups of the keys of every class in order 100 to 110, or fails where the source raises |
| Activation.ActiveBelowTotal | main.py:1058-1343 | every index `f_xi_yi` returns lies below `n_total_features` |
| Activation.AffixHitsBounded | main.py:1079-1089 | suffixes and prefixes each contribute at most `min(len(w) - 1, 7)` indices |
| Activation.CandidatesAgreeWithCounting | main.py:1091-1176 | classes 103 to 108 try exactly the keys the counting pass counts at the same position |
| Activation.IndexStatisticsConsistent | main.py:607-720 | the index `run_model_1` builds is one `f_xi_yi` can read: every kept key has its index in the merged dictionary, below `n_total_features` |
| Decoder.WindowAround | main.py:1374-1387 | every branch of the window builds two words back, the word and one word ahead, padded with `*` and `STOP` |
| Decoder.DecodingTagKeys | main.py:1365-1367 | the decoder asks for `(103, t, u, v)` and `(104, u, v)` at every position, while the counting pass records `''` for missing earlier tags at the start |
| Decoder.Take | main.py:1405-1412 | the beam returns `min(B, n)` keys for `B >= 1`, and all of them for `np.inf` or `B = 0` |
| Decoder.InsertDesc | main.py:1406-1407 | inserting into the sorted list is a permutation of the list plus the item |
| Decoder.SortDesc | main.py:1406-1407 | `sorted(..., reverse=True)` is a permutation of the items |
| Decoder.SortDescSorted | main.py:1406-1407 | the result of the sort is ordered by decreasing value |
| Decoder.Items | main.py:1406 | the items of a dictionary pair each key with its value, in insertion order |
| Decoder.SortedValues | main.py:1406-1407 | every sorted item is a key of the dictionary with its value |
| Decoder.SortedKeys | main.py:1406-1407 | sorting loses no key and adds none |
| Decoder.SortedKeysUnique | main.py:1406-1407 | sorting a dictionary's items lists each key once |
| Decoder.Beamed | main.py:1398-1412 | the beam keeps `Take(B, n)` keys |
| Decoder.BeamSearch | main.py:1398-1412 | `beam_search` returns the first `B` keys in decreasing order of value |
| Decoder.BeamKeepsBest | main.py:1398-1412 | the beam keeps `min(B, n)` distinct candidates, and no candidate left out scores higher than one kept |
| Decoder.Override | main.py:1486-1488 | `;` and `--` get `:`, every other word keeps its tag |
| Viterbi.ArgMaxFound | main.py:1445-1454 | the scan finds something exactly when there is something to scan, and it finds an element with its value |
| Viterbi.ArgMaxBound | main.py:1445-1454 | no element scores more than the value the scan finds |
| Viterbi.ArgMaxFirst | main.py:1452-1454 | ties go to the first element that reaches the value |
| Viterbi.ArgMaxSame | main.py:1445-1454 | the scan depends only on the values of the elements scanned |
| Viterbi.Start | main.py:1431-1437 | `before_u = {"*": ["*"]}` keeps exactly the pair `(*, *)` |
| Viterbi.MaxOverT | main.py:1445-1454 | the loop over `t` computes the best predecessor |
| Viterbi.RowKeys | main.py:1444 | the row of `u` has the keys `(k, u, v)` for `v` in `Y`, in order |
| Viterbi.RowOrder | main.py:1443-1457 | a row appends its keys in the order of `Y` and keeps the dictionary valid |
| Viterbi.RowKeeps | main.py:1443-1457 | a row keeps the entries of the earlier rows |
| Viterbi.RowValues | main.py:1445-1457 | a row scores each new `(k, u, v)` by the best predecessor of `u`, and records that predecessor as the back pointer |
| Viterbi.BestSame | main.py:1451 | the best predecessor depends only on the scores of `(k - 1, t, u)` for the listed `t` |
| Viterbi.RowSame | main.py:1451 | commits at position `k` do not change the scores a later row reads |
| Viterbi.ScoreRow | main.py:1444-1457 | the loop over `v` in `Y` for one `u` yields the row's scores and back pointers |
| Viterbi.GroupSpec | main.py:1459-1467 | `before_u` rebuilt from the chosen keys lists exactly the chosen pairs, with no empty list |
| Viterbi.OverwriteSpec | main.py:1460-1462 | copying the chosen keys adds them with their candidate values and keeps every other entry |
| Viterbi.Commit | main.py:1459-1467 | the commit loop copies the chosen scores and back pointers and rebuilds `before_u` from them |
| Viterbi.RowsNext | main.py:1443-1457 | one more row keeps the candidates complete and correctly scored |
| Viterbi.KeptNext | main.py:1458-1467 | a commit leaves old entries unchanged and copies new ones from the candidates |
| Viterbi.Step | main.py:1441-1467 | one step of the outer loop: all candidates of the kept tags, the beam over them, its keys committed, and the new `before_u` grouped from the beam |
| Viterbi.StepScore | main.py:1443-1457 | the row of one kept tag `u` extends the candidates with its scored keys and keeps the earlier ones |
| Viterbi.StepCommit | main.py:1458-1467 | the beam over the candidates so far is committed to `pi` and `bp` and regrouped into `before_u`, keeping every older entry |
| Viterbi.CandidatesExist | main.py:1443-1457 | with a tag kept and a non-empty `Y`, there are candidates |
| Viterbi.StepMeaning | main.py:1441-1467 | after a step, every kept pair has its score and back pointer, the back pointer is a kept predecessor, and the score is the best over the kept predecessors |
| Viterbi.StepFilled | main.py:1458-1467 | the beam after a step is never empty |
| Viterbi.BeamedAtK | main.py:1458 | the beam keeps only candidates of position `k` |
| Viterbi.StepPair | main.py:1455-1462 | a committed candidate has the score and back pointer its row computed |
| Viterbi.LinkedNext | main.py:1440-1467 | the recursion invariant (best kept predecessor, back pointer, tag in `Y`) holds after one more step |
| Viterbi.LinkedOld | main.py:1460-1462 | a pair of an earlier step keeps its links through a later step |
| Viterbi.LinkedNew | main.py:1455-1462 | a pair of the current step is linked as the step left it |
| Viterbi.BeamsNext | main.py:1458-1467 | each step's `before_u` is the beam over that step's candidates, after one more step |
| Viterbi.BeamsOld | main.py:1458-1467 | earlier candidates keep their scores through later steps |
| Viterbi.BeamsNew | main.py:1443-1458 | the current step's candidates are all `(k, u, v)` for kept `u` and `v` in `Y`, scored by their best predecessor |
| Viterbi.Pairs | main.py:1472-1473 | the pairs of one entry of `before_u`, in list order |
| Viterbi.FlatMembers | main.py:1472-1473 | the final loops visit exactly the kept pairs |
| Viterbi.FinalPair | main.py:1469-1477 | the final loops find the first pair with the highest `pi[(n - 1, u, v)]` |
| Viterbi.ScanStep | main.py:1472-1477 | one more pair in the final loops becomes the best pair when there is none yet or when it scores strictly higher |
| Viterbi.FinalChoice | main.py:1469-1477 | the best final pair exists, is kept, and no kept pair scores higher |
| Viterbi.Backtrack | main.py:1479-1483 | the last two tags are the best pair (one tag for one word), and each earlier tag is the back pointer of the two after it, along kept pairs |
| Viterbi.KeptInY | main.py:1444-1456 | a tag kept as the last of a pair is a tag of `Y` |
| Viterbi.PathInY | main.py:1479-1483 | every tag of the backtracked path of a sentence of two or more words is in `Y` |
| Viterbi.OneWordStart | main.py:1479-1480 | for one word, the best pair starts from `*`, which becomes its tag |
| Viterbi.Forward | main.py:1428-1467 | the outer loop starts from `pi[(-1, "*", "*")] = 1`, keeps that base score, and establishes for every step the shape, scores, links and beams of the recursion |
| Viterbi.MemmViterbi | main.py:1415-1490 | `memm_viterbi`: one tag per word; every score builds on the base score `pi[(-1, "*", "*")] = 1`; the best final pair maximises the kept scores; the path follows the back pointers along kept pairs; tags are the path with `:` forced for `;` and `--`; every tag is in `Y`, `*` or `:` |
| Viterbi.EmittedTags | main.py:1479-1488 | every tag given is a tag of `Y`, the start symbol, or `:` |
| Codec.SplitSentenceFields | main.py:1346-1362 | a line reads into one word and one tag per token, the first two `_`-fields of each |
| Codec.Pairs | main.py:1520 | `'_'.join(pair)` for every pair of `zip(words, tags)`, which stops at the shorter list |
| Codec.PairFields | main.py:1520 | a written token splits back into its word and tag |
| Codec.SplitFormat | main.py:1346-1362 | reading a written line gives back the words and tags, for a non-empty sentence whose words and tags avoid spaces, newlines and `_` |
| Inference.LastChar | main.py:1510-1514 | `last_char` is a newline or nothing |
| Inference.TokensNonEmpty | main.py:1507-1514 | a non-empty line has at least one token |
| Inference.WordsFree | main.py:1515 | the words of a line contain no space, newline or `_` |
| Inference.TagWords | main.py:1517-1518 | for non-empty words, the decoder gives one tag per word, each in `Y`, `*` or `:`, with `:` for `;` and `--` |
| Inference.InferLine | main.py:1507-1521 | for a line without empty words, the written line is the words of the read line joined with the decoder's tags, ended with `last_char` |
| Inference.InferRoundTrip | main.py:1507-1521 | the written line reads back as the words of the line and the tags given, when the tags of `Y` avoid spaces, newlines and `_` |
| Evaluation.Start | main.py:1538 | the confusion dictionary starts with every cell of `Y × Y` at zero |
| Evaluation.ZipTagsSpec | main.py:1552-1558 | zipping reads the tags of the zipped tokens, and succeeds exactly when each of them has a second `_`-field |
| Evaluation.LineResultsAt | main.py:1543-1545 | each gold line has the outcome of its pair, or fails without a predicted counterpart |
| Evaluation.Agree | main.py:1553-1557 | the number of agreeing pairs is at most the number of pairs |
| Evaluation.CountAllSpec | main.py:1552-1564 | after counting, each cell holds its start value plus its number of occurrences, `correct` counts agreeing pairs and `wrong` the rest |
| Evaluation.SumOccAll | main.py:1560-1564 | each pair lands in exactly one cell: over distinct cells holding every pair, the counts add up to the number of pairs |
| Evaluation.Share | main.py:1581 | `correct / (correct + wrong)` lies in `[0, 1]` |
| Evaluation.EvaluateMeaning | main.py:1526-1581 | a result exists exactly when some pair was compared; the cells are `Y × Y` and the pairs seen, each counting its occurrences; the accuracy is the share of agreeing pairs, in `[0, 1]` |
| Evaluation.CompareTaggedFiles | main.py:1526-1581 | `compare_tagged_files` computes the confusion and accuracy of the files, or fails where the source raises |
| Evaluation.CountFiles | main.py:1543-1564 | the loop over line pairs counts every pair of the files, or fails at a missing predicted line or a token without a tag |
| Evaluation.CompareLines | main.py:1544-1551 | one line pair is split into tokens and counted |
| Evaluation.CompareLine | main.py:1552-1564 | the loop over `zip` of one line pair counts its tag pairs, or fails at a token without a tag |
| Evaluation.CountAllStep | main.py:1552-1564 | counting one more pair extends the count |
| Evaluation.CountAllAppend | main.py:1543-1564 | counting two runs of pairs one after the other is counting them joined |
| Evaluation.ZipTagsNone | main.py:1553 | a token without a tag makes every longer zip fail |
| Evaluation.NoneFrom | main.py:1543-1545 | a failing line makes the whole comparison fail |

## Left out

- Floating point: scores and probabilities are exact reals. `np.mean`
  thresholds are compared exactly (`count * n >= sum`).
- The softmax of `q_params_calc` and the weighted feature sums
  `q_params_aux`. The decoder takes `q` as a function; the window it is
  computed on is modelled (`Decoder.Window`).
- The memo cache `q_params` of `memm_viterbi`, which only avoids
  recomputing `q`.
- The negative log-likelihood and its gradient
  (`function_l_and_gradient_l_special`, including its precomputation of
  active indices and empirical counts), and the L-BFGS optimiser that
  minimises them. These are floating-point numerics over numpy arrays.
- File I/O, timing and debug prints: files are sequences of lines, and
  nothing is written or printed.
- `ConfusionMatrix`, the plotting helpers of `Feature2Id`,
  `split_train_test`, `run_model_1`/`run_model_2`/`main` orchestration and
  the pickling of weights. `Indexing.IndexStatistics` models only the
  indexing steps of `run_model_1`.
- Decoder.Beam: a negative beam width cannot be written; `beam_search`
  treats one like 0 and keeps every candidate, which `Width(0)` models.
- Decoder.BeamSearch: returns the chosen keys in decreasing order of value.
  The source returns `list(set)`, whose order is unspecified, and the next
  `before_u` is built in that order. The model fixes one order, so tie-breaks
  that depend on it follow the sorted order.
- Viterbi.ScoreOf: a predecessor's score is only ever read for a key present
  in `pi` (proved at every use).
- Viterbi.MemmViterbi: requires `Y` non-empty and duplicate-free (it is
  built by `sorted(set)`) and at least one word; the source crashes on an
  empty sentence: `tags_infer` is then empty and the first write of the
  backtrack, to index `len(words) - 1 == -1`, fails (main.py:1479).
- Inference.InferLine: requires a non-empty line, as iterating over a file
  never yields one, and no empty word. A blank line, two spaces in a row or
  a space before the newline gives the word `''`, and the source then fails
  on `cur_word[0]` in `f_xi_yi` (main.py:1074) whenever the key
  `(100, '', v)` was not indexed. That key can be counted: a training token
  `_NN` has the empty word. So the source tags a line with empty words
  without failing when every `(100, '', v)` it asks for was counted and
  kept; the model excludes that case and does not return an error for the
  other one.
- Inference.TagWords: requires every word non-empty, for the same reason.
- Indexing.Feature2Id.SetIndex: requires the keys the counting pass
  produces; for a class-102 prefix longer than 7 the source fails on
  `thresholds[len(key[1])]` (main.py:636).
- Python's exceptions are values: a token without `_` (`ValueError` or
  `IndexError`), a missing predicted line (`IndexError`) and a comparison
  without pairs (`ZeroDivisionError`) give `None` or a `Malformed` outcome.
  What the source had computed before the exception is not observable, and
  is not modelled beyond the counts a counting pass has made.
- Text.TitleCase: upper- and lower-cases ASCII letters only. Python's
  `str.upper` and `str.lower` use Unicode case mapping, which changes other
  letters and can change the length (`'ß'.upper() == 'SS'`).
- Text.HasDigit: tests for ASCII digits. Python's `\d` in `re.search`
  (main.py:222, main.py:1121) matches every Unicode decimal digit, so words
  with other digits take different class-108 branches. The letter and
  digit classes of the other patterns are ASCII in the model too.
- `ClassStatistics` keeps a file's lines instead of its path.
