# Japanese conjugation engine and part-of-speech maintenance, in Dafny

This project models the conjugation generator of a Japanese vocabulary app, together with four small maintenance scripts that edit the part-of-speech (POS) tags of the same `words` table.

**The generator** (`scripts/generate_conjugations.py`) works in four stages:

1. The classifier `get_verb_type` turns a word and its POS tag into an inflection class. It runs ordered, first-match substring tests on the tag.
2. One of six table-driven paradigm generators produces up to 17 surface forms: godan, ichidan, suru, kuru, i-adjective and na-adjective.
3. `init_types` seeds the 17-entry category catalog `conjugation_types` with insert-if-absent.
4. The loop of `main` classifies every candidate word and upserts each form into `word_conjugations` under the key `(word_id, type_id)`. It counts processed and skipped words.

**The maintenance scripts:**

- `scripts/calibrate_pos.py` proposes tag changes. It looks at where a wave dash `〜` sits in the word, and takes a detected grammar type as input. It then merges the type's kanji into the `・`-separated tag, either by replacing an abbreviation or by appending.
- `scripts/analyze_grammar.py` decides which tags are grammar tags and puts each one into the first matching category. It also keeps the report counters.
- `scripts/normalize_pos_sc.py` rewrites five kanji of tags to their simplified forms (動→动, 連→连, 詞→词, 補→补, 終→终).
- `scripts/normalize_pos.py` turns 动 back into 動.

**How the model is built:**

- Everything is modelled on values: strings are `seq<char>`, and the database tables are maps.
- The generators and the classifier are functions.
- Every loop of the modelled core is a method with loop invariants, proved equal to a specification function:
  - the upsert loop, and the per-word loop over forms;
  - the catalog insertion;
  - the `new_parts` merge loop, and the loop collecting updates;
  - the counting loop and the category loop with its `break`;
  - the replacement loop and the row loops.
- The properties are then proved about those functions.

Modules:

- `Wrappers`: `Option`.
- `Strings`: the Python string operations used: `startswith`, `endswith`, `in`, one-character `replace`, `split`, `join`.
- `Catalog`: the `Code` enum of the 17 categories, their stored names, the catalog records and `init_types`.
- `Classifier`: `get_verb_type`.
- `Paradigms`: the six generators and `get_conjugations`.
- `Batch`: the loop of `main`, over a store `map<(word_id, type_id), string>`.
- `CalibratePos`: `scripts/calibrate_pos.py`.
- `AnalyzeGrammar`: `scripts/analyze_grammar.py`.
- `NormalizePosSc` and `NormalizePos`: the two normalisers.

**Modelling decisions:**

- **Categories are an enum.** Stored codes such as `"polite_present"` are an enum `Code`. `CodeName`/`CodeOf` convert between the two and are proved mutually inverse.
- **Forms are keyed by code.** A paradigm is a `map<Code, string>`. The type map that `get_type_map` reads from the database is modelled as `map<Code, int>`. Since `CodeName` is injective, this is the same as keying the type map by the stored string.
- **Iteration order.** Python dicts iterate in insertion order, and every generator inserts its keys in catalog order. So the upsert loop walks the codes in `DictOrder`, which is proved equal to the catalog order.
- **Adjectives have 11 categories.** The i- and na-adjective generators emit 11 keys: every code except the six verb-only ones (potential, passive, causative, causative-passive, imperative, volitional).
- **Classifier markers.** The verb markers use the simplified character 动 (`动1`, `动2`, `动3`). The traditional 動 never matches.
- **Godan precondition.** `conjugate_v1` raises on an empty word, and on a final kana outside `うくぐすつぬぶむる`. The model makes this a precondition: `IsGodanWord`, lifted to `Paradigms.Conjugable` for the dispatcher and the batch. Every other class accepts any string, the empty one included.
- **Calibration input.** The calibration's detected type is an input, an `Option<string>` per row. Only the tilde step of the detection is modelled.
- **Report examples.** An example line is `word (tag)`; a NULL tag is written `None` there, as Python formats it (`AnalyzeGrammar.Example`).

## Model

| member | source | states |
|---|---|---|
| Catalog.CodeNameRoundTrip | scripts/generate_conjugations.py:328-344 | reading back the stored name of a category gives that category |
| Catalog.CodeOfRoundTrip | scripts/generate_conjugations.py:384-386 | a string that reads as a category is exactly that category's stored name |
| Catalog.CodeNameInjective | scripts/generate_conjugations.py:328-344 | distinct categories have distinct stored codes |
| Catalog.AllCodesComplete | scripts/generate_conjugations.py:328-344 | every category of the enum is one of the catalog's codes |
| Catalog.DistinctCard | scripts/generate_conjugations.py:328-344 | a list without repetitions has as many distinct elements as entries |
| Catalog.AllCodesSize | scripts/generate_conjugations.py:328-344 | the catalog has exactly 17 codes |
| Catalog.VerbOnlySize | scripts/generate_conjugations.py:277 | six categories are verb-only |
| Catalog.AdjectiveSize | scripts/generate_conjugations.py:238-302 | the adjective categories number 11 |
| Catalog.AdjectiveCodesListed | scripts/generate_conjugations.py:262-275 | the adjective categories are the four polite, four plain, te, ba and tara codes |
| Catalog.CatalogWellFormed | scripts/generate_conjugations.py:327-345 | the catalog has 17 records with distinct codes covering every category, and sort_order is 10·(position+1), so strictly ascending 10…170 |
| Catalog.NamesSnoc | scripts/generate_conjugations.py:348 | the codes of a record list are those of its front plus its last |
| Catalog.InsertMissingContents | scripts/generate_conjugations.py:348-352 | `INSERT OR IGNORE` of distinct records: the table gains exactly the missing codes, keeps every existing record, and stores each new record as given |
| Catalog.InsertMissingNoop | scripts/generate_conjugations.py:348-352 | inserting records whose codes are all present changes nothing |
| Catalog.InsertMissingIdempotent | scripts/generate_conjugations.py:348-352 | running the initialisation twice is the same as once |
| Catalog.InitTypes | scripts/generate_conjugations.py:325-352 | after `init_types` the table holds every catalog code, every record already stored is unchanged, and every missing code holds its catalog record |
| Catalog.CatalogNamesAll | scripts/generate_conjugations.py:327-345 | the catalog records name every category |
| Catalog.InsertEach | scripts/generate_conjugations.py:348-352 | the insertion loop equals the insert-if-absent fold; the table gains exactly the listed codes and keeps the old records |
| Classifier.SingleMarker | scripts/generate_conjugations.py:29-31 | a one-marker test is a substring test |
| Classifier.GetVerbTypeIsFirstMatch | scripts/generate_conjugations.py:14-33 | `get_verb_type` agrees with an independent first-match reading of an ordered (markers, class) rule list |
| Classifier.ClassifierPrecedence | scripts/generate_conjugations.py:14-33 | 动1/五段 give godan whatever else the tag holds; failing that 动2/一段 give ichidan; then 动3/カ変/サ変 give the class by word ending; then イ形 gives i-adjective, then ナ形 na-adjective, else `None` |
| Classifier.IrregularEndings | scripts/generate_conjugations.py:22-28 | an irregular verb is kuru exactly when it ends in くる or 来る and not in する, and suru otherwise |
| Paradigms.Stem | scripts/generate_conjugations.py:40 | `word[:-1]`: the word is the stem plus its last character; empty for the empty word |
| Paradigms.DictOrderIsCatalogOrder | scripts/generate_conjugations.py:80-102 | the order in which the generators fill their dicts is the catalog order |
| Paradigms.DictOrderComplete | scripts/generate_conjugations.py:384 | every category has a place in that order |
| Paradigms.KanaColumn | scripts/generate_conjugations.py:70-73 | each godan ending's five-kana column of the kana chart |
| Paradigms.RowTablesAreVowelShifts | scripts/generate_conjugations.py:70-73 | the four row tables have exactly the nine keys うくぐすつぬぶむる and move each ending to the i/a/e/o kana of its own column |
| Paradigms.RowTablesInjective | scripts/generate_conjugations.py:70-73 | no two endings shift to the same kana in any row table |
| Paradigms.ConjugateV1 | scripts/generate_conjugations.py:35-104 | godan: exactly the 17 codes, plain present is the word, every form begins with `word[:-1]`, conditional tara is plain past plus ら |
| Paradigms.GodanTeTa | scripts/generate_conjugations.py:43-65 | te/ta by final kana: う/つ/る って/った, ぬ/ぶ/む んで/んだ, く いて/いた except 行く/いく って/った, ぐ いで/いだ, す して/した |
| Paradigms.GodanTeTaVoicing | scripts/generate_conjugations.py:88-92 | te-form and plain past share everything but a final て/た or a voiced で/だ |
| Paradigms.GodanRowForms | scripts/generate_conjugations.py:75-101 | polite forms use the ending's i-kana, negatives, passive and causatives its a-kana, potential, imperative and ba its e-kana, volitional its o-kana |
| Paradigms.IkuException | scripts/generate_conjugations.py:53-59 | 行く gives 行って/行った while 書く gives 書いて/書いた |
| Paradigms.ConjugateV2 | scripts/generate_conjugations.py:106-134 | ichidan: exactly the 17 codes, plain present is the word, potential equals passive equals `word[:-1]` + られる, every form begins with `word[:-1]` |
| Paradigms.IchidanFixedSuffix | scripts/generate_conjugations.py:108-132 | what follows the stem depends on the category alone (for plain present, on the word ending in る) |
| Paradigms.SuruPrefixRule | scripts/generate_conjugations.py:139-145 | the する special case agrees with the general rule, and a word ending in する is its prefix plus する |
| Paradigms.ConjugateVs | scripts/generate_conjugations.py:136-171 | suru: exactly the 17 codes, all beginning with the prefix; potential is prefix + できる; plain present is prefix + する, which is the word when it ends in する and the word + する otherwise |
| Paradigms.SuruFixedSuffix | scripts/generate_conjugations.py:147-169 | what follows the prefix depends on the category alone |
| Paradigms.SuruPotential | scripts/generate_conjugations.py:160 | する gives できる, 勉強する gives 勉強できる, 勉強 gives 勉強する |
| Paradigms.ConjugateVk | scripts/generate_conjugations.py:173-236 | kuru: exactly the 17 codes; plain negative 来ない with 来 and こない without; the kana table gives くる and くれば |
| Paradigms.KuruDependsOnlyOnKanji | scripts/generate_conjugations.py:183 | two words with the same answer to "contains 来" get the same paradigm |
| Paradigms.KuruTablesAgree | scripts/generate_conjugations.py:187-234 | each kanji form is 来 followed by the kana form without its first kana, which is き, く or こ |
| Paradigms.KuruNegatives | scripts/generate_conjugations.py:197-220 | 来る gives 来ない, くる gives こない |
| Paradigms.AdjIFormsExtendStem | scripts/generate_conjugations.py:259-275 | every regular i-adjective form begins with `word[:-1]` |
| Paradigms.ConjugateAdjI | scripts/generate_conjugations.py:238-278 | i-adjective: exactly the 11 adjective codes; いい gives plain past よかった; otherwise polite present is word + です, plain present is the word, and every form begins with `word[:-1]` |
| Paradigms.AdjIFixedSuffix | scripts/generate_conjugations.py:259-275 | for a regular i-adjective, what follows the stem depends on the category alone |
| Paradigms.IiFormIsYoi | scripts/generate_conjugations.py:240-257 | each いい form is the regular form of よい, except the two present forms いいです/いい |
| Paradigms.IiIsYoi | scripts/generate_conjugations.py:240-275 | the hard-coded いい paradigm is the regular paradigm of よい with its two present forms replaced |
| Paradigms.ConjugateAdjNa | scripts/generate_conjugations.py:280-304 | na-adjective: exactly the 11 adjective codes, every form the word followed by a non-empty suffix |
| Paradigms.AdjNaFixedSuffix | scripts/generate_conjugations.py:286-302 | that suffix depends on the category alone |
| Paradigms.GetConjugations | scripts/generate_conjugations.py:306-323 | `None` exactly when the classifier gives `None`; verbs get all 17 codes; adjectives get the 11 adjective codes and none of the verb-only ones |
| Batch.SkippedCount | scripts/generate_conjugations.py:380-382 | the number of skipped outcomes, at most the number of entries |
| Batch.GenerateConjugations | scripts/generate_conjugations.py:375-400 | the final store is the old store after every entry's upserts in order; `skipped` counts the entries without forms; `count + skipped` is the number of entries |
| Batch.ProcessEntry | scripts/generate_conjugations.py:378-397 | one entry: skipped exactly when it has no forms, otherwise its upserts are applied |
| Batch.UpsertForms | scripts/generate_conjugations.py:384-395 | the forms loop performs, in order, one upsert per code that has a form and a type id |
| Batch.BatchSnoc | scripts/generate_conjugations.py:378-397 | one more entry appends its upserts and adds one to the skip count when skipped |
| Batch.ApplyConcat | scripts/generate_conjugations.py:390-393 | upserting two runs in order is upserting one after the other |
| Batch.ApplyIsUnion | scripts/generate_conjugations.py:390-393 | the upserts override the old store and leave every other key alone |
| Batch.ApplyIdempotent | scripts/generate_conjugations.py:390-393 | repeating the same upserts changes nothing |
| Batch.ApplyUntouched | scripts/generate_conjugations.py:390-393 | a key no upsert touches keeps its value, or stays absent |
| Batch.ApplyLastWriteWins | scripts/generate_conjugations.py:390-393 | each key ends up holding the last value written to it |
| Batch.ApplyAgreeing | scripts/generate_conjugations.py:390-393 | when every upsert of a key carries the same text, the key holds that text |
| Batch.CodeWritesSound | scripts/generate_conjugations.py:384-393 | every upsert of a word stores one of its forms under its id and the type id of that form's category |
| Batch.CodeWritesComplete | scripts/generate_conjugations.py:384-393 | every form whose category has a type id is upserted |
| Batch.CodeWritesNone | scripts/generate_conjugations.py:385-386 | no upserts when no category of the forms has a type id |
| Batch.OutcomeStoresForms | scripts/generate_conjugations.py:384-395 | after a word's upserts, `(word_id, type_id)` holds the form of that category |
| Batch.OutcomeWritesKeyed | scripts/generate_conjugations.py:391-393 | every upsert of a word uses that word's id |
| Batch.SkippedIffUnclassified | scripts/generate_conjugations.py:378-382 | an entry is skipped exactly when the classifier has no class for it |
| Batch.SkippedWritesNothing | scripts/generate_conjugations.py:380-386 | a skipped entry writes nothing; an entry writes nothing exactly when it is skipped or none of its categories has a type id |
| Batch.BatchWriteOrigin | scripts/generate_conjugations.py:378-395 | every upsert of the batch comes from one of its entries |
| Batch.BatchWriteIncluded | scripts/generate_conjugations.py:378-395 | every upsert of every entry is part of the batch |
| Batch.BatchStoresForms | scripts/generate_conjugations.py:375-398 | with distinct word ids and type ids, the final store holds each conjugated word's form at `(word_id, type_id)` of its category |
| Batch.CountIsConjugated | scripts/generate_conjugations.py:380-397 | the entries not skipped number `len(words) - skipped`, which is `count` |
| Strings.ContainsAt | scripts/analyze_grammar.py:21 | a substring at an index is contained |
| Strings.ContainsWitness | scripts/analyze_grammar.py:21 | a contained substring occurs at some index |
| Strings.ContainsIff | scripts/analyze_grammar.py:21 | `in` on strings holds exactly when the substring occurs at some index |
| Strings.ContainsTransitive | scripts/analyze_grammar.py:21 | a substring of a substring is a substring |
| Strings.ContainsChar | scripts/calibrate_pos.py:109 | a one-character substring test is a membership test |
| Strings.ContainsMiddle | scripts/calibrate_pos.py:186 | a string occurs in any string it is the middle of |
| Strings.ReplaceChar | scripts/normalize_pos.py:23 | one-character `replace` keeps the length |
| Strings.Split | scripts/calibrate_pos.py:200 | `split` never returns an empty list |
| Strings.SplitPartsFree | scripts/calibrate_pos.py:200 | no part of a `split` contains the separator |
| Strings.JoinSplit | scripts/calibrate_pos.py:200-216 | joining the parts of a `split` gives back the string |
| Strings.SplitCons | scripts/calibrate_pos.py:200 | splitting a string that starts with a separator-free part |
| Strings.SplitJoin | scripts/calibrate_pos.py:200-216 | splitting the join of separator-free parts gives back the parts |
| Strings.JoinAppend | scripts/calibrate_pos.py:213-216 | joining with one more part appends the separator and that part |
| Strings.JoinContainsPart | scripts/calibrate_pos.py:216 | every part occurs in the join |
| CalibratePos.Strip | scripts/calibrate_pos.py:68 | `replace(c, '')` keeps exactly the other characters |
| CalibratePos.CleanWordEmpty | scripts/calibrate_pos.py:68-69 | a word is skipped exactly when it consists of 〜 and ~ only |
| CalibratePos.DetectTilde | scripts/calibrate_pos.py:109-113 | none without 〜; Middle Phrase when the word starts and ends with 〜; 接尾/Suffix when it only starts with one; 接頭/Prefix when it only ends with one; 文法/Grammar otherwise; each as an if-and-only-if |
| CalibratePos.MiddlePhraseLength | scripts/calibrate_pos.py:68-110 | a middle phrase that survives the skip has at least three characters |
| CalibratePos.ReplaceAbbrs | scripts/calibrate_pos.py:204-209 | replacing abbreviations keeps the number of parts |
| CalibratePos.MergePos | scripts/calibrate_pos.py:198-216 | the `new_parts` loop with its `replaced` flag computes the merged tag |
| CalibratePos.MergeContainsKanji | scripts/calibrate_pos.py:198-216 | the merged tag contains the kanji, so it differs from a tag that lacked it |
| CalibratePos.MergePartCount | scripts/calibrate_pos.py:200-216 | the part count stays when an abbreviation was replaced and grows by one otherwise; each abbreviation part now holds the kanji, the other parts are kept, and an appended kanji comes last |
| CalibratePos.MergeWithoutAbbreviation | scripts/calibrate_pos.py:189-216 | a kanji without an abbreviation entry is appended as `current・kanji` |
| CalibratePos.Propose | scripts/calibrate_pos.py:172-223 | `should_update` holds exactly when the proposal exists, and the proposed tag is that proposal; otherwise the tag is left as it was |
| CalibratePos.EmptyTagTakesKanji | scripts/calibrate_pos.py:176-183 | with a detected type and an empty or NULL tag the proposal is the part before `/`, which occurs in the type |
| CalibratePos.KanjiPresentNoMerge | scripts/calibrate_pos.py:186-223 | a tag that already contains the kanji is changed only by the affix fallback |
| CalibratePos.DetectionProposalContainsKanji | scripts/calibrate_pos.py:176-223 | with a detected type, a tag lacking the kanji is always updated, and every proposal contains the kanji |
| CalibratePos.AffixFallback | scripts/calibrate_pos.py:220-223 | without a detected type, an update happens exactly when the word has 〜 and the tag has neither 接 nor 造, and then 接辞/Affix is appended, after a ・ only for a non-empty tag |
| CalibratePos.UnabbreviatedKanji | scripts/calibrate_pos.py:189-198 | 接頭, 接尾, 文法, 助動詞 and Middle Phrase have no abbreviation entry |
| CalibratePos.LabelAppended | scripts/calibrate_pos.py:177-216 | a label `head/tail` whose head has no entry and is missing from a non-empty tag gives `tag・head` |
| CalibratePos.NotAKey | scripts/calibrate_pos.py:189-196 | which strings cannot be abbreviation keys |
| CalibratePos.SplitPrefix | scripts/calibrate_pos.py:178 | `split('/')[0]` of `head/tail` is `head` |
| CalibratePos.Updates | scripts/calibrate_pos.py:64-226 | at most one update per row |
| CalibratePos.CollectUpdates | scripts/calibrate_pos.py:64-226 | the analysis loop collects exactly the specified updates |
| CalibratePos.UpdatesSound | scripts/calibrate_pos.py:64-226 | each update carries the id, word and old tag of a row whose word is not all tildes, with the tag proposed for it |
| AnalyzeGrammar.FirstCategoryFinds | scripts/analyze_grammar.py:66-70 | first match finds a category exactly when some keyword of some category occurs, and then one whose keyword occurs |
| AnalyzeGrammar.MatchCategory | scripts/analyze_grammar.py:66-70 | the loop with `break` picks the first category with a keyword in the tag, else Other |
| AnalyzeGrammar.KeywordCategory | scripts/analyze_grammar.py:11-50 | every grammar keyword belongs to some category |
| AnalyzeGrammar.CategoryKeywordIsGrammar | scripts/analyze_grammar.py:11-50 | every category keyword makes a tag a grammar tag (順接 by way of 接) |
| AnalyzeGrammar.GrammarIffCategorized | scripts/analyze_grammar.py:8-70 | a tag is a grammar tag exactly when its category is not Other |
| AnalyzeGrammar.ConnectiveCases | scripts/analyze_grammar.py:14-45 | 接 makes a tag grammar; 接頭 lands in Prefix/Suffix before Conjunction; 接 without a prefix/suffix keyword lands in Conjunction |
| AnalyzeGrammar.EmptyTagNotGrammar | scripts/analyze_grammar.py:9-10 | NULL and the empty tag are not grammar |
| AnalyzeGrammar.GrammarCount | scripts/analyze_grammar.py:60-61 | the grammar rows number at most the rows |
| AnalyzeGrammar.Analyze | scripts/analyze_grammar.py:35-77 | total is the number of rows; the grammar and word counts are the numbers of rows on each side; the examples are the first ten of each side; each category and tag count is its number of grammar rows, present exactly when positive |
| AnalyzeGrammar.SumCountsSnoc | scripts/analyze_grammar.py:71 | a grammar row adds one to exactly one category |
| AnalyzeGrammar.AllCategoriesListed | scripts/analyze_grammar.py:43-50 | the six categories plus Other, without repetition |
| AnalyzeGrammar.CategoryCountsSum | scripts/analyze_grammar.py:60-71 | the category counts add up to the grammar count |
| AnalyzeGrammar.NoOtherCategory | scripts/analyze_grammar.py:60-71 | no grammar row is counted as Other |
| AnalyzeGrammar.ExampleBounds | scripts/analyze_grammar.py:62-77 | at most ten examples of each kind, fewer only when there are fewer rows, and they are the first ones |
| AnalyzeGrammar.ExamplesCount | scripts/analyze_grammar.py:60-77 | there are as many grammar examples before truncation as grammar rows, and the rest are word rows |
| NormalizePosSc.ApplyAll | scripts/normalize_pos_sc.py:33-35 | the chain of `replace` calls keeps the length |
| NormalizePosSc.ApplyAllPointwise | scripts/normalize_pos_sc.py:33-35 | the chain acts on each character on its own |
| NormalizePosSc.MapCharLookup | scripts/normalize_pos_sc.py:10-35 | without chaining, a key becomes its value and any other character stays |
| NormalizePosSc.ReplacementsNonChaining | scripts/normalize_pos_sc.py:10-16 | the five keys are distinct and no value is a key |
| NormalizePosSc.Simplify | scripts/normalize_pos_sc.py:33-35 | the normalised tag keeps the length |
| NormalizePosSc.ReplacementsAreTable | scripts/normalize_pos_sc.py:10-35 | the five replacements in dict order equal the per-character table |
| NormalizePosSc.NormalizeText | scripts/normalize_pos_sc.py:33-35 | the replacement loop computes the per-character table |
| NormalizePosSc.SimplifyResult | scripts/normalize_pos_sc.py:33-35 | same length, none of 動連詞補終 left, every other character kept in place |
| NormalizePosSc.ApplyAllIdempotent | scripts/normalize_pos_sc.py:33-35 | a chain without chaining, applied twice, is applied once |
| NormalizePosSc.ApplyAllOrderIndependent | scripts/normalize_pos_sc.py:10-35 | two non-chaining lists of the same pairs give the same result |
| NormalizePosSc.SimplifyIdempotentAnyOrder | scripts/normalize_pos_sc.py:10-35 | the normaliser is idempotent and any order of its five pairs gives the same tag |
| NormalizePosSc.SimplifyChangesIff | scripts/normalize_pos_sc.py:37 | a tag changes exactly when it contains one of the five kanji |
| NormalizePosSc.Changes | scripts/normalize_pos_sc.py:37-39 | at most one update per row |
| NormalizePosSc.ChangesSound | scripts/normalize_pos_sc.py:37-38 | each update carries a row's id and its new tag, which differs from the old |
| NormalizePosSc.ChangesAll | scripts/normalize_pos_sc.py:37-39 | when every tag changes, every row is updated, in order |
| NormalizePosSc.Select | scripts/normalize_pos_sc.py:20-21 | every row the query returns contains one of the five kanji |
| NormalizePosSc.NormalizeRows | scripts/normalize_pos_sc.py:24-39 | the updates are those of the changed rows; `count` is their number, at most the number of rows; no rows means no updates |
| NormalizePosSc.SelectedAllChange | scripts/normalize_pos_sc.py:20-39 | every fetched row is updated and counted |
| NormalizePos.Traditional | scripts/normalize_pos.py:23 | `replace('动', '動')` keeps the length |
| NormalizePos.TraditionalResult | scripts/normalize_pos.py:23-24 | no 动 left, every other character kept in place, and the tag is unchanged exactly when it had no 动 |
| NormalizePos.TraditionalIdempotent | scripts/normalize_pos.py:23 | replacing twice is replacing once |
| NormalizePos.RoundTrip | scripts/normalize_pos.py:23 | after the simplifying normaliser, this one restores a tag without simplified characters and without 連詞補終 |
| NormalizePos.RoundTripSimplified | scripts/normalize_pos.py:23 | the other way round, for a tag without 動 and 連詞補終 |
| NormalizePos.NormalizeRows | scripts/normalize_pos.py:14-26 | the updates are those of the changed rows; `count` is their number, at most the number of rows; no rows means no updates |
| NormalizePos.SelectSimplified | scripts/normalize_pos.py:11 | every row the query returns contains 动 |
| NormalizePos.SelectedAllChange | scripts/normalize_pos.py:11-26 | every fetched row is updated, in order, with its own id and its tag with 动 turned into 動, and counted |

## Left out

- SQLite: connections, SQL text, `PRAGMA`, commits, closes and sqlite errors. The store and the tables are maps, and the queries' row selection is a list of entries given as input. For the normalisers, the `LIKE` filters are modelled as `Select`/`SelectSimplified`.
- The candidate query of `main` (`LIKE '%动%' OR LIKE '%形%'`). The batch takes any list of entries.
- Explicit NULL tags in `main`. `get_verb_type` would raise on them; the model's entries always carry a string tag.
- `get_type_map` reads from the database. Its result is the input `typeMap`.
- All `print` output: progress lines, the report of `analyze_grammar` with its percentages and `most_common` listing, and the dry-run preview of `calibrate_pos.py`.
- The apply phase of `calibrate_pos.py` (lines 230-241). It is SQL updates and `count = len(updates)`.
- MeCab tagging and Jamdict lookups in `calibrate_pos.py`. These are foreign libraries; the detected type of each row is an input.
- Backup, rollback and latest-backup file handling. These are filesystem I/O.
- `scripts/migrate_grammar.py` is not part of this model.
- The unused `furigana` column.
- Python exceptions:
  - `conjugate_v1` on an empty word or an unknown final kana: a precondition instead (`Paradigms.IsGodanWord`);
  - the blanket `try/except` of `calibrate_pos.py` and `analyze_grammar.py`.
- Paradigms.ConjugateVk: the kanji table is chosen by `'来' in word` alone; no reading or furigana is consulted, exactly as in the source.
- AnalyzeGrammar.Analyze: models words as strings, so a NULL word, printed as `None` in an example, is not represented.
- Batch.BatchStoresForms assumes distinct word ids. They are the table's primary keys.
