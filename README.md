# Grant-recipient entity resolution, modelled in Dafny

The Python scripts of this repository enrich a `grants` table. Each grant names
a recipient in free text. The scripts try to attach the EIN (the US tax number)
of a registered charity or foundation to it. Several scripts carry their own
copy of the same pieces:

- a name normalizer `normalize_name`: upper-case, `&` to `AND`, drop
  punctuation, delete stopwords, collapse whitespace, strip;
- a blocking index from the registry rows;
- a matcher that asks the fuzzy library for the best registry name above a
  cutoff;
- the list of `(ein, grant_id)` updates and the `UPDATE` that writes them.

The matching tiers are:

- `StateTier`: state buckets, cutoff 95, in `ai_final_enrichment.py` and its
  identical twin `final_enrichment_local_match.py`;
- `PrefixTier`: four-character prefix buckets, cutoff 85, in `enrich_grant_data.py`;
- `HighSpeedTier`: a first-wins name map, an exact hit, then fuzzy at 95, in
  `test_high_speed_enrichment.py`;
- `EinTier`: exact EIN, in `final_match_and_update.py`.

Around the tiers sit smaller sequential jobs:

- batch normalization of stored names (`PrecomputeNames`);
- per-foundation scores (`Scores`);
- de-duplication of AI-generated grant purposes (`Purposes`);
- CRM lead filtering and the `sslmode` rewrite (`Leads`);
- the master-charity CSV import (`LoadCharities`);
- the Form 990 import (`ParseCharities`, `ParseFacts`);
- two XML diagnostics (`XmlAnalysis`, `DiagnoseTags`);
- the Windows-to-WSL path rewrite, shared by four scripts (`Paths`).

Shared modules:

- `Wrappers`: `Option`, `Result` and Python truthiness of a nullable string;
- `Text`: ASCII `upper`, `lower`, `strip`, `strip(c)` and substring;
- `Dicts`: insertion-ordered Python dicts;
- `Normalizer`, `NormalizerFacts`: the normalizer and its properties;
- `Fuzzy`: `extractOne` over an abstract scorer;
- `Buckets`: the two-level index and the in-bucket match;
- `Enrichment`: the update list;
- `Grants`: the `grants` table as a class with the two `UPDATE` statements.

How the model stands in for the scripts:

- Work the scripts do with the database, the file system, the XML parser or the
  AI model arrives as parameters: query rows as sequences, file contents as
  functions from a path to the parsed result, model responses as a sequence.
- Loops that build dicts, lists and counters are methods proved against
  functions that define their result.
- The two `UPDATE` statements are methods of the class `Grants.GrantTable`.

## Model

| member | source | states |
|---|---|---|
| `Text.Upper` | ai_final_enrichment.py:25 | `upper()` keeps the length and maps each character by itself: `a`-`z` to `A`-`Z`, all else unchanged |
| `Text.Lower` | load_master_charities.py:48 | `lower()` keeps the length and maps `A`-`Z` to `a`-`z`, all else unchanged |
| `Text.Strip` | parse_charities.py:27 | the result of `strip()` neither starts nor ends with whitespace |
| `Text.StripIsSlice` | debug_parser.py:14 | `strip()` keeps one contiguous slice and drops only whitespace before and after it |
| `Text.StripOfStripped` | analyze_xml_content.py:14 | a string without surrounding whitespace is its own `strip()` |
| `Text.StripOfBlanks` | final_match_and_update.py:26 | a string of whitespace strips to `""` |
| `Text.StripChar` | generate_missing_purposes.py:60 | `strip('"')` leaves no `"` at either end |
| `Normalizer.ReplaceAmpersand` | ai_final_enrichment.py:25 | no `&` is left; a string without `&` is unchanged |
| `Normalizer.DropPunctuation` | ai_final_enrichment.py:26 | only word characters and whitespace remain, all taken from the input; a string of those alone is unchanged |
| `Normalizer.Prepare` | final_enrichment_local_match.py:25-26 | after upper-casing, `&` replacement and punctuation removal only `[A-Z0-9_]` and whitespace remain |
| `Normalizer.Normalize` | ai_final_enrichment.py:25-34 | the normalized name carries no surrounding whitespace |
| `Normalizer.NormalizeName` | ai_final_enrichment.py:22-24 | `None` and `""` normalize to `""` without raising; no result carries surrounding whitespace |
| `Normalizer.NormalizeNameExtended` | test_high_speed_enrichment.py:21-22 | the extended normalizer also maps `None` and `""` to `""`, and carries no surrounding whitespace |
| `NormalizerFacts.DeleteMatchedToken` | ai_final_enrichment.py:33 | on words and whitespace, `\bW\b` deletes a whitespace-delimited token equal to `W` whole |
| `NormalizerFacts.DeleteKeptToken` | precompute_normalized_names.py:27 | a whitespace-delimited token different from `W` is copied whole by the `\bW\b` deletion |
| `NormalizerFacts.DeleteAllTokens` | ai_final_enrichment.py:32-33 | on words and whitespace, the stopword loop keeps exactly the tokens not in the list, in order |
| `NormalizerFacts.RemoveTokensFilters` | final_enrichment_local_match.py:32-33 | every kept token is an input token and not a stopword |
| `NormalizerFacts.RemoveInSteps` | enrich_grant_data.py:32-33 | deleting stopwords one after another equals filtering by the whole list at once |
| `NormalizerFacts.StripCollapse` | ai_final_enrichment.py:34 | `re.sub(r'\s+', ' ', t).strip()` is the tokens of `t` joined by single spaces |
| `NormalizerFacts.NormalizeAsTokens` | ai_final_enrichment.py:25-34 | for a single-word vocabulary, normalizing is: prepare, split, drop stopword tokens in order, join with one space |
| `NormalizerFacts.NormalizeNameCanonical` | enrich_grant_data.py:22-34 | the output holds only `[A-Z0-9_]` and single inner spaces, with no leading or trailing space |
| `NormalizerFacts.NormalizeNameFiltersTokens` | final_enrichment_local_match.py:27-34 | no output token is a stopword, and the output tokens are the input's non-stopword tokens in order |
| `NormalizerFacts.NormalizeIdempotent` | ai_final_enrichment.py:22-34 | for any single-word vocabulary, normalizing twice is normalizing once |
| `NormalizerFacts.NormalizeNameIdempotent` | final_enrichment_local_match.py:22-34 | `normalize_name(normalize_name(x)) == normalize_name(x)` |
| `Dicts.GetPut` | final_enrichment_local_match.py:84 | after `d[k] = v`, `k` reads `v` and every other key reads as before |
| `Dicts.PutKeepsOrder` | ai_final_enrichment.py:58 | assignment keeps the existing keys in their order and appends only a new key |
| `Dicts.PutIfAbsent` | test_high_speed_enrichment.py:76-77 | `if k not in d: d[k] = v` keeps the dict well formed |
| `Dicts.FirstWinsValid` | test_high_speed_enrichment.py:79-80 | a dict filled by `if k not in d: d[k] = v` lists each key once, and its keys are exactly the mapped ones |
| `Dicts.FirstWinsKeys` | test_high_speed_enrichment.py:74-77 | a key is present exactly when some row yields it |
| `Dicts.FirstWinsValue` | test_high_speed_enrichment.py:76-77 | a key's value is the one of the first row that yields the key |
| `Dicts.KeyedFirstWins` | generate_missing_purposes.py:104-106 | with keyed rows, the first row with a non-blank key sets that key's value |
| `Dicts.FirstWinsSize` | generate_missing_purposes.py:98-106 | a first-wins dict has no more keys than rows that yield an entry |
| `Fuzzy.BestIndex` | ai_final_enrichment.py:60 | the position of the first choice with the highest score |
| `Fuzzy.ExtractOne` | enrich_grant_data.py:63 | the result is a choice scoring at least the cutoff and no less than any choice; it is absent exactly when every choice scores below the cutoff |
| `Fuzzy.ExtractOneFirstOnTie` | test_high_speed_enrichment.py:53 | on a tie the earliest choice wins |
| `Fuzzy.ExtractOneDependsOnScores` | final_enrichment_local_match.py:57 | two scorers that agree on every choice select the same choice |
| `Buckets.Add` | ai_final_enrichment.py:87 | `index[bucket][name] = ein` adds the bucket to the keys when it is missing |
| `Buckets.LookupAdd` | enrich_grant_data.py:90 | after one assignment only its `(bucket, name)` place changes |
| `Buckets.LookupStep` | ai_final_enrichment.py:83-87 | one more row either assigns `(b, n)` or leaves its lookup as before |
| `Buckets.BuildIndex` | ai_final_enrichment.py:80-87 | the loop builds the index that the rows define |
| `Buckets.IndexLastWins` | final_enrichment_local_match.py:80-84 | `index[b][n] == v` exactly when some row assigns `v` there and no later row assigns to `(b, n)` |
| `Buckets.IndexAbsent` | enrich_grant_data.py:86-90 | `index[b][n]` is missing exactly when no row assigns to it |
| `Buckets.IndexBucketsWellFormed` | enrich_grant_data.py:83-90 | every bucket is a well-formed dict and none is empty |
| `Buckets.IndexNamesFromRows` | ai_final_enrichment.py:84-87 | each name in a bucket was assigned there by some row |
| `Buckets.MatchInBucket` | ai_final_enrichment.py:58-67 | a match carries the grant's id and the non-empty EIN stored for a top-scoring name at or above the cutoff; there is none when all names score below it |
| `Buckets.MatchInBucketFinds` | enrich_grant_data.py:61-69 | with non-empty EINs, a name at or above the cutoff guarantees a match |
| `Buckets.IndexMatchComplete` | final_enrichment_local_match.py:55-63 | a name that a row put in the bucket and that scores at or above the cutoff guarantees a match there |
| `StateTier.StateEntryEin` | ai_final_enrichment.py:84-87 | a charity row is filed under its own state with its own EIN |
| `StateTier.MatchGrant` | ai_final_enrichment.py:41-69 | a match needs a recipient name and a state; it pairs the grant's id with the non-empty EIN of a state-bucket name scoring at least 95 |
| `StateTier.MatchAll` | ai_final_enrichment.py:107-108 | one result per grant, each carrying that grant's id |
| `StateTier.MatchGrantFromCatalog` | final_enrichment_local_match.py:47-63 | a match's EIN is the one the last catalog row filed under the grant's state and a name scoring at least 95 |
| `StateTier.MatchGrantComplete` | ai_final_enrichment.py:47-67 | with non-empty EINs, a named grant with a state is matched whenever a charity of that state whose normalized name is non-empty scores at least 95 |
| `StateTier.StateTierOutcome` | ai_final_enrichment.py:110-116 | each matched grant holds its EIN after the batch, and an already matched row is unchanged |
| `StateTier.RunStateTier` | final_enrichment_local_match.py:74-114 | `main` leaves the table as the match `UPDATE`s of the non-`None` results make it |
| `PrefixTier.Prefix` | enrich_grant_data.py:89 | `n[:4]` is a prefix of `n`, four characters long or all of `n` |
| `PrefixTier.PrefixEntryShape` | enrich_grant_data.py:86-90 | a row is indexed exactly when its name normalizes to something non-empty, under that name's prefix |
| `PrefixTier.MatchGrant` | enrich_grant_data.py:41-71 | a match needs a non-empty normalized recipient; it pairs the grant's id with the EIN of a name in the recipient's prefix bucket scoring at least 85 |
| `PrefixTier.MatchAll` | enrich_grant_data.py:110 | one result per grant, each carrying that grant's id |
| `PrefixTier.BucketNamesHavePrefix` | enrich_grant_data.py:87-90 | every name in bucket `k` is non-empty, has `k` as its prefix and is some row's normalized name |
| `PrefixTier.EmptyNamesNotIndexed` | enrich_grant_data.py:88 | `""` is never a key of any bucket |
| `PrefixTier.MatchSharesPrefix` | enrich_grant_data.py:54-67 | a matched name has the recipient's prefix; a recipient shorter than four characters matches only its own exact name |
| `PrefixTier.EmptyRecipientUnmatched` | enrich_grant_data.py:46-51 | a recipient that is empty or made only of stopwords and punctuation is never matched |
| `PrefixTier.MatchGrantComplete` | enrich_grant_data.py:54-69 | with non-empty EINs, a charity in the recipient's bucket scoring at least 85 guarantees a match |
| `PrefixTier.PrefixTierOutcome` | enrich_grant_data.py:112-119 | each matched grant holds its EIN after the batch, and an already matched row is unchanged |
| `PrefixTier.RunPrefixTier` | enrich_grant_data.py:83-119 | `main` leaves the table as the match `UPDATE`s of the non-`None` results make it |
| `HighSpeedTier.NormalizedName` | test_high_speed_enrichment.py:75 | an empty name normalizes to `""`, and no normalized name carries surrounding whitespace |
| `HighSpeedTier.BuildNameMap` | test_high_speed_enrichment.py:71-77 | the guarded insert loop builds the first-wins map of the rows' non-empty normalized names |
| `HighSpeedTier.NameMapFirstWins` | test_high_speed_enrichment.py:74-80 | a name maps to the EIN of the first foundation that normalizes to it, and the choices list each name once |
| `HighSpeedTier.NameMapKeysFromRows` | test_high_speed_enrichment.py:75-77 | every key is non-empty and is some foundation's normalized name |
| `HighSpeedTier.MatchGrant` | test_high_speed_enrichment.py:42-60 | no match for an empty normalized recipient; a match carries the grant's id and the EIN of the exact name or of a name scoring at least 95 |
| `HighSpeedTier.ExactHitSkipsScorer` | test_high_speed_enrichment.py:49-51 | an exact hit with a truthy EIN is returned whatever the scorer says |
| `HighSpeedTier.FuzzyFallback` | test_high_speed_enrichment.py:53-58 | without a usable exact hit, the matcher is `extractOne` at 95 over all the map's names |
| `HighSpeedTier.ExtendedVocabularyShape` | test_high_speed_enrichment.py:25-31 | `"L L C"` is the only extended stopword that does not start with two word characters |
| `HighSpeedTier.NoMatchWithoutAdjacentPair` | test_high_speed_enrichment.py:33 | a stopword starting with two word characters cannot match in a string without two adjacent word characters |
| `HighSpeedTier.NoEntryInDoubleSpace` | test_high_speed_enrichment.py:26 | the pattern `\bL L C\b` does not match `"L L  C"`, which has two spaces |
| `HighSpeedTier.DeleteAllOnDoubleSpace` | test_high_speed_enrichment.py:32-33 | no extended stopword changes `"L L  C"` |
| `HighSpeedTier.DeleteAllOnSingleSpace` | test_high_speed_enrichment.py:26-33 | the stopword loop deletes all of `"L L C"` |
| `HighSpeedTier.CollapseDoubleSpace` | test_high_speed_enrichment.py:34 | collapsing whitespace turns `"L L  C"` into `"L L C"` |
| `HighSpeedTier.ExtendedOnDoubleSpace` | test_high_speed_enrichment.py:23-34 | `"L L  C"` normalizes to `"L L C"` |
| `HighSpeedTier.ExtendedOnSingleSpace` | test_high_speed_enrichment.py:25-34 | `"L L C"` normalizes to `""` |
| `HighSpeedTier.ExtendedNotIdempotent` | test_high_speed_enrichment.py:21-34 | the extended normalizer is not idempotent: `"L L  C"` gives `"L L C"`, which gives `""` |
| `EinTier.CharityEins` | final_match_and_update.py:26 | the set holds exactly the stripped truthy EINs, each without surrounding whitespace |
| `EinTier.EinMatch` | final_match_and_update.py:48-49 | a grant yields an update exactly when its truthy `recipient_ein`, stripped, is a charity EIN; the update carries the grant's id and a charity EIN |
| `EinTier.EinResults` | final_match_and_update.py:46-49 | one outcome per grant, in order: grant `i` is matched exactly when its stripped truthy EIN is a charity EIN, and then with its own id to a charity EIN |
| `EinTier.MatchByEin` | final_match_and_update.py:45-49 | the loop's list is the present outcomes, in grant order |
| `EinTier.EinUpdatesExactly` | final_match_and_update.py:48-49 | an update exists exactly for a grant with a truthy EIN whose stripped form is a charity EIN; it carries that stripped EIN and the grant's id; there are no more updates than grants |
| `EinTier.BlankEinsMatch` | final_match_and_update.py:24-49 | a charity EIN of blanks is stored as `""`, and a grant whose EIN is blanks is then matched to `""` |
| `EinTier.EinTierOutcome` | final_match_and_update.py:52-57 | each matched grant holds its stripped EIN after the batch, and an already matched row is unchanged |
| `EinTier.RunEinTier` | final_match_and_update.py:21-57 | `main` leaves the table as the match `UPDATE`s of the loop's list make it |
| `Enrichment.Updates` | ai_final_enrichment.py:110 | the update list is no longer than the results |
| `Enrichment.UpdatesSnoc` | ai_final_enrichment.py:110 | one more result appends its update when it is present, and leaves the list as it was otherwise |
| `Enrichment.UpdatesArePresentResults` | final_enrichment_local_match.py:107 | an update is in the list exactly when it is a present result |
| `Enrichment.UpdateOrigin` | enrich_grant_data.py:112 | every update is the result at some position |
| `Enrichment.UpdatesHaveDistinctIds` | test_high_speed_enrichment.py:100 | when result `i` carries grant `i`'s id and the ids are distinct, no id appears twice in the update list |
| `Grants.SetMatched` | ai_final_enrichment.py:115 | one match `UPDATE` keeps the set of rows |
| `Grants.AllMatched` | enrich_grant_data.py:118 | the batch of match `UPDATE`s keeps the set of rows |
| `Grants.SetPurpose` | generate_missing_purposes.py:123 | one purpose `UPDATE` keeps the set of rows |
| `Grants.AllPurposes` | generate_missing_purposes.py:122-125 | the batch of purpose `UPDATE`s keeps the set of rows |
| `Grants.GrantTable.ApplyMatches` | final_enrichment_local_match.py:113 | the table becomes the result of the match `UPDATE`s in order |
| `Grants.GrantTable.ApplyPurposes` | generate_missing_purposes.py:122-126 | the table becomes the result of the purpose `UPDATE`s in order |
| `Grants.MatchesFrame` | test_high_speed_enrichment.py:105 | the match `UPDATE`s change only `recipient_ein_matched`, and only in rows some tuple names |
| `Grants.MatchesWritten` | final_match_and_update.py:55 | with distinct ids, each named row ends up matched to its tuple's EIN |
| `Grants.MatchOverwrites` | ai_final_enrichment.py:115 | the `UPDATE` has no `IS NULL` guard: an existing match is overwritten |
| `Grants.PurposesFrame` | generate_missing_purposes.py:123 | the purpose `UPDATE`s change only `grant_purpose` and never a row whose purpose is set |
| `Grants.PurposesOnlyFillTargets` | generate_missing_purposes.py:122-124 | a changed row met some tuple's `WHERE` clause and received that tuple's purpose |
| `Grants.PurposesIdempotent` | generate_missing_purposes.py:118-126 | running the purpose batch twice is running it once |
| `Grants.NoTargetLeft` | generate_missing_purposes.py:114-125 | after the batch, no row with a NULL purpose meets any tuple's `WHERE` clause |
| `Grants.StableUnderPurposes` | generate_missing_purposes.py:121-125 | a table where no `WHERE` clause holds is left unchanged |
| `Grants.BatchOutcome` | test_high_speed_enrichment.py:98-106 | each matched grant holds its EIN, unmatched and already matched rows are unchanged |
| `PrecomputeNames.ProcessBatch` | precompute_normalized_names.py:30-39 | the loop returns the updates of the kept records, in order |
| `PrecomputeNames.ProcessRecord` | precompute_normalized_names.py:35-38 | a record yields an update exactly when it has a key and a name; the update carries that key and a canonical name |
| `PrecomputeNames.ProcessRecordKeeps` | precompute_normalized_names.py:35-38 | a record is kept exactly when (`id` or `ein`) and (`name` or `recipient_name`) are truthy; the update pairs the chosen name, normalized, with the chosen key |
| `PrecomputeNames.ProcessedAppend` | precompute_normalized_names.py:32-39 | processing two lists back to back gives the two outputs back to back |
| `PrecomputeNames.ProcessedExactly` | precompute_normalized_names.py:33-39 | the output is exactly the kept records' updates, no more than the records |
| `PrecomputeNames.ProcessedCanonical` | precompute_normalized_names.py:16-28 | every written name is canonical and a fixed point of `normalize_name` |
| `PrecomputeNames.ChunksFlatten` | precompute_normalized_names.py:57 | the chunks put back together are the list |
| `PrecomputeNames.Chunks` | precompute_normalized_names.py:57 | no chunks exactly for an empty list; every chunk is non-empty and at most `size` long |
| `PrecomputeNames.ChunkSizes` | precompute_normalized_names.py:76 | every chunk is non-empty and at most 10 000 long, all but the last exactly 10 000, and there are `ceil(n / size)` of them |
| `PrecomputeNames.FlattenKept` | precompute_normalized_names.py:80 | filtering each chunk and flattening is filtering the flattened list |
| `PrecomputeNames.FlattenProcessed` | precompute_normalized_names.py:61 | flattening the per-batch outputs is `process_batch` of the whole list |
| `PrecomputeNames.ProcessBatches` | precompute_normalized_names.py:59 | one output per batch, in batch order |
| `PrecomputeNames.PrecomputeNames` | precompute_normalized_names.py:55-65 | chunk, process and flatten give `process_batch` of the whole table |
| `Scores.Velocity` | precompute_scores.py:63-65 | a foundation with no grants has velocity 0 |
| `Scores.States` | precompute_scores.py:63-67 | a state set never holds `""`, and is empty for a foundation with no grants |
| `Scores.Amounts` | precompute_scores.py:71-73 | no more amounts than grants, and none of them 0 |
| `Scores.VelocityStep` | precompute_scores.py:65 | one more grant adds its amount, or 0, to its own foundation's velocity |
| `Scores.StatesStep` | precompute_scores.py:66-67 | one more grant adds its truthy state to its own foundation's set |
| `Scores.AmountsStep` | precompute_scores.py:72-73 | one more grant appends its truthy amount to its own foundation's list |
| `Scores.AccumulateGrants` | precompute_scores.py:61-67 | every velocity is the sum of the foundation's amounts; a stored state set is never empty and holds exactly the grants' truthy states |
| `Scores.GroupAmounts` | precompute_scores.py:69-73 | a foundation has a list exactly when it has a truthy amount, and the list is those amounts in order |
| `Scores.AmountsAndVelocity` | precompute_scores.py:63-73 | the stored amounts are the non-zero amounts, and the velocity is their sum |
| `Scores.StatesFromGrants` | precompute_scores.py:63-67 | a state is in the set exactly when one of the foundation's grants names it |
| `Scores.SortSeq` | precompute_scores.py:79 | sorting keeps the length and the multiset of amounts |
| `Scores.SortSeqSorted` | precompute_scores.py:79 | the sorted list is ascending |
| `Scores.SortInPlace` | precompute_scores.py:79 | the array is sorted in place: ascending and a permutation of what it held |
| `Scores.TrimmedShape` | precompute_scores.py:80-81 | from three amounts on, the trim drops `n / 20` from each end and leaves at least one |
| `Scores.TrimmedOfSorted` | precompute_scores.py:79-81 | the trimmed sorted list is sorted and lies between the dropped low and high ends |
| `Scores.AskOfBasis` | precompute_scores.py:75-82 | a foundation with amounts gets a mean: of all amounts below three, else of the sorted trimmed list, never empty |
| `Scores.AskOfLong` | precompute_scores.py:79-82 | from three amounts on, the mean is taken over the sorted trimmed list |
| `Scores.AskOf` | precompute_scores.py:75-82 | no ask exactly when there are no amounts; a mean is taken over at least one and at most all of the amounts |
| `Scores.SmartAsk` | precompute_scores.py:76-82 | one turn stores that ask and sorts the list in place when it has three or more amounts |
| `Scores.SmartAskAmounts` | precompute_scores.py:75-82 | one ask per foundation with amounts, each from its own list |
| `Scores.NationalScoreTiers` | precompute_scores.py:89-90 | the national score is 0, 50 or 100 and never drops as the state count grows; 100 exactly above 10 states, 0 exactly below 5 |
| `Scores.NationalScore` | precompute_scores.py:89-90 | the score is 0, 50 or 100, and 0 exactly below 5 states |
| `Scores.Level` | precompute_scores.py:88 | the largest `k` up to the cap with `10^k <= p` |
| `Scores.FinancialScore` | precompute_scores.py:88 | the score is within 0..100 and is 0 for missing or non-positive assets |
| `Scores.FinancialMonotone` | precompute_scores.py:88 | more assets never lower the financial score |
| `Scores.FinancialCap` | precompute_scores.py:88 | the score is 100 exactly from assets of 10^10 on |
| `Scores.RowFor` | precompute_scores.py:85-97 | the row carries the foundation's EIN, geo score 0, a financial score within 0..100 and a national score of 0, 50 or 100; a foundation absent from `giving_velocity` gets velocity 0 |
| `Scores.BuildScoreRows` | precompute_scores.py:84-98 | one row per foundation, in order, each built from the three accumulated dicts |
| `Scores.PrecomputeScores` | precompute_scores.py:61-98 | one row per foundation, each computed from that foundation's grants alone |
| `Scores.ExpectedRowShape` | precompute_scores.py:92-97 | geo score 0, financial score within 0..100, and a smart ask of 0 exactly when there are no truthy amounts |
| `Purposes.CleanResponse` | generate_missing_purposes.py:60 | the cleaned response neither starts nor ends with `"` and is no longer than the text |
| `Purposes.GeneratePurpose` | generate_missing_purposes.py:31-62 | a purpose comes back exactly when the model exists, mission, recipient and foundation names are truthy and the call succeeds; it is the cleaned response |
| `Purposes.QuotedBlankIsEmpty` | generate_missing_purposes.py:58-62 | a response of quotes between blanks cleans to `""`, which counts as no purpose |
| `Purposes.Zip` | generate_missing_purposes.py:100 | `zip` pairs position by position and stops at the shorter list |
| `Purposes.PurposeMap` | generate_missing_purposes.py:98-106 | `purpose_map` is a well-formed dict |
| `Purposes.BuildPurposeMap` | generate_missing_purposes.py:99-106 | the loop fills `purpose_map` and counts the truthy results |
| `Purposes.MapNoLargerThanSuccesses` | generate_missing_purposes.py:112 | the map has no more keys than successful generations |
| `Purposes.FirstPurposeKept` | generate_missing_purposes.py:104-106 | a key holds the first truthy purpose for it; later purposes are ignored |
| `Purposes.MapKeysFromSuccesses` | generate_missing_purposes.py:101-104 | every key comes from a pair with a truthy purpose |
| `Purposes.UpdateData` | generate_missing_purposes.py:114-116 | one triple per key of the map |
| `Purposes.BuildUpdateData` | generate_missing_purposes.py:115-116 | the loop builds `update_data` from the map's items |
| `Purposes.UpdateDataOnePerKey` | generate_missing_purposes.py:114 | each key gives exactly one triple carrying its purpose, and no two triples share a key |
| `Purposes.PurposeMapEmpty` | generate_missing_purposes.py:98-110 | `purpose_map` is empty exactly when no generated purpose is truthy |
| `Purposes.GenerateMissingPurposes` | generate_missing_purposes.py:84-127 | returns early exactly when there are no tasks, when there is no API key, and when no generated purpose is truthy; an update runs the conditional `UPDATE` of the non-empty `update_data` built from `purpose_map`; every early return leaves the table untouched |
| `Leads.WithSslMode` | generate_leads.py:15-16 | `?sslmode=require` is appended literally exactly when `sslmode` is not a substring; the result always contains it |
| `Leads.WithSslModeIdempotent` | generate_leads.py:12-16 | applying the rewrite twice is applying it once |
| `Leads.ConnectionUrl` | generate_leads.py:9-17 | a missing or empty `DATABASE_URL` raises; otherwise the URL gets `sslmode` |
| `Leads.NewLeadsMembers` | generate_leads.py:44-47 | a lead is new exactly when it is a potential lead whose EIN is not known, and there are no more of them than potential leads |
| `Leads.NewLeads` | generate_leads.py:41-45 | no more new leads than potential ones, and none whose EIN is already a lead |
| `Leads.FilterNewLeads` | generate_leads.py:43-47 | the loop keeps the potential leads with unknown EINs, in order |
| `Leads.GenerateLeads` | generate_leads.py:26-61 | `main` returns before inserting exactly when no lead is new; otherwise it inserts a non-empty list whose members are exactly the new leads |
| `LoadCharities.LowerHeaders` | load_master_charities.py:48-49 | the headers are lower-cased one by one, in order |
| `LoadCharities.RowDictKeys` | load_master_charities.py:46 | a row dict's keys are exactly the headers |
| `LoadCharities.RowDict` | load_master_charities.py:46 | only headers are keys, and every present value is one of the line's values |
| `LoadCharities.RowDictValue` | load_master_charities.py:62 | a header reads its last column's value, or `None` past the end of a short line |
| `LoadCharities.RowRecord` | load_master_charities.py:63-79 | a row fails exactly when a required key is missing, reporting row number `i + 2`; a record leaves address and zip code `None` |
| `LoadCharities.DataLines` | load_master_charities.py:46 | `DictReader` skips exactly the empty lines |
| `LoadCharities.ReadRecords` | load_master_charities.py:62-79 | the loop builds the records in row order, or stops at the first `KeyError` |
| `LoadCharities.Records` | load_master_charities.py:62-79 | on success one record per row; a failure reports a row number from 2 to the number of rows plus 1 |
| `LoadCharities.Prefixes` | load_master_charities.py:74-79 | a `KeyError` on a prefix of the rows ends the whole import with that error |
| `LoadCharities.NoKeyErrorAfterCheck` | load_master_charities.py:55-73 | once the headers pass the check, every row gives one record with its four columns copied, in order |
| `LoadCharities.LoadMasterCharities` | load_master_charities.py:29-83 | the exits for a missing file, an empty file, missing headers, a missing column and no records; `TRUNCATE` runs exactly when the file exists; otherwise the records are inserted |
| `LoadCharities.ImportAfterHeaderCheck` | load_master_charities.py:55-83 | with the required headers the import never stops on a missing column: one record per data line |
| `ParseCharities.ParseInt` | parse_charities.py:70 | a parse succeeds only on a stripped text that starts with a digit or a sign |
| `ParseCharities.OptionalInt` | parse_charities.py:71-72 | `None` exactly for a falsy text; a failure exactly when a truthy text does not parse |
| `ParseCharities.ParseUnsignedInt` | parse_charities.py:70 | `int(t)` of a digit run is its value |
| `ParseCharities.ParseNegativeInt` | parse_charities.py:71 | `int('-' + t)` is minus the value of the digit run `t` |
| `ParseCharities.DecimalParses` | parse_charities.py:72 | `int(str(n)) == n` for every natural number |
| `ParseCharities.LetterIsNoNumber` | parse_charities.py:74-75 | text holding a letter does not parse as a number |
| `ParseCharities.Financials` | parse_charities.py:61-75 | at most one record, present exactly when the tax year is truthy, revenue or expenses is truthy, and every truthy one parses; the record carries the EIN, the year and exactly the truthy amounts |
| `ParseCharities.FinancialsOfNumerals` | parse_charities.py:66-73 | numbers written out as digits give the record their own values |
| `ParseCharities.OptionalIntDecimal` | parse_charities.py:71-72 | `int(x) if x else None` of a written-out number is that number |
| `ParseCharities.Mission` | parse_charities.py:56 | the mission is truthy exactly when one of the two descriptions is, and the first wins when truthy |
| `ParseCharities.ParseCharityData` | parse_charities.py:32-80 | a result exists exactly for a readable filing with a truthy EIN; its profile and financial records carry that EIN |
| `ParseCharities.Results` | parse_charities.py:104-105 | one result per file, in order: file `i` has one exactly when it reads as a filing with a truthy EIN, and the profile carries that EIN |
| `ParseCharities.ProfileUpdatesExactly` | parse_charities.py:107 | the profile updates are exactly the parsed profiles with a truthy mission |
| `ParseCharities.FinancialRecordsExactly` | parse_charities.py:108 | the records are exactly those of the parsed results, no more than the results |
| `ParseCharities.ParseCharitiesMain` | parse_charities.py:89-101 | a missing list and an empty list end early; otherwise at most 10 000 files are processed |
| `ParseCharities.MainOutcome` | parse_charities.py:101-108 | every profile update has a truthy mission and a processed file's EIN; every record has a processed file's EIN, and there are no more records than files |
| `ParseCharities.ProfilesFromFiles` | parse_charities.py:105-107 | each profile update has a truthy mission and the EIN of one of the files |
| `ParseCharities.RecordsFromFiles` | parse_charities.py:105-108 | at most one record per file, each with the EIN of one of the files |
| `ParseFacts.IntRoundTrip` | parse_charities.py:70-72 | `int(str(x)) == x` for every whole number, negative ones included |
| `Paths.Slashes` | parse_charities.py:29 | `replace('\\', '/')` keeps the length and changes only backslashes, each to a slash |
| `Paths.MountedPath` | analyze_xml_content.py:15-16 | a `C:` path becomes `/mnt/c` and the rest: four characters longer, with no backslash, the other characters kept |
| `Paths.ConvertDriveC` | parse_charities.py:27-29 | the same, read off the raw line: the result is four characters longer than the stripped line |
| `Paths.ConvertOtherPath` | debug_parser.py:14-17 | any other path, lower-case `c:` included, comes back stripped and otherwise unchanged |
| `Paths.LowerCaseDriveKept` | diagnose_xml_tags.py:16 | `c:\data` is not converted |
| `Paths.MountKeepsTrimmed` | diagnose_xml_tags.py:15-17 | the rewrite keeps a stripped path stripped |
| `Paths.ConvertIsStripped` | debug_parser.py:12-17 | the result never carries surrounding whitespace |
| `Paths.ConvertWindowsPathToWsl` | parse_charities.py:25-30 | only a stripped path on `C:` changes: it grows by four characters and starts with `/mnt/c`; any other path comes back stripped |
| `Paths.ConvertIdempotent` | parse_charities.py:25-30 | converting a converted path changes nothing |
| `Paths.Sample` | analyze_xml_content.py:55-65 | the first `size` lines of the list, each converted |
| `XmlAnalysis.AnalyzeFile` | analyze_xml_content.py:19-49 | only the three shapes: parsable exactly when parsing succeeds, and with grants exactly when a grant group exists, then carrying the serialized XML |
| `XmlAnalysis.FirstExamples` | analyze_xml_content.py:78-79 | the examples are the first `min(3, n)` contents |
| `XmlAnalysis.ExamplesGrow` | analyze_xml_content.py:78 | one more content is kept only while fewer than three are kept |
| `XmlAnalysis.CountsOrdered` | analyze_xml_content.py:67-77 | grant files are no more than parsable files, which are no more than files; every grant file brings a content |
| `XmlAnalysis.Analyses` | analyze_xml_content.py:72-73 | one analysis per file, in order: file `i` is parsable exactly when it can be read, and has grants exactly when it also holds a grant group |
| `XmlAnalysis.CountAnalyses` | analyze_xml_content.py:67-79 | the loop counts the parsable files and the grant files and keeps the first three grant contents |
| `XmlAnalysis.AnalyzeXmlContent` | analyze_xml_content.py:54-79 | a missing list and an empty list end early; otherwise the report is the count of the first 1000 files |
| `XmlAnalysis.ReportBounds` | analyze_xml_content.py:65-79 | at most 1000 files; `grant_count <= parsable_count <= total_files`; the examples are the first `min(3, grant_count)` grant contents, in order |
| `DiagnoseTags.LastClose` | diagnose_xml_tags.py:29 | the greedy `.*\}` ends at the last `}` reachable on the same line |
| `DiagnoseTags.CleanFromKeeps` | diagnose_xml_tags.py:28-29 | text without `}` is left as it is |
| `DiagnoseTags.PlainTagKept` | diagnose_xml_tags.py:29 | a tag without a namespace is kept as it is |
| `DiagnoseTags.CleanTag` | diagnose_xml_tags.py:29 | the cleaned name is no longer than the tag and made of its characters |
| `DiagnoseTags.NamespaceStripped` | diagnose_xml_tags.py:27-30 | `{ns}Name` becomes `Name`, even when `ns` holds braces |
| `DiagnoseTags.AllTags` | diagnose_xml_tags.py:20-34 | `None` exactly when parsing fails; otherwise exactly the cleaned names of the element tags |
| `DiagnoseTags.AddTags` | diagnose_xml_tags.py:60 | `Counter.update(set)` adds one for each tag of the set and changes nothing else |
| `DiagnoseTags.CountTags` | diagnose_xml_tags.py:52-60 | `parsable_count` counts the files with a non-empty tag set; the counter holds each tag with the number of such files holding it |
| `DiagnoseTags.OccurrencesBounded` | diagnose_xml_tags.py:56-59 | a tag occurs in no more files than were counted, and those are no more than the files |
| `DiagnoseTags.OccursSomewhere` | diagnose_xml_tags.py:57-60 | a tag occurs exactly when some counted file holds it |
| `DiagnoseTags.CounterBounded` | diagnose_xml_tags.py:54-60 | `0 < tag_counter[t] <= parsable_count` for every counted tag |
| `DiagnoseTags.CounterLine` | diagnose_xml_tags.py:78-81 | a tag is reported found exactly when the counter holds it, with its count |
| `DiagnoseTags.GrantReport` | diagnose_xml_tags.py:73-81 | one line per grant tag, found exactly when the counter holds it |
| `DiagnoseTags.OfficerReportAsWritten` | diagnose_xml_tags.py:83-88 | as written, one line per officer tag, every one reported found |
| `DiagnoseTags.OfficerReport` | diagnose_xml_tags.py:84-85 | the intended officer lines: found exactly when the counter holds the tag |
| `DiagnoseTags.OfficerCheckAlwaysTrue` | diagnose_xml_tags.py:84-88 | as written, every officer tag is reported found: an empty counter reports `PersonNm` found in 0 files |
| `DiagnoseTags.OfficerReportFaithful` | diagnose_xml_tags.py:74-88 | with the intended test, a tag is found exactly when some counted file holds it, and then in 1 to `parsable_count` files |
| `DiagnoseTags.TagSets` | diagnose_xml_tags.py:56-57 | one entry per sampled file, in order: a tag set exactly when the file parses, holding the cleaned tag of each of its elements |
| `DiagnoseTags.DiagnoseXmlTags` | diagnose_xml_tags.py:39-88 | a missing list and an empty list end early; otherwise at most 1000 files are counted and the grant lines follow the counter; the officer lines are the printed ones, every tag found, and the intended lines are kept beside them |

The four copies of `convert_windows_path_to_wsl` are the same text, so the
`Paths` rows above are spread over all four: parse_charities.py:25-30,
analyze_xml_content.py:12-17, diagnose_xml_tags.py:13-18 and
debug_parser.py:12-17. `normalize_name` with the sixteen-word list is the same
text at ai_final_enrichment.py:22-34, final_enrichment_local_match.py:22-34,
enrich_grant_data.py:22-34 and precompute_normalized_names.py:16-28.

The match `UPDATE` is written in the same form in the tiers,
`UPDATE grants SET recipient_ein_matched = %s WHERE id = %s` (for example
ai_final_enrichment.py:115). It has no `recipient_ein_matched IS NULL` guard,
although the tiers are meant to fill unmatched grants only. The model follows
the statement: `Grants.MatchOverwrites` shows that an earlier match is
overwritten. The tier outcomes rely on the `SELECT` having chosen only grants
whose match is NULL.

## Left out

- The fuzzy library: `process.extractOne` and its scorer (WRatio, difflib, float ratios, its own preprocessing) are an abstract scorer `Scorer = (string, string) -> int`. Where several choices tie for the best score, the model picks the first in key order. This tie-break is a modelling choice.
- Concurrency: `multiprocessing.Pool`, `init_worker` and the module globals are left out. `imap_unordered` is modelled as a map in input order.
- `Purposes.GenerateMissingPurposes`: takes the model's responses already paired with the tasks, one per task. The script zips `imap_unordered` results against `tasks` (generate_missing_purposes.py:96,100). That pairing depends on completion order, and the model does not claim it is right.
- The database: connections, SQL text, `execute_batch` paging, commits, rollbacks, `ON CONFLICT` clauses and `cursor.rowcount` printing are left out. Query results are input sequences, and the `WHERE` filters of the `SELECT`s are preconditions of the outcome lemmas. The `UPDATE`s are the methods of `Grants.GrantTable`. The `INSERT`s of leads, charities, scores and financial records are the outcome values.
- The `TRUNCATE` statements are left out, apart from whether the charity import reaches its `TRUNCATE` (`LoadCharities.LoadMasterCharities`).
- XML parsing: ElementTree work is parameters. These are `find_text` results as a `Filing`, `ET.parse` and `findall` as an `XmlDocument`, and `iterparse` as the list of element tags.
- The namespace-stripping regexes at parse_charities.py:41-43 depend on regex-engine details and are left out.
- Files and environment variables: their presence and contents are parameters.
- `ParseCharities.ParseCharityData`: the mission, address and zip code are copied from the filing without modelling `find_text`.
- `Scores.SmartAsk`: stores the list whose mean `np.mean` would take (`MeanOf(basis)`), not the floating-point mean. A foundation without amounts gets `NoAsk`, which stands for 0.
- `Scores.FinancialScore`: `int(min(100, log10(a) * 10))` is computed exactly, as the largest `k` with `10^k <= a^10`. Floating-point rounding of `log10` near a power of ten is not modelled.
- `Scores.TrimmedShape`: `int(len(amounts) * 0.05)` is modelled as `n / 20`. That ignores floating-point rounding of `0.05`.
- `Scores.AccumulateGrants`: the velocity starts from `float` in the script and is truncated by `int()` when the row is built. The model uses integer amounts throughout.
- Unicode: strings are sequences of characters with ASCII semantics. `\w` is `[A-Za-z0-9_]`, and `\s` and `str.isspace` are characters 9-13 and 28-32. `upper` and `lower` change only ASCII letters.
- `ParseCharities.ParseUnsignedInt`: Python's `int()` also accepts non-ASCII digits. The model reads ASCII digits, an optional sign, single underscores between digits, and surrounding whitespace.
- `csv.DictReader` parsing of quoted fields is left out: lines arrive already split into fields. The `restkey` entry for surplus values is left out because no lookup reads it.
- Printing and progress bars (`print`, `tqdm`), including the reports of the XML diagnostics, are left out. The report lines are values.
- The scripts outside the matching core are not part of this model: the web app, the embedding and Gemini scripts, the pandas and download scripts, and the DDL and inspection scripts.

## Findings

| source | as written | input that shows it | evidently intended | confidence | as-written member | corrected member |
|---|---|---|---|---|---|---|
| diagnose_xml_tags.py:84-88 | the officer loop tests `if tag in officer_tags`, which always holds inside `for tag in officer_tags` | no file parsed (empty `tag_counter`): `PersonNm` is reported "found in 0 files" | `if tag in tag_counter`, as the grant-tag loop at diagnose_xml_tags.py:77-81 does | not executed | `DiagnoseTags.OfficerCheckAlwaysTrue` | `DiagnoseTags.OfficerReport` |
