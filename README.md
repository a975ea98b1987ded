# Monomer bioreactor data pipeline — a Dafny model

The repository collects the data of a growth-media optimisation loop:

- plate-reader CSVs of absorbance readings over time (`AbsorbanceETL`);
- experiment CSVs naming a cell concentration, a dilution and reagent doses (`ExperimentETL`);
- a feature extractor that joins one experiment with one plate into a fixed 22-column feature table (`FeatureExtractor`);
- a protocol agent that recovers a reagent CSV from a language model's free-form reply (`ProtocolAgent`);
- a BLAST post-processor that ranks the species most related to a target organism (`BlastService`);
- two literature agents (`BasicResearchAgent`, `FutureHouseAPI`).

The last two keep their results in memo tables, `related_organisms` and `future_house_literature`.

The model works as follows:

- The database is a `Storage.Database` class whose tables are sequence fields. The bulk inserts append to them, and the repositories' queries are functions over them.
- The two cache tables are classes over maps, in `Caches`.
- Each ETL loop, the BLAST filter and the text clean-up are methods. Each is proved equal to a specification function written over prefixes of its input.
- What the source promises is then proved about those functions: error cases, last-occurrence-wins, first-hit-wins, ordering, stability, permutations, round trips and cache hit/miss behaviour.

Python's string operations are modelled on ASCII strings in `Strings`, and its stable `sorted` is a stable insertion sort in `Sorting`. Dictionaries keep insertion order, so they are modelled as sequences searched from the front.

Three choices of the code that a reader might expect to be otherwise:

- The literature cache key is the targets sorted and comma-joined exactly as given. It is not lower-cased, and a repeated target is kept.
- A zero dilution is not rejected before feature extraction: the division is performed. Here `feature_16` is `None` for such an experiment.
- The feature table's passthrough columns are the six the code selects, including `created_at`.

## Model

| member | source | states |
|---|---|---|
| Storage.Database.BulkCreatePlates | src/repositories/plate_repository.py:35-54 | one stored reading per record, appended in list order and stamped with the insert time; returns the number of records |
| Storage.StampAllIndex | src/repositories/plate_repository.py:42-51 | the i-th stored reading is the i-th record with the insert time added |
| Storage.StampedTwice | src/repositories/plate_repository.py:35-54 | two successive bulk inserts leave the table as one insert of both lists would |
| Storage.Database.CreateExperiment | src/repositories/experiment_repository.py:13-22 | appends an experiment under the next autoincrement id, which no stored experiment had |
| Storage.FindExperiment | src/repositories/experiment_repository.py:24-26 | returns a stored experiment with that id; None exactly when no experiment has it |
| Storage.FindReagent | src/repositories/reagent_repository.py:13-15 | returns a catalogue reagent with that exact name; None exactly when no reagent has it |
| Storage.Database.BulkCreateReagentValues | src/repositories/reagent_value_repository.py:32-50 | appends the dose rows in order and returns their number |
| Storage.ValuesOf | src/repositories/reagent_value_repository.py:52-56 | exactly the stored doses of that experiment |
| Storage.ReadingsOf | src/repositories/plate_repository.py:56-58 | exactly the stored readings of that plate |
| AbsorbanceEtl.ParsePlateId | src/services/absorbance_etl.py:20-29 | None exactly when no `plate_<digit>` occurs in the name; otherwise the number after the leftmost occurrence |
| AbsorbanceEtl.PlateIdRoundTrip | src/services/absorbance_etl.py:26-28 | a name `plate_<n>` followed by a non-digit yields n |
| AbsorbanceEtl.ParseWell | src/services/absorbance_etl.py:44-49 | succeeds exactly when the text starts with a row letter A-H and a digit; the row is that letter |
| AbsorbanceEtl.WellDigits | src/services/absorbance_etl.py:44-48 | the column is the value of the whole digit run after the letter, leading zeros included; text after the run is ignored |
| AbsorbanceEtl.WellLeadingZeros | src/services/absorbance_etl.py:44-48 | `A01` decodes to column 1 and `H007x` to column 7 |
| AbsorbanceEtl.WellRoundTrip | src/services/absorbance_etl.py:44-48 | writing a well as letter and column and decoding it gives the well back |
| AbsorbanceEtl.WellRejectsRow | src/services/absorbance_etl.py:44-49 | a first letter outside A-H is an invalid well identifier |
| AbsorbanceEtl.Trunc | src/services/absorbance_etl.py:105 | `int()` truncates toward zero for both signs |
| AbsorbanceEtl.HeaderCell | src/services/absorbance_etl.py:84-92 | a header cell yields at most one well, in rows A-H, at its own column |
| AbsorbanceEtl.HeaderWells | src/services/absorbance_etl.py:80-92 | the header wells come from columns after the first and lie in rows A-H |
| AbsorbanceEtl.HeaderWellsMeaning | src/services/absorbance_etl.py:80-92 | a column after the first is recorded exactly when its trimmed cell is non-blank and decodes, with the decoded well; the recorded columns keep header order |
| AbsorbanceEtl.ReadHeader | src/services/absorbance_etl.py:80-92 | the header loop decodes the columns as the specification function does |
| AbsorbanceEtl.CellRecord | src/services/absorbance_etl.py:111-126 | a cell yields at most one record, carrying the plate id, that well and the row's time |
| AbsorbanceEtl.RowRecords | src/services/absorbance_etl.py:111-130 | a row yields at most one record per header well |
| AbsorbanceEtl.RowRecordsMeaning | src/services/absorbance_etl.py:111-126 | in any row, partly filled or not, a well yields a record exactly when its cell exists, is non-blank and is a number; that record has that number, and the records follow header order |
| AbsorbanceEtl.ReadRow | src/services/absorbance_etl.py:111-130 | the cell loop yields the row's records |
| AbsorbanceEtl.ReadData | src/services/absorbance_etl.py:96-130 | the data loop skips blank rows, stops at a non-numeric time and collects the records of the timed rows |
| AbsorbanceEtl.ParseCsvFile | src/services/absorbance_etl.py:51-132 | a missing plate id fails first, then fewer than two rows; otherwise the header and data loops' records |
| AbsorbanceEtl.ParsedRecordsWellFormed | src/services/absorbance_etl.py:111-126 | every parsed record carries the file's plate id and a row letter A-H |
| AbsorbanceEtl.RecordsFromStop | src/services/absorbance_etl.py:104-108 | a row whose first cell is not a number yields nothing from there on |
| AbsorbanceEtl.StopRowEndsInput | src/services/absorbance_etl.py:104-108 | rows after a stop row have no effect on the result |
| AbsorbanceEtl.RecordsBound | src/services/absorbance_etl.py:96-130 | at most one record per header well per timed row |
| AbsorbanceEtl.FullRowInHeaderOrder | src/services/absorbance_etl.py:111-126 | a row with a value in every well yields one record per well, in header order |
| AbsorbanceEtl.IngestFile | src/services/absorbance_etl.py:134-163 | a parse error is raised with the store untouched; no records insert nothing; otherwise all records are inserted and counted |
| AbsorbanceEtl.IngestDirectory | src/services/absorbance_etl.py:165-188 | failing files are skipped; the store gains the successful files' records in file order, and the total counts them |
| ExperimentEtl.ParseExperimentIdMeaning | src/services/experiment_etl.py:26-35 | None exactly when no `exp<spaces><digit>` occurs, case-insensitively; otherwise the number after the leftmost occurrence |
| ExperimentEtl.ExpIdRoundTrip | src/services/experiment_etl.py:32-35 | any casing of `exp`, spaces and `<n>` followed by a non-digit yields n |
| ExperimentEtl.ParseCsvFile | src/services/experiment_etl.py:37-106 | the row loop computes what the specification function of the file states |
| ExperimentEtl.StepMeaning | src/services/experiment_etl.py:72-98 | a row fails exactly when it is unreadable; otherwise it updates the scalar it names or adds one candidate |
| ExperimentEtl.UnreadableMeaning | src/services/experiment_etl.py:73-75 | a row is fatal exactly when the parser reads a field it lacks |
| ExperimentEtl.ScanMeaning | src/services/experiment_etl.py:72-98 | the scan fails exactly on a malformed row; otherwise each scalar is its last value and the candidates are in row order |
| ExperimentEtl.ScanFailureSticks | src/services/experiment_etl.py:72-98 | once a row has failed, later rows do not change the outcome |
| ExperimentEtl.LastOccurrenceWins | src/services/experiment_etl.py:88-91 | a repeated scalar key takes its last value |
| ExperimentEtl.AbsentKeyMissing | src/services/experiment_etl.py:88-91 | a scalar no row sets stays unset |
| ExperimentEtl.ScalarRow | src/services/experiment_etl.py:74-91 | a row sets a scalar exactly when its trimmed, lower-cased type is that key and its value is a number |
| ExperimentEtl.ReagentRow | src/services/experiment_etl.py:93-98 | a reagent candidate keeps the trimmed type as written, the parsed value, and the trimmed unit when the file has units |
| ExperimentEtl.CandidatesBound | src/services/experiment_etl.py:93-98 | at most one candidate per row |
| ExperimentEtl.ParseErrors | src/services/experiment_etl.py:58-104 | the error is the missing id, else a malformed row, else a missing cell concentration, else a missing dilution, each exactly in its case |
| ExperimentEtl.ResolveCandidates | src/services/experiment_etl.py:147-159 | the catalogue loop builds the dose rows and the skipped names |
| ExperimentEtl.ResolvePartition | src/services/experiment_etl.py:147-159 | each candidate is stored or skipped; stored doses name catalogue reagents of this experiment, and skipped names are not in the catalogue |
| ExperimentEtl.CandidateLands | src/services/experiment_etl.py:147-159 | a known reagent's dose is stored with its catalogue id; an unknown name is skipped |
| ExperimentEtl.IngestFile | src/services/experiment_etl.py:108-179 | a parse error is raised with the store untouched; otherwise one experiment under the next id and its resolved doses are added, and the id is returned |
| ExperimentEtl.IngestDirectory | src/services/experiment_etl.py:181-204 | failing files are skipped; the store gains one experiment and its doses per parsed file, under consecutive ids, which are returned |
| ExperimentEtl.DirectoryIds | src/services/experiment_etl.py:192-204 | the j-th parsed file gets the j-th id after the first |
| FeatureExtractor.FeatureNamesAt | src/services/feature_extractor.py:94 | the feature columns are `feature_1` to `feature_n`, in order |
| FeatureExtractor.FeatureNameInjective | src/services/feature_extractor.py:79-86 | distinct slots have distinct column names |
| FeatureExtractor.ColumnLayout | src/services/feature_extractor.py:94-99 | 22 columns: sixteen distinct features, then the six passthrough columns; `row_index` is dropped |
| FeatureExtractor.FeatureColumnsOfLayout | src/services/feature_extractor.py:124 | the summary's feature columns are exactly `feature_1` to `feature_16` |
| FeatureExtractor.FillDoseColumns | src/services/feature_extractor.py:79-86 | slots 1 to 15 are each filled once: the dose in that position, or 0.0 |
| FeatureExtractor.DoseFeaturesMeaning | src/services/feature_extractor.py:79-86 | slot i holds the i-th sorted dose when there is one, and 0.0 otherwise |
| FeatureExtractor.LaterDosesIgnored | src/services/feature_extractor.py:80 | doses beyond the fifteenth do not change the features |
| FeatureExtractor.SortedDosesMeaning | src/services/feature_extractor.py:54-57 | the doses are the experiment's own, sorted by reagent id, as a permutation, with equal ids in stored order |
| FeatureExtractor.Feature16Meaning | src/services/feature_extractor.py:88-91 | feature 16 times dilution times the 1-based row index is the cell concentration; undefined exactly when the dilution is zero |
| FeatureExtractor.BuildRows | src/services/feature_extractor.py:65-91 | one feature row per reading, in reading order |
| FeatureExtractor.RowsForAt | src/services/feature_extractor.py:65-91 | row k is built from reading k with row index k+1 |
| FeatureExtractor.GetFeaturesDataframe | src/services/feature_extractor.py:49-99 | the method returns the feature table the specification function defines |
| FeatureExtractor.FeatureErrors | src/services/feature_extractor.py:49-62 | an unknown experiment is an error, and so is an empty plate, each exactly in its case |
| FeatureExtractor.RowPerReading | src/services/feature_extractor.py:65-99 | the table has the 22 columns and one row per plate reading, carrying that reading's fields, the sorted doses and feature 16 |
| FeatureExtractor.GetFeaturesSummary | src/services/feature_extractor.py:117-127 | the summary has the record count, 16 features, the requested plate and experiment ids, the feature names and the shape (records, 22); errors as for the table |
| ProtocolAgent.SelectorsCompared | src/agents/protocol_agent.py:197 | generation selects a fragment exactly when it contains `name,concentration`; refinement's selector is stricter |
| ProtocolAgent.DropTagMeaning | src/agents/protocol_agent.py:200-202 | a first line `csv` or `text`, in any casing, is dropped and nothing else changes |
| ProtocolAgent.ExtractFence | src/agents/protocol_agent.py:193-203 | the fence loop returns what the specification function of the reply states |
| ProtocolAgent.FenceUnchanged | src/agents/protocol_agent.py:193-203 | a reply without a fence, or with no fragment the selector accepts, is left as it is |
| ProtocolAgent.FenceSelected | src/agents/protocol_agent.py:193-203 | the first selected fragment, trimmed and without its tag line, is the table |
| ProtocolAgent.CleanUp | src/agents/protocol_agent.py:206-237 | the clean-up loop produces the cleaned text |
| ProtocolAgent.RepairLineIdentity | src/agents/protocol_agent.py:223-235 | regrouping a line with more than two commas leaves its text unchanged |
| ProtocolAgent.KeptLinesMeaning | src/agents/protocol_agent.py:209-215 | the kept lines are trimmed, non-blank and not a bare tag; there are no more of them than input lines |
| ProtocolAgent.KeptLinesFree | src/agents/protocol_agent.py:206-235 | no kept line contains a newline |
| ProtocolAgent.KeptLinesOfKept | src/agents/protocol_agent.py:209-235 | lines that are already clean are all kept, unchanged |
| ProtocolAgent.CleanTextIdempotent | src/agents/protocol_agent.py:206-237 | cleaning a cleaned text changes nothing |
| ProtocolAgent.RecoverGeneratedTable | src/agents/protocol_agent.py:190-237 | the generation path strips the reply, extracts the selected fence and cleans it |
| ProtocolAgent.RecoverRefinedTable | src/agents/protocol_agent.py:331-344 | the refinement path strips the reply and extracts the fence with the stricter selector, without the clean-up |
| ProtocolAgent.ToReagents | src/agents/protocol_agent.py:257-264 | one reagent entry per table row, with its name, unit and concentration |
| BlastService.CanonicalName | src/services/blast_service.py:43-48 | the line loop returns the name the specification function gives |
| BlastService.CanonicalNameDefault | src/services/blast_service.py:43-48 | with no `ORGANISM` line the given name is kept |
| BlastService.CanonicalNameFirstLine | src/services/blast_service.py:43-48 | the first `ORGANISM` line decides the canonical name |
| BlastService.OrganismLineName | src/services/blast_service.py:45-47 | an indented `ORGANISM` line names the trimmed text after the keyword |
| BlastService.SpeciesOfWords | src/services/blast_service.py:90-94 | the species of a title is its first two words, joined by one space |
| BlastService.SpeciesOfStripped | src/services/blast_service.py:90-94 | a species name is non-empty and has no surrounding spaces |
| BlastService.FindHitMeaning | src/services/blast_service.py:97-105 | a species lookup finds an entry of that species, and fails exactly when there is none |
| BlastService.FindHitSnoc | src/services/blast_service.py:97-105 | adding an entry never changes an existing species' entry |
| BlastService.FilterBlastResults | src/services/blast_service.py:82-106 | the alignment loop returns what the specification function gives |
| BlastService.FilterFailure | src/services/blast_service.py:87-88 | the filter fails exactly when an alignment has no HSP or a zero alignment length |
| BlastService.FilteredFailureSticks | src/services/blast_service.py:85-88 | once an alignment has failed, later alignments do not matter |
| BlastService.FilterInvariant | src/services/blast_service.py:90-105 | at most one entry per alignment; species are distinct, non-empty and trimmed, and never the excluded organism in any casing |
| BlastService.FirstHitFor | src/services/blast_service.py:90-105 | the first alignment naming a species comes before the bound and names that species |
| BlastService.FirstHitForMeaning | src/services/blast_service.py:90-105 | no earlier alignment names that species |
| BlastService.HitStepFind | src/services/blast_service.py:97-105 | one alignment adds only its own species, only when that species is new and not excluded |
| BlastService.FirstAlignmentWins | src/services/blast_service.py:82-106 | each species' entry comes from its first alignment; the excluded organism has none |
| BlastService.SortedSpeciesMeaning | src/services/blast_service.py:108-110 | the species are ordered by non-increasing identity, as a permutation of the entries |
| BlastService.SortedSpeciesStable | src/services/blast_service.py:108-110 | entries with equal identity keep their insertion order |
| BlastService.FilterSpecies | src/services/blast_service.py:112-122 | the name loop keeps what the specification function keeps |
| BlastService.KeptSpeciesMeaning | src/services/blast_service.py:112-122 | a name is kept exactly when it is not `Uncultured`, not `sp.` and not ` sp.` |
| BlastService.KeptSpeciesOrder | src/services/blast_service.py:112-122 | the kept names are the passing names in input order: the k-th kept name sits at the k-th passing index, and the indices ascend |
| BlastService.KeptSpeciesOfNamed | src/services/blast_service.py:112-122 | names that pass the filter are all kept, in order |
| BlastService.TopTen | src/services/blast_service.py:161 | the first ten names, or all of them when there are fewer |
| BlastService.GetTop10RelatedOrganisms | src/services/blast_service.py:124-170 | a cached entry is returned split and trimmed with the table unchanged; on a miss the ranked species are returned and cached, only when there are any |
| BlastService.RankedFromHits | src/services/blast_service.py:108-122 | every ranked species comes from a BLAST hit |
| BlastService.FindHitDistinct | src/services/blast_service.py:97-105 | with one entry per species, looking a species up returns the entry that carries it |
| BlastService.RankedIndices | src/services/blast_service.py:108-161 | the i-th ranked species is the species of the sorted entry at the i-th index the name filter keeps, and those indices ascend |
| BlastService.RankedByIdentity | src/services/blast_service.py:108-161 | with one entry per species, as the filter guarantees, the returned species have entries and their identities do not increase down the list |
| BlastService.RelatedStripped | src/services/blast_service.py:124-170 | every returned species is non-empty and trimmed |
| BlastService.CachedListRoundTrip | src/services/blast_service.py:138-167 | a non-empty list of trimmed names without commas, written to the cache, reads back as the same list |
| BlastService.MissThenHit | src/services/blast_service.py:124-170 | after a miss whose names have no commas, any casing or spacing of the name finds the stored list, which reads back as the list returned |
| BlastService.CommaTitle | src/services/blast_service.py:90-92 | a title whose second word ends in a comma names the species with that comma kept |
| BlastService.CommaNamed | src/services/blast_service.py:112-122 | a trailing comma never makes a name fail the three name tests |
| BlastService.CommaListSplits | src/services/blast_service.py:141-143 | a stored list whose first name ends in a comma reads back with an extra, empty piece after that name |
| BlastService.CommaInSpecies | src/services/blast_service.py:90-166 | for any two-word species that passes the name tests, the same words with a comma after the second come from a title, pass the tests, and do not survive the cache round trip |
| Caches.NormalKeyIdempotent | src/repositories/related_organisms_repository.py:13-22 | normalising a key twice is normalising once |
| Caches.NormalKeyVariants | src/repositories/related_organisms_repository.py:13-22 | names differing only in letter case and surrounding spaces share one key |
| Caches.LookupAfterStore | src/repositories/related_organisms_repository.py:13-28 | after storing, the same name is found with the stored list; other names are unaffected |
| Caches.RelatedOrganismsStore.constructor | src/models/related_organisms.py:10 | a fresh table is empty |
| Caches.RelatedOrganismsStore.Create | src/repositories/related_organisms_repository.py:19-28 | a new normalised key is added; an existing key is a primary-key error with no change; no existing entry ever changes |
| Caches.LiteratureStore.constructor | src/models/future_house_literature.py:10 | a fresh table is empty |
| Caches.LiteratureStore.Create | src/repositories/future_house_literature_repository.py:19-28 | a new key is added as given; an existing key is a primary-key error with no change; no existing entry ever changes |
| ResearchAgents.OrganismsKeyMeaning | src/Agents/basic_research_agent.py:105 | the key joins the targets, as given, in ascending order |
| ResearchAgents.OrganismsKeyPermutation | src/Agents/future_house_agent.py:35 | any order of the same targets gives the same key |
| ResearchAgents.OrganismsKeyIdentifies | src/Agents/basic_research_agent.py:105 | for targets without commas, equal keys mean the same targets with the same multiplicities |
| ResearchAgents.OrganismsKeySingle | src/Agents/future_house_agent.py:35 | a single target is its own key, in its own casing |
| ResearchAgents.OrganismsKeyRepeated | src/Agents/future_house_agent.py:35 | a repeated target appears twice in the key |
| ResearchAgents.SharedEntry | src/Agents/basic_research_agent.py:105-115 | an entry written under one order of the targets is found under any other order |
| ResearchAgents.BasicRunTask | src/Agents/basic_research_agent.py:101-158 | no targets is an error; a hit is returned without calling the model; a miss calls the model and caches its reply only when it succeeds |
| ResearchAgents.TaskRequestsMeaning | src/Agents/future_house_agent.py:50-56 | one request per target, in order, each naming the model and querying the template with that target |
| ResearchAgents.FutureHouseResultMeaning | src/Agents/future_house_agent.py:59-69 | only the first response counts: its answer when completed and answered, else its text; no response is an error |
| ResearchAgents.FutureHouseRunTask | src/Agents/future_house_agent.py:29-69 | no targets is an error; a hit is returned without calling the client; a miss submits the tasks and caches only a completed, answered first response |

## Left out

- BlastService.MissThenHit: holds only when no returned name contains a comma. `" ".join(title.split()[:2])` keeps punctuation, and the name tests do not reject a comma, so a title such as `Klebsiella pneumoniae, complete genome` yields the species `Klebsiella pneumoniae,` (CommaInSpecies). Such a list is stored comma-joined, and a later hit reads it back with an extra, empty entry rather than as the list the miss returned. The model keeps the code's behaviour on both paths.
- BlastService.CachedListRoundTrip: stated for comma-free names only, for the reason given on the line above; CommaListSplits shows what happens otherwise.
- Numbers are read by a parameter `parseNum: string -> Option<real>` standing for Python's `float()`. Floating-point rounding, `inf` and `nan` are not modelled.
- The CSV tokenising of `csv.reader` and `csv.DictReader` is not modelled. Files arrive as rows of cells, and a missing `DictReader` field is `None`.
- Database sessions, commits, rollbacks and storage failures are not modelled, and neither is the `created_at` clock. The insert time is a parameter.
- Storage.Database.BulkCreatePlates: the stored reading is the ETL record. The ORM class in src/models/plate.py:15-19 has only `id`, `plate_id`, `well_id`, `value` and `created_at`, so the repository's `Plate(row_id=..., column_id=..., seconds_time_sample=...)` raises. As written, every non-empty `ingest_file` fails and `ingest_directory` returns 0. The model stores the record the ETL hands over, as the repository intends.
- FeatureExtractor.GetFeaturesDataframe: the feature table reads `row_id`, `column_id` and `seconds_time_sample` from each stored reading (src/services/feature_extractor.py:69-72). The ORM class in src/models/plate.py:15-19 has none of these attributes, so as written any plate with stored readings raises AttributeError there. `FeatureTable`, `RowPerReading` and `GetFeaturesDataframe` instead read these fields from the stored ETL record, and `GetFeaturesSummary` inherits this.
- AbsorbanceEtl.IngestDirectory and ExperimentEtl.IngestDirectory take the list of files. The directory glob (`plate_*_abs.csv`, and the case-sensitive `*exp*.csv`), the `is_file` test and the listing order are not modelled.
- Storage.ReadingsOf and Storage.ValuesOf return matching rows in stored order. The queries have no `ORDER BY`, so the database fixes the actual order. The feature table's `row_index`, and so `feature_16`, depends on that order.
- Logging and the per-file log and summary messages are not modelled.
- Character classes are ASCII: `str.strip`, `str.lower`, `str.split()` and the regex `\d` do not cover Unicode spaces, letters or digits.
- pandas is not modelled. The feature table is a list of rows with a column list, and `describe()` in the feature summary is not modelled.
- FeatureExtractor.Feature16Meaning: a zero dilution gives `None`. pandas would store `inf` or `nan` in its place.
- The NCBI esearch and efetch calls and the BLAST web service are parameters. The GenBank record is a given outcome, and BLAST is a function of the canonical name. The query sequence that is sent is not modelled.
- ResearchAgents.BasicRunTask: the model is a function of the ordered target list. The prompt wording, the system prompt and the `o1` prompt branch are not modelled.
- ResearchAgents.FutureHouseRunTask: the job name is the configured model name. `JobNames.from_string` and the client's polling are not modelled. `hasattr(response, 'answer')` is an optional answer field.
- `research_single_organism` and the other agent entry points outside `run_task` are not modelled.
- ProtocolAgent: after clean-up, `pd.read_csv` becomes rows of name, concentration and unit. Saving the CSV file, the protocol tracker record and the database writes of `generate_protocol` are not modelled.
- The language model calls of the protocol agent are not modelled. The reply text is the input.
