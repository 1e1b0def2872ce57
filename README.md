# Microarray and sample-file preparation scripts, modelled in Dafny

Three Python scripts prepare inputs for a gene-expression predictor. This
project models their logic and proves what they promise.

- `transform_microarray.py` combines intensities measured on two Affymetrix
  platforms, a gene array ("HuGe") and an exon array ("HuEx"). It reads:
  - a comparison map from gene metaprobesets to exon metaprobesets;
  - one metaprobeset-to-probeset membership map per platform;
  - one probe intensity file and one probe set detail file per platform.

  It resolves each gene probe set to a list of exon probe sets, with a random
  tie-break when a gene metaprobeset has several exon candidates. It then
  pairs the probes of equal sequence and writes three streams: the gene
  intensity rows, the exon intensity rows renamed into the gene probe's
  identifiers, and a manifest of exon probe ids.
- `prepare_gtex_sample_names.py` draws a random training set and test set
  of RNA-Seq sample names. It checks that the two sets do not overlap, then
  writes a `samples.txt` of `hts\tma` rows, each an RNA-Seq name and its
  microarray sample name.
- `create_samples_template.py` draws training lines (and optionally test
  lines) with replacement and writes them under the `hts\tma` header.

Modules:

- `Wrappers`: `Option`, `Result` and `Max0` (`max(n, 0)`).
- `Text`: Python's `str.split` on one character and `str.join`, with their
  round trips.
- `RecordIndex`: the two ways the scripts index rows.
  - `IndexRows`: the last row with a key wins.
  - `GroupAll`: rows accumulate per key in file order.

  Each is a fold over the rows. Keys, last-write-wins and accumulation
  lemmas are proved about it.
- `ProbeFiles`: `ProbeIntensity`, `Probe`, and the classes `Probeset`,
  `ProbeIntensityFile` and `ProbesetDetailFile`. The classes have the
  source's fields except `name`, the file path that only `parse` uses to
  open the file. Their parse methods are proved against the folds of
  `RecordIndex`.
- `ProbesetMapping`: the comparison map, the membership maps and the
  resolver that builds the probe set map.
- `ProbeMatching`: probe matching and the emitting loops, proved against the
  specification functions `AllPairs` (every matched pair of the run, in
  order) and `Emit` (what the streams hold after those pairs).
- `Transform`: the main block of the microarray script.
- `GtexSampleNames`: `pick_samples` over an in-place `NameList` class,
  `make_row`, `check_for_duplicates` and the main block.
- `SamplesTemplate`: `pick_random_samples` and the main block of the
  template script.

How the model represents the source:

- Input rows are field lists: a line stripped and split on tabs.
- Output streams are sequences of lines.
- Randomness is passed in as functions:
  - `pick(g)` is the index that `random.choice` draws for gene
    metaprobeset `g`.
  - `choice(i)` is the index drawn on the `i`-th call. It is taken modulo
    the list's length, so it always picks a member of the list.
  - `coin(k)` is `random.random() < 0.5` on iteration `k`.
- A loop over a dictionary visits its keys in an unspecified order. The
  model picks each key with `:|` from the keys not yet visited. It returns
  the visiting order as a ghost `order` and proves that `order` lists every
  key exactly once (`Enumerates`).

The code differs from a natural reading of the scripts' purpose in four
places, and the model follows the code:
- An exon probe with no intensity record is not skipped: `None.print_as`
  raises. The run then ends as `Crashed`, with the gene line of that pair
  already written.
- A gene probe with no intensity record prints the literal line `None`.
- The docstring of `pick_samples` says a random number below 0.5 sends the
  first pick to the training set. The code does the opposite: below 0.5 it
  sets `train_first = False`, so the first pick goes to the test set. The
  model passes `!coin(k)` as `trainFirst`.
- The work cap `if c > 10: break` never fires, because `c` only ever gets
  `c += 0`. `EmitIntensities` keeps the invariant `c == 0`, so every probe
  set is processed.

## Model

| member | source | states |
|---|---|---|
| Text.Split | transform_microarray.py:100 | `str.split` on one character yields at least one part, and no part contains the separator |
| Text.Join | transform_microarray.py:47 | `d.join(parts)`: the parts with one separator between neighbours (`JoinSplit`, `SplitJoin`) |
| Text.JoinSplit | transform_microarray.py:47 | joining the parts of a split with the same separator gives back the string |
| Text.SplitJoin | transform_microarray.py:100 | splitting a join of separator-free parts gives back the parts, so a written row reads back field by field |
| Text.SplitAfterFreePrefix | transform_microarray.py:100 | a separator-free prefix extends the first part of the split and leaves the other parts unchanged |
| RecordIndex.IsComment | transform_microarray.py:29 | a comment row: its line starts with `#` |
| RecordIndex.IsHeader | transform_microarray.py:30 | a header row: its line starts with `p` or `A` |
| RecordIndex.IndexRows | transform_microarray.py:97-101 | the dictionary a parse loop builds by assigning each kept row's value under its first field, first row first (`IndexRowsKeys`, `IndexRowsLastWins`, `IndexRowsUntouched`) |
| RecordIndex.IndexRowsKeys | transform_microarray.py:97-101 | a key is in the index iff it was in the initial map or some kept row carries it |
| RecordIndex.IndexRowsLastWins | transform_microarray.py:101 | a key maps to the value of the last kept row that carries it |
| RecordIndex.IndexRowsUntouched | transform_microarray.py:97-101 | a key no kept row carries keeps its initial entry, or stays absent |
| RecordIndex.Group | transform_microarray.py:124-131 | the values of the kept rows with a given key, in row order |
| RecordIndex.GroupAll | transform_microarray.py:121-131 | the dictionary a grouping loop builds: every key of the initial map or of a kept row, mapped to its old list followed by its rows' values (`GroupAppend`, `GroupAllStep`, `GroupNonEmpty`) |
| RecordIndex.GroupAppend | transform_microarray.py:121-131 | the group of a key over two runs of rows is the first run's group followed by the second's, so file order is kept |
| RecordIndex.GroupNonEmpty | transform_microarray.py:127-129 | a key has a non-empty group iff some kept row carries it; a group is created on first sight |
| RecordIndex.GroupKeysAppendOne | transform_microarray.py:127-131 | one more row adds its key to the grouped keys iff it is kept |
| RecordIndex.GroupValueStep | transform_microarray.py:127-131 | one more kept row appends its value to its key's list and leaves every other key's list unchanged |
| RecordIndex.GroupAllStep | transform_microarray.py:124-131 | the grouped map after one more row is the previous map with the row's value appended under its key, or unchanged for a dropped row |
| RecordIndex.GroupAllNoRows | transform_microarray.py:114 | grouping no rows leaves the initial map |
| ProbeFiles.Repr | transform_microarray.py:46-48 | `ProbeIntensity.__repr__`: the seven fixed fields and the intensities joined by tabs (read back by `ReprFields`) |
| ProbeFiles.PrintAs | transform_microarray.py:50-52 | `print_as`: the same line with the given probe id and probe set id in fields 0 and 4 (read back by `PrintAsFields`) |
| ProbeFiles.PrintAsOwnIds | transform_microarray.py:46-52 | `print_as` with the record's own probe id and probe set id equals `__repr__` |
| ProbeFiles.ReprFields | transform_microarray.py:46-48 | the rendering reads back as the seven fixed fields followed by the intensities |
| ProbeFiles.PrintAsFields | transform_microarray.py:50-52 | `print_as` reads back as the record's fields with field 0 replaced by the new probe id, field 4 by the new probe set id, and nothing else changed |
| ProbeFiles.RecordOfRowFields | transform_microarray.py:100-101 | the record built from a row has that row as its fields, so the gene stream copies input rows verbatim |
| ProbeFiles.Probeset.constructor | transform_microarray.py:76-78 | a new probe set has its id and no probes |
| ProbeFiles.Probeset.AddProbe | transform_microarray.py:80-81 | the probe is appended in place |
| ProbeFiles.SameProbe | transform_microarray.py:63-67 | `Probe.__eq__`: two probes are equal iff their sequences are; no other field is compared |
| ProbeFiles.HeaderOf | transform_microarray.py:89-99 | the header the parse loop keeps: the line of the last header row, or the initial value when there is none (`HeaderIsLastHeaderRow`, `HeaderWithoutHeaderRow`) |
| ProbeFiles.HeaderIsLastHeaderRow | transform_microarray.py:99 | the captured header is the last header-marked row, joined back into its line |
| ProbeFiles.HeaderWithoutHeaderRow | transform_microarray.py:89-99 | with no header-marked row the header stays `None` |
| ProbeFiles.HeaderRowIsStored | transform_microarray.py:98-101 | a header-marked row is also stored as a record, because the loop has no `continue` for it |
| ProbeFiles.ProbeIntensityFile.constructor | transform_microarray.py:87-92 | the new file's header and probe index are those its parse builds from an empty index |
| ProbeFiles.ProbeIntensityFile.Parse | transform_microarray.py:94-102 | comment rows are dropped, the header is the last header row, and each other row is stored under its probe id, a later row replacing an earlier one |
| ProbeFiles.ProbeIntensityFile.Get | transform_microarray.py:104-109 | `__getitem__` returns `None` iff the probe id is missing, and otherwise the stored record |
| ProbeFiles.DetailIndexFromEmpty | transform_microarray.py:118-131 | a probe set is in the detail index iff a probe row names it, and its probes are exactly the probes of its rows, in file order, and never empty |
| ProbeFiles.ProbesetDetailFile.constructor | transform_microarray.py:112-116 | the new file's index is the detail index of its rows, and distinct probe set ids own distinct `Probeset` objects |
| ProbeFiles.ProbesetDetailFile.Parse | transform_microarray.py:118-132 | comment and header rows are skipped, and every other row appends its probe to its probe set |
| ProbeFiles.ProbesetDetailFile.AddRow | transform_microarray.py:124-131 | one row adds exactly its probe at the end of its probe set's list, creating the probe set on first sight, and changes no other probe set |
| ProbeFiles.ProbesetDetailFile.Get | transform_microarray.py:134-139 | `__getitem__` returns `None` iff the probe set id is missing, and otherwise its probes |
| ProbesetMapping.CrossMap | transform_microarray.py:168-176 | the comparison map: `GroupAll` of the non-header comparison rows, field 5 to field 2 (`CrossMapEntries`) |
| ProbesetMapping.CrossMapEntries | transform_microarray.py:168-176 | the comparison map has exactly the field-5 ids of non-header rows as keys, each mapped to its rows' field-2 ids in row order with duplicates kept, never empty |
| ProbesetMapping.BuildMetaprobesetMap | transform_microarray.py:168-176 | the loop builds exactly those keys and lists |
| ProbesetMapping.Memberships | transform_microarray.py:181-195 | a membership map: `IndexRows` of the rows that are neither comment nor header, field 0 to field 2 split on spaces (`MembershipOfLastRow`, `MembershipMiss`) |
| ProbesetMapping.BuildMembershipMap | transform_microarray.py:181-195 | the loop builds the membership map: field 0 to field 2 split on spaces, skipping comment and header rows |
| ProbesetMapping.MembershipOfLastRow | transform_microarray.py:184-186 | a metaprobeset maps to the split of field 2 of its last row, and joining that list on spaces gives the field back |
| ProbesetMapping.MembershipMiss | transform_microarray.py:184-186 | a metaprobeset that no row names is absent from the map |
| ProbesetMapping.Chosen | transform_microarray.py:203-206 | the chosen exon metaprobeset is one of the candidates, and the only one when there is a single candidate |
| ProbesetMapping.EveryCandidateCanBeChosen | transform_microarray.py:203-204 | every candidate is the choice of some random draw |
| ProbesetMapping.Resolve | transform_microarray.py:200-225 | the probe set map after visiting the gene metaprobesets in a given order: a resolvable one maps each of its gene probe sets to the exon probe sets of its chosen candidate, replacing earlier entries; an unresolvable one changes nothing (`ResolveKeys`, `ResolveLastWins`, `ResolveStep`) |
| ProbesetMapping.ResolveKeys | transform_microarray.py:200-225 | a gene probe set is in the probe set map iff some visited gene metaprobeset lists it and both of its membership lookups hit |
| ProbesetMapping.ResolveLastWins | transform_microarray.py:224-225 | a gene probe set maps to the full exon membership list of the chosen candidate of the last resolvable metaprobeset that lists it |
| ProbesetMapping.ResolveStep | transform_microarray.py:201-225 | one more metaprobeset leaves the map unchanged when either lookup misses, and otherwise assigns its exon probe sets to each of its gene probe sets |
| ProbesetMapping.ResolveProbesets | transform_microarray.py:200-225 | the loop visits every gene metaprobeset once and builds the probe set map that `Resolve` defines for that order |
| ProbesetMapping.AssignEach | transform_microarray.py:224-225 | every listed gene probe set is mapped to the exon list, and every other entry is kept |
| ProbeMatching.PairsWith | transform_microarray.py:260-262 | the pairs of one gene probe with the exon probes of equal sequence, in exon probe order (`PairsWithExact`) |
| ProbeMatching.SimilarPairs | transform_microarray.py:258-262 | all equal-sequence combinations of two probe lists, gene probes outer and exon probes inner (`SimilarPairsExact`) |
| ProbeMatching.PairsWithExact | transform_microarray.py:260-262 | the pairs of one gene probe are exactly the exon probes with the same sequence |
| ProbeMatching.SimilarPairsExact | transform_microarray.py:258-262 | a pair is matched iff its gene probe and exon probe come from the two lists and have equal sequences; other fields play no part |
| ProbeMatching.PairsWithAppend | transform_microarray.py:260-262 | the exon probes are the inner loop: splitting them splits the pairs in order |
| ProbeMatching.SimilarPairsAppend | transform_microarray.py:259-262 | the gene probes are the outer loop: splitting them splits the pairs in order |
| ProbeMatching.FindSimilarProbes | transform_microarray.py:258-262 | the nested loops produce the id pairs of all equal-sequence combinations, gene-outer then exon-inner |
| ProbeMatching.PairsForExon | transform_microarray.py:250-265 | the matched id pairs of one gene probe set and one exon probe set, none when either detail lookup misses (`PairsForExonExact`) |
| ProbeMatching.PairsForProbeset | transform_microarray.py:248-265 | the matched pairs of one gene probe set with each of its exon probe sets, in list order (`PairsForProbesetMembers`, `PairsForProbesetStep`) |
| ProbeMatching.AllPairs | transform_microarray.py:245-265 | the matched pairs of the gene probe sets of a visiting order, in that order (`AllPairsMembers`, `AllPairsAppend`) |
| ProbeMatching.PairsForExonExact | transform_microarray.py:250-265 | the matched pairs of a probe set pair are exactly the witnessed equal-sequence id pairs, and there are none when either detail lookup misses |
| ProbeMatching.PairsForProbesetMembers | transform_microarray.py:248-265 | the pairs of a gene probe set come exactly from its exon probe sets |
| ProbeMatching.PairsForProbesetStep | transform_microarray.py:248-265 | one more exon probe set appends its pairs after the earlier ones |
| ProbeMatching.AllPairsMembers | transform_microarray.py:245-265 | the pairs of the run come exactly from the visited gene probe sets and their exon probe sets |
| ProbeMatching.AllPairsAppend | transform_microarray.py:245-265 | splitting the visiting order splits the run's pairs in order |
| ProbeMatching.EmitPair | transform_microarray.py:268-275 | one pair: the gene line (or `None`) is written, then either the renamed exon line and the exon probe id, or a crash when the exon intensity is missing |
| ProbeMatching.Emit | transform_microarray.py:268-275 | the streams after a sequence of pairs, in order, from the given start; after a crash nothing more is written (`EmitAppend`, `EmitCompletes`, `EmitCompletedLines`, `EmitCrashedLines`) |
| ProbeMatching.EmitAppend | transform_microarray.py:268-275 | emitting two runs of pairs is emitting the first and then, unless it crashed, the second |
| ProbeMatching.EmitCompletes | transform_microarray.py:268-275 | the run completes iff every matched exon probe id has an intensity record |
| ProbeMatching.EmitCompletedLines | transform_microarray.py:268-275 | a completed run writes one line per pair to each of the three streams after the header lines: the gene row (or `None`), the exon row under the gene probe id and gene probe set id, and the exon probe id |
| ProbeMatching.EmitCrashedLines | transform_microarray.py:270-274 | on a crash the gene stream holds exactly one line more than the exon stream and the manifest |
| ProbeMatching.EmitCrashedPrefix | transform_microarray.py:274 | nothing is written after the crash |
| ProbeMatching.EmitCrashedExtend | transform_microarray.py:245-276 | the gene probe sets not reached after a crash add nothing |
| ProbeMatching.EmitExon | transform_microarray.py:250-275 | the loop for one exon probe set writes what `Emit` defines for that probe set pair's matched pairs |
| ProbeMatching.EmitProbeset | transform_microarray.py:248-276 | the loop for one gene probe set writes what `Emit` defines for its matched pairs |
| ProbeMatching.EmitIntensities | transform_microarray.py:238-276 | after the header lines, the writing loop visits every gene probe set of the map once and writes what `Emit` defines for all matched pairs of the run; the cap never fires |
| Transform.CrossMapCandidates | transform_microarray.py:173-176 | every gene metaprobeset has at least one exon candidate, so `random.choice` is never given an empty list |
| Transform.BuildProbesetMap | transform_microarray.py:166-226 | the four maps built from the files give the probe set map `Resolve` defines |
| Transform.WriteIntensities | transform_microarray.py:228-276 | reading the intensity and detail files and writing the streams gives the run defined by `Emit` and `AllPairs` over the indexes of the file rows |
| Transform.TransformMicroarrays | transform_microarray.py:166-276 | the whole main block, stated in terms of the input rows and the random draws |
| GtexSampleNames.RemoveFirst | prepare_gtex_sample_names.py:65-87 | `list.remove(x)` on a list that holds `x` (`RemoveFirstCounts`, `RemoveFirstIsFirst`) |
| GtexSampleNames.RemoveFirstCounts | prepare_gtex_sample_names.py:65-87 | `list.remove` drops one element, exactly one occurrence of the given name |
| GtexSampleNames.RemoveFirstIsFirst | prepare_gtex_sample_names.py:65 | the occurrence `list.remove` drops is the first one |
| GtexSampleNames.NameList.constructor | prepare_gtex_sample_names.py:146 | the list holds the RNA-Seq names |
| GtexSampleNames.NameList.Remove | prepare_gtex_sample_names.py:65-87 | `remove` updates the list in place |
| GtexSampleNames.NameList.Append | prepare_gtex_sample_names.py:67 | `append` updates the list in place |
| GtexSampleNames.DrawTwo | prepare_gtex_sample_names.py:63-67 | the two picks and the new list are exactly those `Draw` gives for the indexes `i1` and `i2`; both picks are still in the list, which has lost no name |
| GtexSampleNames.Assign | prepare_gtex_sample_names.py:73-87 | the new list and sets are exactly those `AssignTo` gives; the names in the list and the two sets are preserved as a multiset, and each set that grows gets its name appended |
| GtexSampleNames.DrawRound | prepare_gtex_sample_names.py:62-87 | the new list and sets are exactly those `Round` gives for the indexes `i1`, `i2` and the flag `trainFirst`; every name comes from the list, and the multiset balance holds up to the name a single-name draw puts back |
| GtexSampleNames.Draw | prepare_gtex_sample_names.py:63-67 | the draw step: the first pick is the item at index `i1`; the second is the item at index `i2` of the list without it (of the whole list when one name is left); the first pick is then put back at the end (`DrawFacts`) |
| GtexSampleNames.DrawFacts | prepare_gtex_sample_names.py:63-67 | after the draw step both picks are in the list, every name in it was there before, and the list has lost no name; a single remaining name is counted twice |
| GtexSampleNames.AssignTo | prepare_gtex_sample_names.py:73-87 | the assignment step: each set below its target grows by exactly one name, taken out of the list, training set first |
| GtexSampleNames.Round | prepare_gtex_sample_names.py:62-87 | one iteration, the draw step then the assignment step with the first pick going to the training set iff `trainFirst`: each set below its target grows by exactly one name |
| GtexSampleNames.Draws | prepare_gtex_sample_names.py:59-89 | the whole loop from iteration `k` on: iteration `k` draws with `choice(2 * k)` and `choice(2 * k + 1)` and sends the first pick to the training set unless `coin(k)`; it stops when both sets are full and fails on an empty list (`DrawsOutcome`) |
| GtexSampleNames.DrawsOutcome | prepare_gtex_sample_names.py:62-89 | the loop succeeds iff it ends with both sets at their targets; a failure leaves the list empty; the sets only grow, by appending |
| GtexSampleNames.PickRound | prepare_gtex_sample_names.py:62-87 | one iteration leaves the list and sets `Round` gives, keeps the loop invariant, lowers the number of names still needed, and moves `Draws` from iteration `k` to `k + 1` with the same outcome |
| GtexSampleNames.Deficit | prepare_gtex_sample_names.py:62 | how many names the two sets still need; the loop runs iff it is positive |
| GtexSampleNames.Fits | prepare_gtex_sample_names.py:149-152 | the requested sizes, counted as `max(count, 0)`, fit in the pool; for non-negative counts this is the guard `len(names) >= no_train + no_test` |
| GtexSampleNames.PickStep | prepare_gtex_sample_names.py:62-87 | one iteration keeps the loop invariant (multiset balance, provenance, enough names left) and strictly lowers the number of names still needed, so the loop terminates |
| GtexSampleNames.PickSamples | prepare_gtex_sample_names.py:6-89 | on success the sets have exactly their target sizes; when the sizes fit the pool the draw cannot fail, and the list and the two sets together hold the pool as a multiset, except that a last single name stays in the list as well; an empty pool with a positive target fails; every name in the sets and the list comes from the pool; the outcome, the final list and the two sets are exactly what `Draws` gives from the pool with empty sets from iteration 0 |
| GtexSampleNames.DistinctPoolGivesDisjointSets | prepare_gtex_sample_names.py:73-87 | with distinct input names, the training and test sets share no name and neither repeats one |
| GtexSampleNames.CheckForDuplicates | prepare_gtex_sample_names.py:102-111 | the "Good" report is given iff no name is in both sets |
| GtexSampleNames.AffyId | prepare_gtex_sample_names.py:93-97 | the microarray name is found iff both dictionary lookups hit; otherwise the `KeyError` names the missing key |
| GtexSampleNames.Label | prepare_gtex_sample_names.py:91-100 | the first column of a row: the name for a training sample, `*` and the name for a test sample, `*NA` when there are no test rows |
| GtexSampleNames.MakeRow | prepare_gtex_sample_names.py:91-100 | a training row without test rows raises `ValueError`; otherwise the row fails exactly when a lookup fails |
| GtexSampleNames.MakeRowColumns | prepare_gtex_sample_names.py:93-97 | a row splits into the label (`name`, `*name` or `*NA`) and the microarray name |
| GtexSampleNames.RenderRows | prepare_gtex_sample_names.py:159-163 | the rows of a list of samples written after a listing, the first failing row stopping it (`RenderRowsOutcome`, `RenderRowsKeyErrors`) |
| GtexSampleNames.RenderRowsOutcome | prepare_gtex_sample_names.py:159-163 | the rows complete iff every sample's lookups hit, and then write one row per sample, in order, after the lines already there |
| GtexSampleNames.RenderRowsKeyErrors | prepare_gtex_sample_names.py:159-163 | the rows the script writes can only fail with a `KeyError` |
| GtexSampleNames.BuildNameMap | prepare_gtex_sample_names.py:131-143 | the loop maps field 0 to field 1, a later row replacing an earlier one |
| GtexSampleNames.WriteRows | prepare_gtex_sample_names.py:159-163 | the loop writes the rows `RenderRows` defines, stopping at the first failure |
| GtexSampleNames.PrepareSampleNames | prepare_gtex_sample_names.py:113-163 | too few names stop the script with nothing written; counts that fit never fail the draw; the header, then the training rows, then the test rows are written from sets of the target sizes drawn from the RNA-Seq names; with distinct names the report is "Good"; past the size guard, the sets are those `Draws` gives from the RNA-Seq names, and the draw fails iff `Draws` fails |
| SamplesTemplate.Picks | create_samples_template.py:28-33 | exactly `max(count, 0)` items are drawn, each an item of the list |
| SamplesTemplate.PickRandomSamples | create_samples_template.py:28-33 | the loop draws those items and leaves the list unchanged |
| SamplesTemplate.EveryDrawIsReachable | create_samples_template.py:31 | drawing is with replacement: every sequence of list items, repeats included, is what some draws pick |
| SamplesTemplate.ValidCounts | create_samples_template.py:62-67 | the counts are valid iff the training count is at most the number of training lines and, when a test file is given, the test count is at most the number of test lines |
| SamplesTemplate.Template | create_samples_template.py:79-90 | the file is the header, the training lines, then the test lines when a test file is given |
| SamplesTemplate.CreateSamplesTemplate | create_samples_template.py:51-90 | `ValueError` is raised iff a count exceeds its line count (the test count only when a test file is given); otherwise the template of the drawn lines is written |

## Left out

- Command-line parsing (`argparse`, `sys.argv`), opening and closing files (so the `name` field of `ProbeIntensityFile` and `ProbesetDetailFile`, the path `parse` opens, is not modelled), progress and warning messages on stderr, and `sys.exit` are not modelled. Inputs are the rows of each file; outputs are the lines written.
- The `random` module is replaced by the `pick`, `choice` and `coin` functions. The model says nothing about the distribution of the draws.
- The model does not fix an order for reading a dictionary's keys; it proves only that each key is visited exactly once.
- The comment and header tests look at the first character of the first field. The source looks at the first character of the raw line. The two differ only for a line starting with whitespace, which `strip` removes.
- A row with too few fields makes the source raise `IndexError`. The model treats well-formed rows as a precondition (`IntensityRowsWellFormed`, `DetailRowsWellFormed`, `ComparisonRowsWellFormed`, `MembershipRowsWellFormed`, `PairRowsWellFormed`).
- `Probe.__repr__` and `Probeset.__repr__` are only used in debugging output and are not modelled.
- `ProbeFiles.ProbesetDetailFile.Parse`: each row's new `Probeset` object is created even when it is dropped; the model creates it too, but states nothing about dropped objects.
- GtexSampleNames.PickSamples: when one count is negative, the guard `len(names) >= no_train + no_test` can pass while the sizes do not fit the pool. The contract then promises only the target sizes on success and where the names come from, not the multiset balance.
- GtexSampleNames.PrepareSampleNames: the `KeyError` of a missing name is modelled as a failure that stops the listing, where the source raises; lines already printed stay printed.
- GtexSampleNames.MakeRow: the `return` after `raise ValueError` is unreachable and is not modelled.
- SamplesTemplate.PickRandomSamples: a positive count with an empty list is a precondition (`random.choice` would raise). The main block never calls it that way, because the count check comes first.
