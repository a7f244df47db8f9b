# Oxirane data preparation and MACE dataset pipeline, modelled in Dafny

This project models the data-handling core of a workflow that trains MACE
interatomic potentials on spin-flip excited-state data of oxirane. It has
three parts.

1. **The dataset pipeline.** This is `combine_split_xyz_files` in
   `mace-suite/data/process_pipeline.py`.
   - It reads a directory of extended-XYZ files.
   - It copies each configuration (the copy drops the attached calculator)
     and stores the computed energy and forces in it as `REF_energy` /
     `REF_forces`.
   - It groups configurations by *head key* (the part of the file name after
     the last `_`) and by *sample type* (the part before the first `_`).
   - It shuffles each group and, if asked, duplicates it.
   - It cuts each group at `int(train_ratio * n)` into a training part and a
     validation part. Both parts get the isolated-atom reference set
     `E0s.xyz` appended.
   - It writes `train_<sample>_<stem>.xyz` / `validation_<sample>_<stem>.xyz`,
     where the stem is the head key without its `.xyz`.
     In combined mode it also writes one split per head.
   - It writes a table of sample counts.

   The modules are:
   - `ProcessPipeline`: the operations.
   - `PipelineProperties`: the directory loop against reference definitions
     over the listing.
   - `PipelineOutputs`: which files the writes leave behind.
   - `PipelineTheorems`: end-to-end statements from the listing to the
     output folder.
   - `PipelineCounts`: the count table.
2. **The pretrained-data cleaner.** This is `ptDataCleaner` in
   `mace-suite/data/pretrained_datasets/cleaner.py`.
   - It renames the ` energy` and `:forces` columns of an XYZ text file to
     their `REF_` names.
   - It keeps the molecules whose formula uses only C, O, N and H.
   - It draws a random sample of them.

   The module is `Cleaner`.
3. **The two oxirane data-preparation scripts.** These are
   `oxirane/isolated_system/data_prep.py` and
   `oxirane/molecular_dynamics/data_prep.py`.
   - They sort ORCA result directories into the first and second excited
     state by the integer after the first `_` of the directory name.
   - They write the two state files.
   - They pick an example configuration.
   - For every element in it, they start an isolated-atom single-point ORCA
     run unless its directory already exists.
   - They write the tagged isolated-atom energies as `E0s.xyz`.

   Both scripts are one module, `DataPrep`, with a `Variant` parameter for
   the paths and the folder layout.

Shared pieces are:
- `Strings`: Python's `split`, `in`, `endswith`, `replace` and `int()` on
  strings;
- `Dicts`: insertion-ordered dictionaries as association lists;
- `Seqs`: `dict.fromkeys` de-duplication, subsequences and index
  selection;
- `Records`: an ASE `Atoms` record with its `info`, `arrays` and attached
  calculator results;
- `Wrappers`: `Option` and `Result`.

What the model takes as parameters instead of computing:
- **The directory listing.** It is a sequence of files with their records
  (pipeline), or a tree of `Entry` values (data preparation), in listing
  order.
- **The shuffle.** The caller supplies the shuffled groups. They must be a
  per-group permutation of what the directory loop collected: same keys,
  same order, same multiset per group.
- **`random.sample`.** The caller supplies a list of distinct indices.
- **The iteration order of the species set.** The caller supplies a sequence
  that enumerates the example's symbols without repetition.
- **`orca_load`.** It is a function from a directory path to a record.
- **`os.path.exists`.** It is the set of directories that already exist.
- **`str(molecule.symbols)`.** It is a function from a record to its formula
  text.

Three facts about the code shape what the model promises:
- **The count table.** The loop assigns `samples_dict[sample_type] =
  len(frames)`, so the table holds the size of the *last* file of each
  sample type, not the number of records loaded. This is logged under
  Findings below.
- **Head keys.** A head key is the whole last `_`-segment of the file name,
  `.xyz` included. Files whose last segments differ, such as
  `foo-es1.xyz` and `bar-es1.xyz`, are different heads and are never
  combined. `head[:-4]` removes the `.xyz` when output files are named.
- **The `sf` filter.** With `filter_sf`, which the driver sets, a name
  without `sf` is skipped, so the molecular-dynamics files `oxirane_md-es*.xyz`
  are not processed. Combined files are named
  `train_combined_<stem>.xyz` / `validation_combined_<stem>.xyz`.

## Model

| member | source | states |
|---|---|---|
| ProcessPipeline.ClassifySpec | mace-suite/data/process_pipeline.py:18-20 | a file is grouped exactly when it ends in `.xyz` and, when filtering, contains `sf`; its head key is the `_`-free suffix after the last `_` and its sample type the `_`-free prefix before the first `_` |
| PipelineProperties.ClassifyTwoParts | mace-suite/data/process_pipeline.py:18-20 | a name `a_b.xyz` is grouped under head `b.xyz` and sample `a`, unless filtering drops it for lacking `sf` |
| PipelineProperties.E0sFileGrouping | mace-suite/data/process_pipeline.py:13-18 | `E0s.xyz` is never grouped while filtering, but without the filter it also becomes its own group with head and sample `E0s.xyz` |
| PipelineProperties.IsolatedOxiraneKey | mace-suite/data/process_pipeline.py:18-20 | the isolated-system file `oxirane_sf-es1.xyz` lands under head `sf-es1.xyz`, sample `oxirane` |
| PipelineCounts.IsolatedOxiraneEs2Key | mace-suite/data/process_pipeline.py:18-20 | `oxirane_sf-es2.xyz` lands under head `sf-es2.xyz`, sample `oxirane`, the same sample type as the es1 file |
| PipelineProperties.IsolatedOxiraneOutputs | mace-suite/data/process_pipeline.py:63-64 | that group is written as `train_oxirane_sf-es1.xyz` and `validation_oxirane_sf-es1.xyz` |
| PipelineProperties.MolecularDynamicsEs1Filtered | mace-suite/data/process_pipeline.py:18 | the molecular-dynamics file `oxirane_md-es1.xyz` is skipped under the `filter_sf=True` the driver passes |
| PipelineProperties.MolecularDynamicsEs2Filtered | mace-suite/data/process_pipeline.py:18 | `oxirane_md-es2.xyz` is skipped under the filter too |
| PipelineProperties.MolecularDynamicsUnfiltered | mace-suite/data/process_pipeline.py:18-20 | without the filter `oxirane_md-es1.xyz` is grouped under head `md-es1.xyz`, sample `oxirane` |
| PipelineProperties.HeadEndsInXyz | mace-suite/data/process_pipeline.py:18-19 | every head key ends in `.xyz`, so `head[:-4]` plus `.xyz` gives the head back |
| PipelineProperties.NameParts | mace-suite/data/process_pipeline.py:63-64 | an output name built from `_`-free parts splits on `_` into exactly its kind, sample type and head key |
| PipelineProperties.OutputNameInjective | mace-suite/data/process_pipeline.py:63-64 | distinct (kind, sample, head) triples never write to the same output file |
| ProcessPipeline.AddFile | mace-suite/data/process_pipeline.py:22-37 | adding a file appends its records to its own (head, sample) group, creating the keys if needed; every other group is unchanged, and a new head key goes last |
| Records.Label | mace-suite/data/process_pipeline.py:31-35 | the copy keeps the symbols, carries no calculator results (`Atoms.copy` leaves the calculator behind), adds `REF_energy` from the original's energy and `REF_forces` from its forces, and keeps every other info and array entry |
| Records.LabelAll | mace-suite/data/process_pipeline.py:30-35 | labelling a file succeeds exactly when every frame has a result, and then yields one labelled copy per frame, in order |
| Records.PotentialEnergyLabel | mace-suite/data/process_pipeline.py:32-33 | the `REF_energy` stamped on a labelled copy is the energy `get_potential_energy()` reports for the original, while the copy itself, having no calculator, reports none |
| ProcessPipeline.Collect | mace-suite/data/process_pipeline.py:12-38 | the directory loop gets through exactly when every grouped file has results on all its frames; otherwise its error names the first grouped file, in listing order, holding a frame without results |
| PipelineProperties.CollectFailsIff | mace-suite/data/process_pipeline.py:31-35 | the directory loop fails exactly when some grouped file holds a frame without attached results |
| PipelineProperties.CollectGroups | mace-suite/data/process_pipeline.py:12-37 | after the loop, group (h, s) exists exactly when some file has that key, and holds the labelled records of all such files in listing order |
| PipelineProperties.CollectHeadOrder | mace-suite/data/process_pipeline.py:22-23 | head keys appear in the order of their first grouped file, each once |
| PipelineTheorems.GroupedHeadCollected | mace-suite/data/process_pipeline.py:22-23 | a head key is present after the loop exactly when some grouped file carries it |
| PipelineTheorems.CollectHeadRecords | mace-suite/data/process_pipeline.py:19-37 | all sample groups of one head together hold exactly the records of the grouped files with that head |
| PipelineProperties.CollectE0s | mace-suite/data/process_pipeline.py:13-16 | the reference set is the records of the `E0s.xyz` entries, in listing order |
| PipelineProperties.CollectCounts | mace-suite/data/process_pipeline.py:15-38 | each count-table entry is the frame count of the last file assigning it |
| PipelineProperties.CollectValid | mace-suite/data/process_pipeline.py:18-25 | every collected head ends in `.xyz`, no key holds `_`, and no key repeats |
| PipelineProperties.ShuffleLookup | mace-suite/data/process_pipeline.py:40-42 | a shuffle keeps every group present and keeps its multiset of records |
| PipelineTheorems.ShuffleHead | mace-suite/data/process_pipeline.py:40-42 | a shuffle keeps every head and the multiset of all its records |
| ProcessPipeline.Duplicate | mace-suite/data/process_pipeline.py:44-47 | duplication keeps the keys and replaces every group by itself twice |
| PipelineProperties.DuplicateDoubles | mace-suite/data/process_pipeline.py:44-47 | a duplicated group has twice the length and twice the multiset of the original |
| PipelineTheorems.DuplicateHead | mace-suite/data/process_pipeline.py:44-47 | duplication doubles the multiset of every head's records |
| ProcessPipeline.DoubleCounts | mace-suite/data/process_pipeline.py:48-50 | every count except `E0s` doubles; the keys and the `E0s` count are unchanged |
| ProcessPipeline.Truncate | mace-suite/data/process_pipeline.py:60 | `int()` of the quotient is the whole number of times the denominator fits into the numerator's magnitude, with the numerator's sign: it truncates toward zero, negative values included |
| ProcessPipeline.SliceIndex | mace-suite/data/process_pipeline.py:61-62 | a slice bound in range cuts there; a negative one leaves exactly `-k` elements after the cut; one beyond either end stops at that end |
| ProcessPipeline.SliceIndexFromEnd | mace-suite/data/process_pipeline.py:61-62 | a negative bound `k` cuts where `n + k` does |
| ProcessPipeline.Cut | mace-suite/data/process_pipeline.py:59-62 | the cut point never exceeds the group size |
| PipelineProperties.CutIsFloor | mace-suite/data/process_pipeline.py:60 | for a ratio in `[0, 1]` the cut is `floor(ratio * n)` |
| ProcessPipeline.SplitGroup | mace-suite/data/process_pipeline.py:58-62 | the train part has `cut + |e0s|` records and the validation part `n - cut + |e0s|`; both end with the reference set; their group parts concatenate back to the group |
| PipelineOutputs.GroupFiles | mace-suite/data/process_pipeline.py:63-64 | one group's writes create exactly its train and validation files, holding its split |
| PipelineOutputs.SampleFiles | mace-suite/data/process_pipeline.py:55-64 | after a head's per-sample writes, every sample group's two files hold its split; a later write never overwrites them |
| PipelineOutputs.HeadCombinedFiles | mace-suite/data/process_pipeline.py:66-75 | in combined mode a head's combined files hold the split of all its groups concatenated in sample order |
| PipelineOutputs.AllFiles | mace-suite/data/process_pipeline.py:53-64 | after all writes, every group's files hold its split, unless combined mode reuses the name for a sample literally called `combined` |
| PipelineOutputs.AllCombinedFiles | mace-suite/data/process_pipeline.py:53-75 | after all writes in combined mode, every head's combined files hold its combined split |
| PipelineOutputs.AllFilesDomain | mace-suite/data/process_pipeline.py:63-75 | every written file is the train or validation file of a collected group, or a combined file |
| ProcessPipeline.CombineSplit | mace-suite/data/process_pipeline.py:8-78 | the whole run fails exactly when some grouped file lacks results on a frame, and then reports the first such file; the lemmas below say what a successful run writes |
| PipelineTheorems.WrittenSplit | mace-suite/data/process_pipeline.py:12-64 | from the listing: each (head, sample) group's two files together hold its loaded records (doubled when duplicating) with the first `cut` in train, and both end with the `E0s.xyz` records |
| PipelineTheorems.WrittenCombined | mace-suite/data/process_pipeline.py:53-75 | from the listing, in combined mode: each head's combined files hold all records of that head's grouped files, split the same way |
| PipelineTheorems.WrittenNames | mace-suite/data/process_pipeline.py:63-75 | every output file name is `<kind>_<sample>_<stem>.xyz` for a head and sample that occur in the listing, or a combined file |
| PipelineTheorems.WrittenCounts | mace-suite/data/process_pipeline.py:38-50 | the count table holds, per label, the frame count of the last file of that label, doubled when duplicating (except `E0s`) |
| PipelineTheorems.DriverSplit | mace-suite/data/process_pipeline.py:104 | with the driver's settings (ratio 0.8, duplication, `sf` filter, no combined files) each group's files hold every loaded record twice, `floor(8n/5)` of the `2n` in the train file |
| PipelineTheorems.DriverCounts | mace-suite/data/process_pipeline.py:104 | with the driver's settings each sample row is twice the last file's size and the `E0s` row is the size of `E0s.xyz` |
| PipelineCounts.CountOverwritten | mace-suite/data/process_pipeline.py:38 | two files of one sample type leave the second file's size in the table, although they hold the sum of both sizes |
| PipelineCounts.OxiraneCountOverwritten | mace-suite/data/process_pipeline.py:38 | with 3 es1 and 2 es2 oxirane frames the table says 2 while 5 records were loaded |
| PipelineCounts.TallyTotal | mace-suite/data/process_pipeline.py:38 | the corrected count (`+=`) for a sample type is the total number of records in its grouped files |
| PipelineCounts.TallyMatchesWhenUnique | mace-suite/data/process_pipeline.py:38 | when at most one grouped file, anywhere in the listing, carries a sample type, the corrected and the as-written counts agree |
| PipelineCounts.CorrectedTableTotal | mace-suite/data/process_pipeline.py:38-50 | the corrected table holds each sample type's total loaded count, doubled when duplicating |
| Cleaner.ParseRef | mace-suite/data/pretrained_datasets/cleaner.py:15-25 | one output line per input line, each with ` energy` and `:forces` renamed when the line mentions them |
| Cleaner.EnergyWithoutColumn | mace-suite/data/pretrained_datasets/cleaner.py:21-22 | a line containing `energy` but no ` energy` column passes unchanged |
| Cleaner.RewriteUntouched | mace-suite/data/pretrained_datasets/cleaner.py:20-25 | lines without `energy` or `:forces` are copied verbatim |
| Cleaner.RewriteLine | mace-suite/data/pretrained_datasets/cleaner.py:20-24 | no rewritten line still contains ` energy` or `:forces` |
| Cleaner.EnergyRenamed | mace-suite/data/pretrained_datasets/cleaner.py:21-22 | in a line `a + " energy" + b` whose first ` energy` is the one shown, that column becomes ` REF_energy`, `a` is kept, and the rest `b` is treated the same way |
| Cleaner.ForcesRenamed | mace-suite/data/pretrained_datasets/cleaner.py:23-24 | likewise the first `:forces` becomes `:REF_forces`, the text before it is kept, and the rest is treated the same way |
| Cleaner.RewriteIdempotent | mace-suite/data/pretrained_datasets/cleaner.py:21-24 | rewriting a rewritten line changes nothing |
| Cleaner.ParseRefIdempotent | mace-suite/data/pretrained_datasets/cleaner.py:10-25 | running the rewrite over its own output, which the constructor writes back over its input file, gives the same lines |
| Cleaner.ElementTokens | mace-suite/data/pretrained_datasets/cleaner.py:35 | every token the `[A-Z][a-z]?` scan finds is one upper-case letter, optionally followed by one lower-case letter, and there are no more tokens than characters |
| Cleaner.FormulaTokens | mace-suite/data/pretrained_datasets/cleaner.py:35 | on a formula written as element symbols with digit counts, the scan yields exactly the symbols, in order |
| Cleaner.AllowedTokens | mace-suite/data/pretrained_datasets/cleaner.py:35-36 | de-duplicating before the whitelist test changes nothing: a formula passes exactly when every scanned token is allowed |
| Cleaner.AllowedFormula | mace-suite/data/pretrained_datasets/cleaner.py:35-36 | a formula passes exactly when each of its element symbols is in the whitelist |
| Cleaner.ScriptWhitelist | mace-suite/data/pretrained_datasets/cleaner.py:47-49 | with the whitelist C, O, N, H, `C2H4O` is kept and `CH3Cl` is dropped, because `Cl` is one symbol |
| Cleaner.ScriptSample | mace-suite/data/pretrained_datasets/cleaner.py:45-50 | the script's draw of 500 succeeds exactly when at least 500 molecules passed, and then writes exactly 500 to the cleaned output file |
| Seqs.DedupSpec | mace-suite/data/pretrained_datasets/cleaner.py:35 | `dict.fromkeys` keeps each element once, in order of first occurrence, and loses none |
| Cleaner.FilterAtoms | mace-suite/data/pretrained_datasets/cleaner.py:32-38 | every kept molecule passes the whitelist, and no more molecules come out than went in |
| Cleaner.FilterAtomsSpec | mace-suite/data/pretrained_datasets/cleaner.py:32-38 | the kept molecules are a subsequence of the input, a molecule is kept exactly when its formula passes the whitelist, and an allowed molecule is kept as many times as it occurs |
| Cleaner.RandomSample | mace-suite/data/pretrained_datasets/cleaner.py:40-41 | sampling fails exactly when `n` is negative or exceeds the population; otherwise it returns `n` records, the picked ones in pick order |
| Cleaner.RandomSampleSubset | mace-suite/data/pretrained_datasets/cleaner.py:40-41 | a sample never repeats a record more often than the population holds it |
| Cleaner.SampleExists | mace-suite/data/pretrained_datasets/cleaner.py:40-41 | whenever `n` fits the population, a valid choice of picks exists |
| Cleaner.SampleWrite | mace-suite/data/pretrained_datasets/cleaner.py:40-42 | the output file is written with exactly `n` records when `n` fits, and nothing is written otherwise |
| Strings.Split | mace-suite/data/process_pipeline.py:19-20 | `split('_')` gives at least one part, no part contains `_`, and joining the parts with `_` restores the string |
| Strings.FirstSegmentSplit | mace-suite/data/process_pipeline.py:20 | the sample type is `split('_')[0]` |
| Strings.LastSegmentSplit | mace-suite/data/process_pipeline.py:19 | the head key is `split('_')[-1]` |
| Strings.ReplaceRemoves | mace-suite/data/pretrained_datasets/cleaner.py:22 | replacing a pattern by one at least as long that starts with the same character but does not start with the pattern leaves no occurrence of it, provided that first character occurs nowhere else in the pattern or in the replacement (true of ` energy`/` REF_energy` and `:forces`/`:REF_forces`) |
| Strings.Replace | mace-suite/data/pretrained_datasets/cleaner.py:22-24 | replacing an absent pattern changes nothing; a replacement at least as long as the pattern never shortens the text, and one of equal length keeps its length |
| Strings.ReplaceAt | mace-suite/data/pretrained_datasets/cleaner.py:22 | the first occurrence of the pattern becomes the replacement, the text before it is kept, and replacing goes on after it |
| Strings.FirstOccurrence | mace-suite/data/pretrained_datasets/cleaner.py:21-24 | every text containing the pattern splits as `a + pattern + b` with no earlier occurrence, the shape `ReplaceAt` takes apart |
| Strings.ParseInt | oxirane/isolated_system/data_prep.py:22-25 | `int()` only succeeds on text holding a digit, and only gives a negative number for text holding a `-` |
| Strings.SecondPartIff | oxirane/isolated_system/data_prep.py:23 | `split('_')[1]` exists exactly when the name holds a `_`, and is then the text after the first `_` up to the next one |
| Strings.ParseIntToString | oxirane/isolated_system/data_prep.py:23 | `int()` reads back every integer's decimal text |
| Dicts.GetPut | mace-suite/data/process_pipeline.py:22-25 | a dictionary store changes the value at its key and nothing else |
| Dicts.KeysPut | mace-suite/data/process_pipeline.py:22-25 | a store keeps the key order and appends a new key at the end |
| DataPrep.StateIndex | oxirane/isolated_system/data_prep.py:22-25 | the state index is `None` (the loop skips the directory) when the name has no `_`, and otherwise the `int()` of the text between the first `_` and the next one |
| DataPrep.StateIndexNoSeparator | oxirane/isolated_system/data_prep.py:22-25 | a directory name without `_` has no state index and is skipped |
| DataPrep.StateIndexOf | oxirane/isolated_system/data_prep.py:22-25 | a name `<prefix>_<n>` or `<prefix>_<n>_<rest>` has state index `n` |
| DataPrep.BucketRuns | oxirane/isolated_system/data_prep.py:19-29 | the es1 and es2 buckets are the loaded run directories of state 1 and 2, in listing order |
| DataPrep.RunRecordsSpec | oxirane/isolated_system/data_prep.py:19-29 | a record is in a bucket exactly when it is the load of a directory of that state, and the bucket is no longer than the listing |
| DataPrep.LoadSubdirs | oxirane/molecular_dynamics/data_prep.py:31-33 | the bucket grows by the loads of the state folder's sub-directories, in order |
| DataPrep.BucketSnapshots | oxirane/molecular_dynamics/data_prep.py:19-33 | the es1 and es2 buckets are the loaded run folders of the state-1 and state-2 folders |
| DataPrep.SubdirRecordsSpec | oxirane/molecular_dynamics/data_prep.py:31-33 | a loaded record comes exactly from a sub-directory entry, and plain files contribute nothing |
| DataPrep.SnapshotRecordsSpec | oxirane/molecular_dynamics/data_prep.py:19-33 | a record is in a bucket exactly when it is the load of a run folder inside a state folder of that state |
| DataPrep.SkippedFolder | oxirane/molecular_dynamics/data_prep.py:27-29 | a folder of another state, or of no state, adds nothing to the bucket |
| DataPrep.PickExample | oxirane/isolated_system/data_prep.py:36-41 | the example is the first es1 record, else the first es2 record; with both empty the script stops with the no-data message |
| DataPrep.EnumerationSize | oxirane/isolated_system/data_prep.py:43 | the species loop runs once per distinct chemical symbol of the example |
| DataPrep.MultiplicityParity | oxirane/isolated_system/data_prep.py:58-61 | the doublet is chosen exactly for the odd-electron atoms among H, C, N and O |
| DataPrep.AtomRunInput | wrappers/orca_wrappers.py:49 | with the arguments passed in swapped positions, ORCA's input line still reads `SP wB97M-D3BJ def2-TZVPPD` |
| DataPrep.E0Runs | oxirane/isolated_system/data_prep.py:52-62 | at most one run is started per species |
| DataPrep.E0RunsCaching | oxirane/isolated_system/data_prep.py:54-61 | when no species directory exists every species gets a run, and when all exist none does, so re-running the script after a complete run starts no calculation |
| DataPrep.E0RunsSpec | oxirane/isolated_system/data_prep.py:52-62 | a single-point run is started for an atom exactly when it is a species and its directory does not exist yet |
| DataPrep.Tag | oxirane/isolated_system/data_prep.py:64-66 | a tagged record gains `config_type = IsolatedAtom` and `REF_energy = its energy`, and keeps everything else |
| DataPrep.IsolatedAtoms | oxirane/isolated_system/data_prep.py:52-67 | success exactly when every species' load has an energy, then one tagged E0 per species in loop order; otherwise the error names the first species without an energy, and the runs up to and including it were started |
| DataPrep.Prepare | oxirane/isolated_system/data_prep.py:19-69 | either script (the molecular-dynamics one, `oxirane/molecular_dynamics/data_prep.py`, has the same shape over state folders of run folders): both state files are always written first; with no data it stops there with no runs; on a missing energy it stops before `E0s.xyz`, naming the first such species, with the runs up to it started; otherwise `E0s.xyz` holds, per species in loop order, the loaded record tagged `IsolatedAtom` with its energy as `REF_energy`, one per distinct element of the example, and the runs started are exactly those of the missing species directories |

## Left out

- File I/O is not modelled. That covers `ase.io.read`/`write` formats, `pandas`' CSV formatting, `os.makedirs` and the progress prints. Reads become parameters, and writes are `Write(name, records)` values in order. The count table is the ordered dictionary behind the CSV.
- ORCA is not executed. `orca_run` is modelled by the run it would start (directory, symbols, input line, multiplicity). `orca_load` is a parameter and assumed not to raise. `orca_run` can raise too, at `model.get_potential_energy()` in `wrappers/orca_wrappers.py:51`, which would stop the script before that species is loaded; the model always treats the run as issued, and the files written in that case are the same as on a missing energy (both state files, no `E0s.xyz`). The scratch-directory and symlink handling in `wrappers/orca_wrappers.py` is outside the model.
- The randomness of `random.shuffle` and `random.sample` is not modelled. The caller supplies the permutation or the picks, and nothing is claimed about their distribution.
- `train_ratio` is a Python float. It is modelled as an exact fraction, so floating-point rounding of `train_ratio * n` is not modelled.
- `int()` on directory names is modelled for ASCII digits with an optional sign and surrounding spaces. Unicode digits and other Unicode whitespace are not modelled.
- `str(molecule.symbols)`, ASE's formula text, is a parameter. `Cleaner.FormulaTokens` states what the scan yields on formulas of the usual shape.
- `os.path.exists` is read once per species against a fixed set of directories. A run started earlier in the same loop is not seen as existing.
- The module-level driver loops are not modelled. These are the iteration over systems and data types in `mace-suite/data/process_pipeline.py` and the cleaner's file handling. The settings they pass appear as constants: `PipelineTheorems.DRIVER_OPTIONS` (ratio 0.8, `duplicate_data=True`, `filter_sf=True`, `return_combined=False`), used by `DriverSplit` and `DriverCounts`, and `Cleaner.ELEMENTS`, `N_SAMPLES` and `OUTPUT_FILE`, used by `ScriptWhitelist` and `ScriptSample`.
- The thymine scripts, the geometry optimisers and `sf_orca_run` are not part of this model.
- A Python exception is modelled as a `Failure` result and nothing is written afterwards. This covers a frame without results in the pipeline, `random.sample` out of range, a missing energy, and the no-data `RuntimeError`. Only the files written before the exception are modelled.
- PipelineCounts.Tally: it is the corrected count for grouped files only. Its `E0s` row is left as the code computes it (`PipelineTheorems.WrittenCounts`), because the reference set is assigned once and never accumulates.

## Findings

| source | as written | input that shows it | evidently intended | confidence | as-written member | corrected member |
|---|---|---|---|---|---|---|
| mace-suite/data/process_pipeline.py:38 | the count of a sample type is assigned the frame count of the current file, so each file of that type overwrites the previous count | `oxirane_sf-es1.xyz` with 3 frames and `oxirane_sf-es2.xyz` with 2 frames: the table reports 2 for `oxirane` while 5 records are split | accumulate (`+=`) so the table reports the number of records loaded per sample type | medium; not executed | PipelineCounts.OxiraneCountOverwritten | PipelineCounts.CorrectedTableTotal |
