# MiXCR `align` action: a Dafny model

This project models the core of MiXCR's `align` command
(`ActionAlign.java`), the step that aligns sequencing reads against a library
of V, D, J and C gene segments. The model covers four parts:

- **Automatic feature correction.** Before any gene is registered, the action
  counts the V genes of the chain-filtered library. It counts those lacking
  the configured V feature, and among those the ones that do have the
  correcting feature. If more than 90% of V genes lack the feature, and more
  than 80% of those have the correcting feature, the V feature to align is
  replaced once and for all. The correcting feature is `VRegionWithP` when
  the current feature has reversed regions, and `VRegion` otherwise.
- **Gene registration.** Every gene that contains its type's feature to
  align is added to the aligner. Excluded genes are counted. Only the first
  excluded gene that is reported gets its own warning, followed by one
  summary warning for the rest. A run with no registered V gene, or with no
  registered J gene, aborts with the source's messages.
- **The result loop.** The aligner's results arrive in read-id order. A
  read that failed to align has one of three fates:
  - it becomes a placeholder alignment with empty hits, when "write all
    results" is on;
  - it goes to the failed-reads sink, when one is configured;
  - it is skipped.
  Every surviving alignment is then tallied by chains and counted as a
  chimera when it is one. When there is a writer, it is decorated with the
  original read descriptions and sequences as the switches ask, and then
  written.
- **The argument helpers.** This part covers the tri-state switches,
  `isInputPaired`, `getOutputName`, `getInputForReport`, argument validation,
  and the reader choice: paired FASTQ, FASTA when the last `.`-separated
  component of the input name is `fasta`, and single FASTQ otherwise.

Modules, one per file:

| module | file | contents |
|---|---|---|
| `Wrappers` | `wrappers.dfy` | `Option`, `Result` |
| `Text` | `text.dfy` | Java's `String.split` on one character, `Join`, and their round trip |
| `Genes` | `genes.dfy` | gene types, gene features, genes, aligner parameters |
| `Warnings` | `warnings.dfy` | the printed warnings, as data |
| `FeatureCorrection` | `correction.dfy` | the correction heuristic |
| `GeneRegistration` | `registration.dfy` | registration, warnings, fatal check |
| `Reads` | `reads.dfy` | reads, alignments, `extractDescriptions`/`extractSequences` |
| `Aggregation` | `aggregation.dfy` | the result loop: spec functions and the `Aggregator` class |
| `AlignArguments` | `arguments.dfy` | the argument helpers |
| `Align` | `align.dfy` | one run of the action |

Loops in the source stay loops in the model. Each one is proved equal to a
specification function over the input prefix. The facts a run promises are
then proved about those functions as lemmas.

Three inputs of a run are parameters, not computed:

- the gene library (already filtered by chains);
- the aligner's results (already in read-id order);
- the target split of a failed read, as `targetsOf`.

Three behaviours of the code are worth stating on their own:

- **Correcting feature.** The correcting feature is `VRegionWithP` when the
  current V feature has reversed regions, and `VRegion` otherwise
  (`ActionAlign.java:106-108`).
- **Decoration.** When the retention switches ask for them, the code
  attaches read descriptions and sequences to every alignment it writes,
  placeholders included (`ActionAlign.java:230-234`).
- **Failed reads.** A read sent to the failed-reads sink is an outcome of its
  own, beside an aligned result, a placeholder and a skipped read
  (`ActionAlign.java:213-222`). Conservation is stated with aligned and placeholder alignments counted
  together as the aggregated ones.

## Model

All source paths are `src/main/java/com/milaboratory/mixcr/cli/ActionAlign.java`.

| member | source | states |
|---|---|---|
| Genes.WithVFeature | src/main/java/com/milaboratory/mixcr/cli/ActionAlign.java:131 | Setting the V feature to align changes only the V entry. Afterwards a V gene contains its required feature exactly when the new feature is available on it, and every other gene type's answer is unchanged. |
| FeatureCorrection.CountsOrdered | src/main/java/com/milaboratory/mixcr/cli/ActionAlign.java:114-124 | The three counters are ordered: genes with the correcting feature ≤ V genes lacking the feature ≤ all V genes. |
| FeatureCorrection.EmptyVNeverCorrects | src/main/java/com/milaboratory/mixcr/cli/ActionAlign.java:114-127 | A library without V genes never triggers the correction, and the parameters are left unchanged. |
| FeatureCorrection.FiringNeedsCorrectableGene | src/main/java/com/milaboratory/mixcr/cli/ActionAlign.java:127 | When the correction fires, at least one V gene lacks the feature and at least one has the correcting feature. |
| FeatureCorrection.CorrectionChangesOnlyV | src/main/java/com/milaboratory/mixcr/cli/ActionAlign.java:106-131 | The correction changes only the V feature to align. The new feature is the correcting feature exactly when the thresholds are met. |
| FeatureCorrection.ThresholdExamples | src/main/java/com/milaboratory/mixcr/cli/ActionAlign.java:127 | 40 V genes, 38 lacking and 32 correctable: fires. 40 and 20: never fires. 40, 38 and 30: does not fire (30 is not above 80% of 38). |
| FeatureCorrection.CorrectingFeature | src/main/java/com/milaboratory/mixcr/cli/ActionAlign.java:106-108 | The correcting feature is `VRegionWithP` or `VRegion`, and it has reversed regions exactly when the current V feature has. |
| FeatureCorrection.ShouldCorrect | src/main/java/com/milaboratory/mixcr/cli/ActionAlign.java:127 | The integer test holds exactly when, as exact rationals, the lacking V genes exceed 0.9 of all V genes and the correctable ones exceed 0.8 of the lacking ones. |
| FeatureCorrection.CountVGenes | src/main/java/com/milaboratory/mixcr/cli/ActionAlign.java:105-124 | The counting loop, including its `continue` for non-V genes, yields the three counts over the whole library, and they are ordered. |
| FeatureCorrection.CorrectFeatureToAlign | src/main/java/com/milaboratory/mixcr/cli/ActionAlign.java:105-132 | The correction fires exactly when more than 90% of V genes lack the feature and more than 80% of those have the correcting feature. Then only the V feature becomes the correcting feature, and one warning names the forced and the current feature with the lacking and total counts behind the printed percentage. Otherwise the parameters are unchanged and nothing is printed. |
| GeneRegistration.FatalCheck | src/main/java/com/milaboratory/mixcr/cli/ActionAlign.java:162-168 | The run goes on exactly when at least one V gene and at least one J gene are registered. It fails with the "No V genes" message exactly when no V gene is registered. It fails with the "No J genes" message exactly when V genes are registered but no J gene is. |
| GeneRegistration.RegisteredExactly | src/main/java/com/milaboratory/mixcr/cli/ActionAlign.java:138-153 | A gene is registered exactly when it is in the library and contains its required feature. |
| GeneRegistration.ExclusionCounts | src/main/java/com/milaboratory/mixcr/cli/ActionAlign.java:136-150 | The reported and the non-functional exclusion counts are each at most the number of excluded genes. Nothing is reported with warnings off. Every exclusion is reported with both warnings and non-functional warnings on. Otherwise reported plus non-functional exclusions make up all exclusions. |
| GeneRegistration.AtMostOneGeneWarning | src/main/java/com/milaboratory/mixcr/cli/ActionAlign.java:140-147 | No per-gene warning is emitted when no exclusion is reported. Otherwise exactly one is emitted. It names the first gene of the library whose exclusion is reported, with its functionality and its type's feature. |
| GeneRegistration.WarningLogShape | src/main/java/com/milaboratory/mixcr/cli/ActionAlign.java:140-157 | The log is the per-gene warning followed by a summary. The summary is present exactly when more than one gene was reported, and it counts the reported genes beyond the first. |
| GeneRegistration.CorrectableGenesRegistered | src/main/java/com/milaboratory/mixcr/cli/ActionAlign.java:121-152 | Under the correcting feature, at least as many V genes are registered as the heuristic counted as correctable. |
| GeneRegistration.CorrectionKeepsVGenes | src/main/java/com/milaboratory/mixcr/cli/ActionAlign.java:127-164 | When the correction fires, the run cannot then abort for lack of V genes. |
| GeneRegistration.RegisterGenes | src/main/java/com/milaboratory/mixcr/cli/ActionAlign.java:136-157 | The registration loop yields the registered genes, both exclusion counters and the warning log that the specification functions define. |
| Reads.ExtractDescriptions | src/main/java/com/milaboratory/mixcr/cli/ActionAlign.java:254-259 | A newly allocated array with one entry per read of the record, holding that read's description. |
| Reads.ExtractSequences | src/main/java/com/milaboratory/mixcr/cli/ActionAlign.java:261-266 | A newly allocated array with one entry per read of the record, holding that read's sequence with quality. |
| Aggregation.DecorateForWriter | src/main/java/com/milaboratory/mixcr/cli/ActionAlign.java:230-234 | Descriptions are attached when either switch is on, and sequences when original reads are saved. Decoration leaves every other part of the alignment unchanged. |
| Aggregation.TallyCounts | src/main/java/com/milaboratory/mixcr/cli/ActionAlign.java:225 | For every chains key, the final chain-usage count is the number of aggregated alignments with those chains. |
| Aggregation.ChimerasBounded | src/main/java/com/milaboratory/mixcr/cli/ActionAlign.java:227-228 | The chimera count never exceeds the number of aggregated alignments. |
| Aggregation.Conservation | src/main/java/com/milaboratory/mixcr/cli/ActionAlign.java:213-237 | Every result is exactly one of: aggregated, sent to the failed-reads sink, or skipped. Everything aggregated is written when there is a writer, and nothing otherwise. |
| Aggregation.WrittenAreAggregated | src/main/java/com/milaboratory/mixcr/cli/ActionAlign.java:230-236 | With a writer, as many alignments are written as are aggregated. The i-th written one is the i-th aggregated one decorated from its own read: that read's descriptions when either switch is on, its sequences when original reads are saved, and nothing changed otherwise. With both switches off the written alignments are the aggregated ones. |
| Aggregation.StatsIndependentOfWriter | src/main/java/com/milaboratory/mixcr/cli/ActionAlign.java:225-237 | Statistics do not depend on the writer or on the decoration switches. |
| Aggregation.WriteAllKeepsEveryRead | src/main/java/com/milaboratory/mixcr/cli/ActionAlign.java:194-217 | With "write all results", no read is lost: result i yields alignment i with the read's id. That alignment is the aligner's when there is one. Otherwise it is the read's placeholder: the read's id, the empty hit map, the read's default targets, no chains, not chimeric and no original-read fields. |
| Aggregation.WithoutWriteAll | src/main/java/com/milaboratory/mixcr/cli/ActionAlign.java:213-222 | Without "write all results", exactly the aligned results are aggregated. The unaligned reads all go to the failed-reads sink when there is one, and all are skipped otherwise. |
| Aggregation.OrderPreserved | src/main/java/com/milaboratory/mixcr/cli/ActionAlign.java:203-237 | Input in increasing read-id order gives aggregated, written and failed-read outputs in strictly increasing id order. |
| Aggregation.Aggregator.constructor | src/main/java/com/milaboratory/mixcr/cli/ActionAlign.java:170-173 | The loop starts with empty outputs and statistics. |
| Aggregation.Aggregator.Process | src/main/java/com/milaboratory/mixcr/cli/ActionAlign.java:211-237 | One result is classified. Each output field changes only as that result's outcome demands, and the class invariant ties the fields to the specification functions of the processed prefix. |
| Aggregation.Aggregator.ProcessAll | src/main/java/com/milaboratory/mixcr/cli/ActionAlign.java:203-238 | The result loop processes every given result in order and keeps the invariant, so its fields end as the specification functions of all results. |
| AlignArguments.TriStateGetters | src/main/java/com/milaboratory/mixcr/cli/ActionAlign.java:376-402 | An absent switch means off, except that warnings are printed by default. A given value of each of the six switches is taken as it stands, negated for `noWarnings`. |
| AlignArguments.Validate | src/main/java/com/milaboratory/mixcr/cli/ActionAlign.java:433-441 | Arguments are accepted exactly when there are two or three positional arguments, and a failed-reads R2 path is given exactly when R1 is given and the input is paired. Each of the four checks, in the source's order, gives its own message: too many files, no output file, R2 without R1, and R2 given or missing against the pairing. |
| AlignArguments.IsInputPaired | src/main/java/com/milaboratory/mixcr/cli/ActionAlign.java:404-406 | The input is paired exactly when there are two input files before the output file. |
| AlignArguments.GetOutputName | src/main/java/com/milaboratory/mixcr/cli/ActionAlign.java:408-410 | There is an output name exactly when there is a positional argument. The arguments are the input files followed by the output name. |
| AlignArguments.GetInputForReport | src/main/java/com/milaboratory/mixcr/cli/ActionAlign.java:365-374 | The report's input list is the input files joined with ','. It fails exactly when there are fewer than two arguments. |
| AlignArguments.ReportInputsRoundTrip | src/main/java/com/milaboratory/mixcr/cli/ActionAlign.java:365-410 | For accepted arguments, the input list, ',' and the output name join to all the arguments. Paired means exactly two inputs, and splitting the input list on ',' gives the inputs back when no name contains ','. |
| AlignArguments.CreateReader | src/main/java/com/milaboratory/mixcr/cli/ActionAlign.java:412-425 | Paired input opens a paired FASTQ reader on the first two arguments. Otherwise the reader is FASTA exactly when the last '.'-component is "fasta", and single FASTQ when it is not. It fails exactly where Java's indexing would. |
| AlignArguments.ExtensionComponent | src/main/java/com/milaboratory/mixcr/cli/ActionAlign.java:416-417 | The component checked for a name with a non-empty, dot-free extension is that extension. |
| AlignArguments.FastaExtension | src/main/java/com/milaboratory/mixcr/cli/ActionAlign.java:416-417 | Any name ending in ".fasta" is read as FASTA. |
| AlignArguments.TrailingDotIgnored | src/main/java/com/milaboratory/mixcr/cli/ActionAlign.java:416-417 | A trailing '.' on a non-empty name does not change the choice, because Java's split drops trailing empty pieces. (For the empty name it does: "" is its own component by `NameWithoutDot`, and "." has none by `OnlyDotsHaveNoComponent`.) |
| AlignArguments.NameWithoutDot | src/main/java/com/milaboratory/mixcr/cli/ActionAlign.java:416-417 | A name without a dot is its own component. |
| AlignArguments.OnlyDotsHaveNoComponent | src/main/java/com/milaboratory/mixcr/cli/ActionAlign.java:416-417 | A non-empty name made only of dots leaves no component. |
| AlignArguments.OnlyDotsReaderFails | src/main/java/com/milaboratory/mixcr/cli/ActionAlign.java:412-425 | For unpaired input whose first argument is a non-empty name made only of dots, the reader choice fails. Paired input never splits the name. |
| Text.SplitJoin | src/main/java/com/milaboratory/mixcr/cli/ActionAlign.java:365-374 | Splitting a join of separator-free pieces on the same separator gives the pieces back. |
| Text.JavaSplitTrailingSep | src/main/java/com/milaboratory/mixcr/cli/ActionAlign.java:416 | Java's split ignores a trailing separator on a non-empty string. |
| Align.BuildEmptyHits | src/main/java/com/milaboratory/mixcr/cli/ActionAlign.java:193-197 | The placeholder hit map has an empty hit list exactly for the gene types with aligner parameters. |
| Align.Limited | src/main/java/com/milaboratory/mixcr/cli/ActionAlign.java:188-191 | A limit of 0 keeps every read. Otherwise at most `limit` reads are kept, and they are a prefix of the input. |
| Align.AggregateResults | src/main/java/com/milaboratory/mixcr/cli/ActionAlign.java:173-238 | A fresh aggregator run over the results yields exactly the written alignments, the failed reads, the chain tally and the chimera count that the specification functions define. Ordered input gives strictly increasing ids, and the chimera count is at most the number of results. |
| Align.Run | src/main/java/com/milaboratory/mixcr/cli/ActionAlign.java:81-241 | The run aborts with the fatal message and the warnings printed so far (the correction warning, then the registration warnings) exactly when the corrected registration has no V or no J gene. It fails on the reader exactly when the reader choice fails. Otherwise it returns the corrected parameters, the registration, the reader and the result loop's outputs over the limited input, in increasing id order, with chimeras bounded by the reads processed. |

## Left out

- The parallel machinery is left out: chunking, buffering, the `ParallelProcessor` worker pool and the `OrderedOutputPort` reordering (lines 200-210). The model takes the results already in read-id order, as a precondition, so it does not prove the reordering itself.
- Alignment scoring, `VDJCAligner` and hit computation are outside this file. The aligner's results are an input.
- `containsRequiredFeature` and `isAvailable` belong to the library and aligner classes. They are modelled as membership of the type's feature in the gene's set of available features.
- `readsLayout.createTargets` is the parameter `targetsOf`.
- `ChainUsageStats` is a foreign class. It is modelled as a tally keyed by the alignment's chains.
- `isChimera` is modelled as a stored flag of the alignment, false for a placeholder.
- The parameter overrides (`JsonOverrider`), the parameter presets and their lookup, the library registry and `parseLoci` are left out. The chain-filtered library is an input.
- The deprecated `--diff-loci` switch (lines 95-98) is left out. It prints a deprecation warning and sets `allowChimeras` in the aligner parameters before the aligner is created; neither is modelled.
- `noMerge` is used only to create the aligner, which is not modelled.
- File I/O is left out: readers and writers, the writer header, `setNumberOfProcessedReads`, and the choice between paired and single FASTQ for the failed-reads sink.
- Clocks, progress reporting and report printing are left out, along with writing the report file (lines 243-252). The report's input list itself is modelled.
- Printed text is left out. Warnings are structured values: the correction warning carries the two counts its percentage is computed from, and the formatting of that percentage is not modelled.
- `super.validate()` is in another class and is not part of this model.
- Floating point: the source compares integers against `double` products (`totalV * 0.9`, `totalVErrors * 0.8`). The model uses integer cross-multiplication (`10 * e > 9 * t`, `10 * h > 8 * e`). `ShouldCorrect` proves this equal to the comparison against the exact decimals 0.9 and 0.8. The `double` values of those constants are only slightly above the decimals, so for integer counts they do not change the outcome.
- Read ids are Java `long`s in the source; the model uses unbounded integers.
- The aligner is foreign code. The model assumes it builds each alignment with its read's id (`read.getId()`), which is the predicate `WellFormed`. `Align.Run`, `Aggregation.OrderPreserved` and `Aggregation.WriteAllKeepsEveryRead` rest on this assumption.
- Aggregation.Aggregator.ProcessAll: the class invariant `Valid` does not carry the read order. Output order is proved on the specification functions (`OrderPreserved`) and stated by `Align.Run`.
- Exceptions are modelled as `Option`/`Result` values: the fatal check, validation, the reader choice, and `getInputForReport` with fewer than two arguments.
