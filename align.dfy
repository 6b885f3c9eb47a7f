/**
 * The align action's run: feature correction, gene registration, the fatal
 * check for usable V and J genes, the reader choice, and the result loop
 * over the alignment results, which arrive already in read-id order.
 */
module Align {
  import opened Wrappers
  import opened Genes
  import opened Warnings
  import opened FeatureCorrection
  import opened GeneRegistration
  import opened Reads
  import opened Aggregation
  import opened AlignArguments

  /** What a completed run produces. */
  datatype RunOutput = RunOutput(
    parameters: AlignerParameters,
    corrected: bool,
    registered: seq<Gene>,
    warnings: seq<Warning>,
    reader: ReaderKind,
    written: seq<Alignment>,
    failedReads: seq<SequenceRead>,
    chainCounts: map<Chains, nat>,
    chimeras: nat)

  /** Why a run is aborted: no usable V or J gene (with the warnings printed so far), or no reader. */
  datatype Abort = NoUsableGenes(message: string, warnings: seq<Warning>) | ReaderFailure(error: ReaderError)

  /** The hit map of a placeholder: an empty hit list for every gene type that has aligner parameters. */
  function EmptyHits(p: AlignerParameters): map<GeneType, seq<Hit>>
  {
    map gt | gt in {Variable, Diversity, Joining, Constant} && HasAlignerParameters(p, gt) :: []
  }

  /** Builds the placeholder hit map gene type by gene type. */
  method BuildEmptyHits(p: AlignerParameters) returns (emptyHits: map<GeneType, seq<Hit>>)
    ensures forall gt :: gt in emptyHits <==> HasAlignerParameters(p, gt)
    ensures forall gt :: gt in emptyHits ==> emptyHits[gt] == []
    ensures emptyHits == EmptyHits(p)
  {
    emptyHits := map[];
    for i := 0 to |AllGeneTypes|
      invariant forall gt :: gt in emptyHits <==> gt in AllGeneTypes[..i] && HasAlignerParameters(p, gt)
      invariant forall gt :: gt in emptyHits ==> emptyHits[gt] == []
    {
      var gt := AllGeneTypes[i];
      if HasAlignerParameters(p, gt) {
        emptyHits := emptyHits[gt := []];
      }
    }
    assert AllGeneTypes[..|AllGeneTypes|] == AllGeneTypes;
    forall gt: GeneType ensures gt in AllGeneTypes {
      AllGeneTypesComplete(gt);
    }
  }

  /** The result loop's configuration, read from the arguments and the final aligner parameters. */
  function ConfigFor(args: AlignParameters, p: AlignerParameters, targetsOf: SequenceRead -> seq<SequenceWithQuality>): OutputConfig
  {
    OutputConfig(
      GetWriteAllResults(args),
      GetOutputName(args) != Some("."),
      args.failedReadsR1.Some?,
      GetSaveReadDescription(args),
      GetSaveOriginalReads(args),
      EmptyHits(p),
      targetsOf)
  }

  /** The results of the first `limit` reads, or all of them when `limit` is 0. */
  function Limited(results: seq<AlignmentResult>, limit: nat): (r: seq<AlignmentResult>)
    ensures r <= results
    ensures |r| == if limit != 0 && limit < |results| then limit else |results|
  {
    if limit != 0 && limit < |results| then results[..limit] else results
  }

  /** A prefix of an ordered, well-formed result sequence is ordered and well-formed. */
  lemma PrefixKeepsOrder(results: seq<AlignmentResult>, rs: seq<AlignmentResult>)
    requires Ordered(results)
    requires forall i :: 0 <= i < |results| ==> WellFormed(results[i])
    requires rs <= results
    ensures Ordered(rs)
    ensures forall i :: 0 <= i < |rs| ==> WellFormed(rs[i])
  {
    forall i, j | 0 <= i < j < |rs| ensures rs[i].read.id < rs[j].read.id {
      assert rs[i] == results[i] && rs[j] == results[j];
    }
    forall i | 0 <= i < |rs| ensures WellFormed(rs[i]) {
      assert rs[i] == results[i];
    }
  }

  lemma LimitedKeepsOrder(results: seq<AlignmentResult>, limit: nat)
    requires Ordered(results)
    requires forall i :: 0 <= i < |results| ==> WellFormed(results[i])
    ensures Ordered(Limited(results, limit))
    ensures forall i :: 0 <= i < |Limited(results, limit)| ==> WellFormed(Limited(results, limit)[i])
  {
    PrefixKeepsOrder(results, Limited(results, limit));
  }

  /**
   * The result loop of a run: a fresh aggregator consumes the results in
   * order. Its outputs are the specification functions of the results, and
   * ordered input gives ordered outputs.
   */
  method AggregateResults(c: OutputConfig, rs: seq<AlignmentResult>)
    returns (written: seq<Alignment>, failedReads: seq<SequenceRead>, chainCounts: map<Chains, nat>, chimeras: nat)
    requires Ordered(rs)
    requires forall i :: 0 <= i < |rs| ==> WellFormed(rs[i])
    ensures written == Written(c, rs) && failedReads == FailedReads(c, rs)
    ensures chainCounts == Tally(Aggregated(c, rs)) && chimeras == Chimeras(Aggregated(c, rs))
    ensures AlignmentIdsIncreasing(written) && ReadIdsIncreasing(failedReads)
    ensures chimeras <= |rs|
  {
    var aggregator := new Aggregator(c);
    aggregator.ProcessAll(rs);
    assert aggregator.processed == rs;
    written, failedReads, chainCounts, chimeras :=
      aggregator.written, aggregator.failedReads, aggregator.chainCounts, aggregator.chimeras;
    OrderPreserved(c, rs);
    ChimerasBounded(Aggregated(c, rs));
    Conservation(c, rs);
  }

  /**
   * One run of the align action on the chain-filtered library `genes` and
   * the aligner's results for the reader's reads. The correction is decided
   * once on the original parameters; registration and everything after it
   * use the corrected ones. A run without usable V or J genes stops before
   * the reader is opened or any result is consumed.
   */
  method Run(args: AlignParameters, p: AlignerParameters, genes: seq<Gene>,
             targetsOf: SequenceRead -> seq<SequenceWithQuality>, results: seq<AlignmentResult>)
    returns (r: Result<RunOutput, Abort>)
    requires Validate(args).None?
    requires Ordered(results)
    requires forall i :: 0 <= i < |results| ==> WellFormed(results[i])
    ensures var corrected := Corrected(p, genes);
      var registered := Registered(corrected, genes);
      var log := CorrectionWarnings(p, genes) + WarningLog(corrected, genes, PrintWarnings(args), PrintNonFunctionalWarnings(args));
      && (r.Err? && r.error.NoUsableGenes? <==> FatalCheck(registered).Some?)
      && (r.Err? && r.error.NoUsableGenes? ==> r.error == NoUsableGenes(FatalCheck(registered).value, log))
      && (r.Err? && r.error.ReaderFailure? <==> FatalCheck(registered).None? && CreateReader(args).Err?)
      && (r.Ok? ==>
            var c := ConfigFor(args, corrected, targetsOf);
            var rs := Limited(results, args.limit);
            r.value == RunOutput(corrected, CorrectionFires(p, genes), registered, log, CreateReader(args).value,
                                 Written(c, rs), FailedReads(c, rs), Tally(Aggregated(c, rs)), Chimeras(Aggregated(c, rs))))
    ensures r.Ok? ==>
      && AlignmentIdsIncreasing(r.value.written)
      && ReadIdsIncreasing(r.value.failedReads)
      && r.value.chimeras <= |Limited(results, args.limit)|
  {
    var corrected, fired, forced := CorrectFeatureToAlign(p, genes);
    var registered, excludedReported, excludedNonFunctional, registrationLog :=
      RegisterGenes(corrected, genes, PrintWarnings(args), PrintNonFunctionalWarnings(args));
    var log := forced + registrationLog;
    var fatal := FatalCheck(registered);
    if fatal.Some? {
      return Err(NoUsableGenes(fatal.value, log));
    }
    var reader := CreateReader(args);
    if reader.Err? {
      return Err(ReaderFailure(reader.error));
    }
    var emptyHits := BuildEmptyHits(corrected);
    var c := OutputConfig(
      GetWriteAllResults(args),
      GetOutputName(args) != Some("."),
      args.failedReadsR1.Some?,
      GetSaveReadDescription(args),
      GetSaveOriginalReads(args),
      emptyHits,
      targetsOf);
    assert c == ConfigFor(args, corrected, targetsOf);
    var rs := Limited(results, args.limit);
    LimitedKeepsOrder(results, args.limit);
    var written, failedReads, chainCounts, chimeras := AggregateResults(c, rs);
    r := Ok(RunOutput(corrected, fired, registered, log, reader.value, written, failedReads, chainCounts, chimeras));
  }
}
