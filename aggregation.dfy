/**
 * Classification and aggregation of the ordered alignment results: a failed
 * alignment becomes a placeholder (write-all mode), goes to the failed-read
 * sink, or is dropped; every surviving alignment is counted in the chain
 * usage statistics and, when chimeric, in the chimera counter, and is then
 * decorated and written when there is a writer.
 */
module Aggregation {
  import opened Wrappers
  import opened Genes
  import opened Reads

  /**
   * What the result loop is configured with: the write-all switch, whether a
   * writer (output other than ".") and a failed-read sink exist, the two
   * read-retention switches, the empty hit map of placeholders, and the
   * target split of the reads layout (a library computation).
   */
  datatype OutputConfig = OutputConfig(
    writeAllResults: bool,
    hasWriter: bool,
    hasFailedSink: bool,
    saveReadDescription: bool,
    saveOriginalReads: bool,
    emptyHits: map<GeneType, seq<Hit>>,
    targetsOf: SequenceRead -> seq<SequenceWithQuality>)

  /** How one result is resolved. */
  datatype Resolution =
    | Emitted(alignment: Alignment)      // aligned
    | Synthesized(alignment: Alignment)  // unaligned, replaced by a placeholder
    | Sunk(read: SequenceRead)           // unaligned, written to the failed-read sink
    | Skipped                            // unaligned and dropped

  predicate Survives(res: Resolution)
  {
    res.Emitted? || res.Synthesized?
  }

  /** The placeholder for an unaligned read: its id, no hits for any configured gene type, the default targets. */
  function Placeholder(c: OutputConfig, read: SequenceRead): Alignment
  {
    Alignment(read.id, c.emptyHits, c.targetsOf(read), {}, false, None, None)
  }

  function Resolve(c: OutputConfig, r: AlignmentResult): Resolution
  {
    match r.alignment
    case Some(a) => Emitted(a)
    case None =>
      if c.writeAllResults then Synthesized(Placeholder(c, r.read))
      else if c.hasFailedSink then Sunk(r.read)
      else Skipped
  }

  /** The alignment as handed to the writer: original descriptions and sequences attached as configured. */
  function Decorate(c: OutputConfig, a: Alignment, read: SequenceRead): Alignment
  {
    a.(originalDescriptions := if c.saveReadDescription || c.saveOriginalReads then Some(Descriptions(read)) else a.originalDescriptions,
       originalSequences := if c.saveOriginalReads then Some(Sequences(read)) else a.originalSequences)
  }

  /** Attaches the read's original descriptions and sequences to an alignment that goes to the writer. */
  method DecorateForWriter(c: OutputConfig, a: Alignment, read: SequenceRead) returns (decorated: Alignment)
    ensures decorated == Decorate(c, a, read)
    ensures Stripped(decorated) == Stripped(a)
  {
    decorated := a;
    if c.saveReadDescription || c.saveOriginalReads {
      var descrs := ExtractDescriptions(read);
      decorated := decorated.(originalDescriptions := Some(descrs[..]));
    }
    if c.saveOriginalReads {
      var seqs := ExtractSequences(read);
      decorated := decorated.(originalSequences := Some(seqs[..]));
    }
  }

  /** The surviving alignments, in result order: what reaches the statistics. */
  function Aggregated(c: OutputConfig, rs: seq<AlignmentResult>): seq<Alignment>
    decreases |rs|
  {
    if rs == [] then []
    else
      var res := Resolve(c, rs[|rs| - 1]);
      Aggregated(c, rs[..|rs| - 1]) + (if Survives(res) then [res.alignment] else [])
  }

  /** The reads behind the surviving alignments, in the same order: the reads that decorations are taken from. */
  function SurvivingReads(c: OutputConfig, rs: seq<AlignmentResult>): seq<SequenceRead>
    decreases |rs|
  {
    if rs == [] then []
    else
      var r := rs[|rs| - 1];
      SurvivingReads(c, rs[..|rs| - 1]) + (if Survives(Resolve(c, r)) then [r.read] else [])
  }

  /** The alignments handed to the writer, in result order. */
  function Written(c: OutputConfig, rs: seq<AlignmentResult>): seq<Alignment>
    decreases |rs|
  {
    if rs == [] then []
    else
      var r := rs[|rs| - 1];
      var res := Resolve(c, r);
      Written(c, rs[..|rs| - 1])
        + (if c.hasWriter && Survives(res) then [Decorate(c, res.alignment, r.read)] else [])
  }

  /** The reads written to the failed-read sink, in result order. */
  function FailedReads(c: OutputConfig, rs: seq<AlignmentResult>): seq<SequenceRead>
    decreases |rs|
  {
    if rs == [] then []
    else
      var res := Resolve(c, rs[|rs| - 1]);
      FailedReads(c, rs[..|rs| - 1]) + (if res.Sunk? then [res.read] else [])
  }

  /** Number of dropped results. */
  function SkippedCount(c: OutputConfig, rs: seq<AlignmentResult>): nat
    decreases |rs|
  {
    if rs == [] then 0
    else SkippedCount(c, rs[..|rs| - 1]) + (if Resolve(c, rs[|rs| - 1]).Skipped? then 1 else 0)
  }

  /** The alignments the aligner produced, in result order, whatever the configuration. */
  function Aligned(rs: seq<AlignmentResult>): seq<Alignment>
    decreases |rs|
  {
    if rs == [] then []
    else
      var r := rs[|rs| - 1];
      Aligned(rs[..|rs| - 1]) + (if r.alignment.Some? then [r.alignment.value] else [])
  }

  /** The reads the aligner could not align, in result order. */
  function Unaligned(rs: seq<AlignmentResult>): seq<SequenceRead>
    decreases |rs|
  {
    if rs == [] then []
    else
      var r := rs[|rs| - 1];
      Unaligned(rs[..|rs| - 1]) + (if r.alignment.None? then [r.read] else [])
  }

  /** The count recorded for `k` in chain usage statistics `stats`. */
  function ChainCount(stats: map<Chains, nat>, k: Chains): nat
  {
    if k in stats then stats[k] else 0
  }

  /** One update of the chain usage statistics by an alignment. */
  function Put(stats: map<Chains, nat>, a: Alignment): map<Chains, nat>
  {
    stats[a.chains := ChainCount(stats, a.chains) + 1]
  }

  /** The chain usage statistics after one update per alignment of `als`, starting empty. */
  function Tally(als: seq<Alignment>): map<Chains, nat>
    decreases |als|
  {
    if als == [] then map[] else Put(Tally(als[..|als| - 1]), als[|als| - 1])
  }

  /** Number of chimeric alignments in `als`. */
  function Chimeras(als: seq<Alignment>): nat
    decreases |als|
  {
    if als == [] then 0 else Chimeras(als[..|als| - 1]) + (if als[|als| - 1].chimera then 1 else 0)
  }

  /** Number of alignments of `als` attributed to chains `k`. */
  function Occurrences(als: seq<Alignment>, k: Chains): nat
    decreases |als|
  {
    if als == [] then 0 else (if als[0].chains == k then 1 else 0) + Occurrences(als[1..], k)
  }

  /** An alignment without the read metadata the action may attach. */
  function Stripped(a: Alignment): Alignment
  {
    a.(originalDescriptions := None, originalSequences := None)
  }

  lemma {:induction false} OccurrencesAppend(als: seq<Alignment>, a: Alignment, k: Chains)
    ensures Occurrences(als + [a], k) == Occurrences(als, k) + (if a.chains == k then 1 else 0)
    decreases |als|
  {
    if als != [] {
      assert (als + [a])[1..] == als[1..] + [a];
      OccurrencesAppend(als[1..], a, k);
    }
  }

  /** The statistics count, for every chain set, the alignments attributed to it. */
  lemma {:induction false} TallyCounts(als: seq<Alignment>, k: Chains)
    ensures ChainCount(Tally(als), k) == Occurrences(als, k)
    decreases |als|
  {
    if als != [] {
      var init := als[..|als| - 1];
      TallyCounts(init, k);
      assert als == init + [als[|als| - 1]];
      OccurrencesAppend(init, als[|als| - 1], k);
    }
  }

  /** The chimera counter never exceeds the number of statistics updates. */
  lemma {:induction false} ChimerasBounded(als: seq<Alignment>)
    ensures Chimeras(als) <= |als|
    decreases |als|
  {
    if als != [] {
      ChimerasBounded(als[..|als| - 1]);
    }
  }

  /**
   * Every result is accounted for exactly once: surviving, sunk or skipped.
   * The writer receives one alignment per survivor, or nothing without a writer.
   */
  lemma {:induction false} Conservation(c: OutputConfig, rs: seq<AlignmentResult>)
    ensures |Aggregated(c, rs)| + |FailedReads(c, rs)| + SkippedCount(c, rs) == |rs|
    ensures |Written(c, rs)| == if c.hasWriter then |Aggregated(c, rs)| else 0
    decreases |rs|
  {
    if rs != [] {
      Conservation(c, rs[..|rs| - 1]);
    }
  }

  /**
   * The writer receives the surviving alignments themselves, in order, with
   * the read metadata attached exactly as the retention switches ask.
   */
  lemma {:induction false} WrittenAreAggregated(c: OutputConfig, rs: seq<AlignmentResult>)
    requires c.hasWriter
    ensures |Written(c, rs)| == |Aggregated(c, rs)|
    ensures |SurvivingReads(c, rs)| == |Aggregated(c, rs)|
    ensures forall i :: 0 <= i < |Written(c, rs)| ==>
      Written(c, rs)[i] == Decorate(c, Aggregated(c, rs)[i], SurvivingReads(c, rs)[i])
    ensures !c.saveReadDescription && !c.saveOriginalReads ==> Written(c, rs) == Aggregated(c, rs)
    ensures forall i :: 0 <= i < |Written(c, rs)| ==>
      && Stripped(Written(c, rs)[i]) == Stripped(Aggregated(c, rs)[i])
      && ((c.saveReadDescription || c.saveOriginalReads) ==>
            Written(c, rs)[i].originalDescriptions == Some(Descriptions(SurvivingReads(c, rs)[i])))
      && (c.saveOriginalReads ==> Written(c, rs)[i].originalSequences == Some(Sequences(SurvivingReads(c, rs)[i])))
    decreases |rs|
  {
    if rs != [] {
      WrittenAreAggregated(c, rs[..|rs| - 1]);
    }
  }

  /**
   * The statistics see the same alignments whether or not there is a writer
   * and whatever the retention switches say.
   */
  lemma {:induction false} StatsIndependentOfWriter(c: OutputConfig, rs: seq<AlignmentResult>, hasWriter: bool, saveReadDescription: bool, saveOriginalReads: bool)
    ensures Aggregated(c, rs) == Aggregated(c.(hasWriter := hasWriter, saveReadDescription := saveReadDescription, saveOriginalReads := saveOriginalReads), rs)
    decreases |rs|
  {
    if rs != [] {
      StatsIndependentOfWriter(c, rs[..|rs| - 1], hasWriter, saveReadDescription, saveOriginalReads);
    }
  }

  /**
   * In write-all mode every result survives, in order: nothing is sunk or
   * skipped, the i-th survivor carries the i-th read's id, and a survivor for
   * an unaligned read is its placeholder: no hits, the read's default
   * targets, not chimeric.
   */
  lemma {:induction false} WriteAllKeepsEveryRead(c: OutputConfig, rs: seq<AlignmentResult>)
    requires c.writeAllResults
    requires forall i :: 0 <= i < |rs| ==> WellFormed(rs[i])
    ensures FailedReads(c, rs) == [] && SkippedCount(c, rs) == 0
    ensures |Aggregated(c, rs)| == |rs|
    ensures forall i :: 0 <= i < |rs| ==> Aggregated(c, rs)[i].readId == rs[i].read.id
    ensures forall i :: 0 <= i < |rs| && rs[i].alignment.None? ==>
      Aggregated(c, rs)[i] == Placeholder(c, rs[i].read)
    ensures forall i :: 0 <= i < |rs| && rs[i].alignment.Some? ==> Aggregated(c, rs)[i] == rs[i].alignment.value
    decreases |rs|
  {
    if rs != [] {
      var init := rs[..|rs| - 1];
      WriteAllKeepsEveryRead(c, init);
      assert forall i :: 0 <= i < |init| ==> init[i] == rs[i];
    }
  }

  /**
   * Without write-all, the statistics see exactly the aligner's alignments,
   * and the unaligned reads all go, in order, to the failed-read sink when
   * there is one and are all skipped otherwise.
   */
  lemma {:induction false} WithoutWriteAll(c: OutputConfig, rs: seq<AlignmentResult>)
    requires !c.writeAllResults
    ensures Aggregated(c, rs) == Aligned(rs)
    ensures FailedReads(c, rs) == if c.hasFailedSink then Unaligned(rs) else []
    ensures SkippedCount(c, rs) == if c.hasFailedSink then 0 else |Unaligned(rs)|
    ensures |Aligned(rs)| + |Unaligned(rs)| == |rs|
    decreases |rs|
  {
    if rs != [] {
      WithoutWriteAll(c, rs[..|rs| - 1]);
    }
  }

  predicate AlignmentIdsIncreasing(als: seq<Alignment>)
  {
    forall i, j :: 0 <= i < j < |als| ==> als[i].readId < als[j].readId
  }

  predicate ReadIdsIncreasing(rds: seq<SequenceRead>)
  {
    forall i, j :: 0 <= i < j < |rds| ==> rds[i].id < rds[j].id
  }

  lemma {:induction false} OutputIdsBelow(c: OutputConfig, rs: seq<AlignmentResult>, bound: int)
    requires forall i :: 0 <= i < |rs| ==> WellFormed(rs[i]) && rs[i].read.id < bound
    ensures forall i :: 0 <= i < |Aggregated(c, rs)| ==> Aggregated(c, rs)[i].readId < bound
    ensures forall i :: 0 <= i < |Written(c, rs)| ==> Written(c, rs)[i].readId < bound
    ensures forall i :: 0 <= i < |FailedReads(c, rs)| ==> FailedReads(c, rs)[i].id < bound
    decreases |rs|
  {
    if rs != [] {
      var init := rs[..|rs| - 1];
      assert forall i :: 0 <= i < |init| ==> init[i] == rs[i];
      OutputIdsBelow(c, init, bound);
    }
  }

  /**
   * Order preservation: results in increasing read-id order give statistics
   * updates, written alignments and sunk reads in increasing read-id order.
   */
  lemma {:induction false} OrderPreserved(c: OutputConfig, rs: seq<AlignmentResult>)
    requires Ordered(rs)
    requires forall i :: 0 <= i < |rs| ==> WellFormed(rs[i])
    ensures AlignmentIdsIncreasing(Aggregated(c, rs))
    ensures AlignmentIdsIncreasing(Written(c, rs))
    ensures ReadIdsIncreasing(FailedReads(c, rs))
    decreases |rs|
  {
    if rs != [] {
      var init, last := rs[..|rs| - 1], rs[|rs| - 1];
      assert forall i :: 0 <= i < |init| ==> init[i] == rs[i];
      OrderPreserved(c, init);
      OutputIdsBelow(c, init, last.read.id);
    }
  }

  /** How each output of the result loop grows by one result. */
  lemma StepAppend(c: OutputConfig, rs: seq<AlignmentResult>, r: AlignmentResult)
    ensures var res := Resolve(c, r);
      && Aggregated(c, rs + [r]) == Aggregated(c, rs) + (if Survives(res) then [res.alignment] else [])
      && Written(c, rs + [r]) == Written(c, rs) + (if c.hasWriter && Survives(res) then [Decorate(c, res.alignment, r.read)] else [])
      && FailedReads(c, rs + [r]) == FailedReads(c, rs) + (if res.Sunk? then [res.read] else [])
  {
    assert (rs + [r])[..|rs|] == rs;
  }

  lemma TallyChimerasAppend(als: seq<Alignment>, a: Alignment)
    ensures Tally(als + [a]) == Put(Tally(als), a)
    ensures Chimeras(als + [a]) == Chimeras(als) + (if a.chimera then 1 else 0)
  {
    assert (als + [a])[..|als|] == als;
  }

  /**
   * The aggregation state of the result loop: what was written, what went to
   * the failed-read sink, the chain usage statistics and the chimera counter,
   * all determined by the results consumed so far.
   */
  class Aggregator {
    const config: OutputConfig
    var written: seq<Alignment>
    var failedReads: seq<SequenceRead>
    var chainCounts: map<Chains, nat>
    var chimeras: nat
    ghost var processed: seq<AlignmentResult>

    ghost predicate Valid()
      reads this
    {
      && written == Written(config, processed)
      && failedReads == FailedReads(config, processed)
      && chainCounts == Tally(Aggregated(config, processed))
      && chimeras == Chimeras(Aggregated(config, processed))
    }

    constructor (config: OutputConfig)
      ensures Valid()
      ensures this.config == config && processed == []
      ensures written == [] && failedReads == [] && chainCounts == map[] && chimeras == 0
    {
      this.config := config;
      written, failedReads, chainCounts, chimeras := [], [], map[], 0;
      processed := [];
    }

    /** Classifies one result and updates the aggregation state with it. */
    method Process(result: AlignmentResult)
      requires Valid()
      modifies this
      ensures Valid()
      ensures processed == old(processed) + [result]
      ensures var res := Resolve(config, result);
        && written == old(written) + (if config.hasWriter && Survives(res) then [Decorate(config, res.alignment, result.read)] else [])
        && failedReads == old(failedReads) + (if res.Sunk? then [result.read] else [])
        && chainCounts == (if Survives(res) then Put(old(chainCounts), res.alignment) else old(chainCounts))
        && chimeras == old(chimeras) + (if Survives(res) && res.alignment.chimera then 1 else 0)
    {
      ghost var res := Resolve(config, result);
      StepAppend(config, processed, result);
      if Survives(res) {
        TallyChimerasAppend(Aggregated(config, processed), res.alignment);
      } else {
        assert Aggregated(config, processed + [result]) == Aggregated(config, processed);
      }
      var read := result.read;
      var alignment := result.alignment;
      if alignment.None? {
        if config.writeAllResults {
          alignment := Some(Placeholder(config, read));
        } else if config.hasFailedSink {
          failedReads := failedReads + [read];
        }
      }
      if alignment.Some? {
        chainCounts := Put(chainCounts, alignment.value);
        if alignment.value.chimera {
          chimeras := chimeras + 1;
        }
        if config.hasWriter {
          var decorated := DecorateForWriter(config, alignment.value, read);
          written := written + [decorated];
        }
      }
      processed := processed + [result];
    }

    /**
     * The result loop: consumes the results one by one, in the order in which
     * they are given. The read-id order and the well-formedness of the
     * results are not needed here; `Align.Run` requires them and derives the
     * order of the outputs from them.
     */
    method ProcessAll(results: seq<AlignmentResult>)
      requires Valid()
      modifies this
      ensures Valid()
      ensures processed == old(processed) + results
    {
      ghost var before := processed;
      for i := 0 to |results|
        invariant Valid()
        invariant processed == before + results[..i]
      {
        Process(results[i]);
        assert before + results[..i + 1] == before + results[..i] + [results[i]];
      }
      assert results[..|results|] == results;
    }
  }
}
