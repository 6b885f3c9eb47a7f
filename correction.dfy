/**
 * The one-shot correction of the V feature to align: when the required V
 * feature is absent from nearly all V genes of the library but a broader
 * V feature is present in most of those, the V aligner is switched to the
 * broader feature before any gene is registered.
 */
module FeatureCorrection {
  import opened Wrappers
  import opened Genes
  import opened Warnings

  /**
   * The broader V feature to fall back to: the V region with its P segment
   * when the current V feature has reversed regions, the plain V region
   * otherwise.
   */
  function CorrectingFeature(current: GeneFeature): (r: GeneFeature)
    ensures r == VRegionWithP || r == VRegion
    ensures r.hasReversedRegions == current.hasReversedRegions
  {
    if current.hasReversedRegions then VRegionWithP else VRegion
  }

  predicate LacksRequired(p: AlignerParameters, g: Gene)
  {
    g.geneType == Variable && !ContainsRequiredFeature(p, g)
  }

  /** Number of V genes among `genes`. */
  function CountV(genes: seq<Gene>): nat
    decreases |genes|
  {
    if genes == [] then 0
    else CountV(genes[..|genes| - 1]) + (if genes[|genes| - 1].geneType == Variable then 1 else 0)
  }

  /** Appending a gene adds one to the V count exactly when it is a V gene. */
  lemma CountVAppend(genes: seq<Gene>, g: Gene)
    ensures CountV(genes + [g]) == CountV(genes) + (if g.geneType == Variable then 1 else 0)
  {
    assert (genes + [g])[..|genes|] == genes;
  }

  /** Number of V genes among `genes` that lack the required feature under `p`. */
  function CountVErrors(p: AlignerParameters, genes: seq<Gene>): nat
    decreases |genes|
  {
    if genes == [] then 0
    else CountVErrors(p, genes[..|genes| - 1]) + (if LacksRequired(p, genes[|genes| - 1]) then 1 else 0)
  }

  /** Number of those V genes lacking the required feature that have the correcting feature. */
  function CountHasVRegion(p: AlignerParameters, genes: seq<Gene>): nat
    decreases |genes|
  {
    if genes == [] then 0
    else
      var g := genes[|genes| - 1];
      CountHasVRegion(p, genes[..|genes| - 1])
        + (if LacksRequired(p, g) && CorrectingFeature(p.vFeature) in g.available then 1 else 0)
  }

  /**
   * The trigger: more than 90% of the V genes lack the required feature and
   * more than 80% of those have the correcting feature. The source compares
   * doubles (`errors > total * 0.9`); on integer counts this is the same as
   * the cross-multiplied comparison, since both decimal constants round up
   * in binary and so never move an exact tie across the strict bound.
   */
  predicate ShouldCorrect(totalV: nat, totalVErrors: nat, hasVRegion: nat): (r: bool)
    ensures r <==> totalVErrors as real > totalV as real * 0.9 && hasVRegion as real > totalVErrors as real * 0.8
  {
    10 * totalVErrors > 9 * totalV && 10 * hasVRegion > 8 * totalVErrors
  }

  predicate CorrectionFires(p: AlignerParameters, genes: seq<Gene>)
  {
    ShouldCorrect(CountV(genes), CountVErrors(p, genes), CountHasVRegion(p, genes))
  }

  /**
   * The warning printed when the correction fires: the forced feature, the
   * current one, and the counts of which the printed percentage is made.
   */
  function CorrectionWarnings(p: AlignerParameters, genes: seq<Gene>): seq<Warning>
  {
    if CorrectionFires(p, genes) then [ForcedFeature(CorrectingFeature(p.vFeature), p.vFeature, CountVErrors(p, genes), CountV(genes))]
    else []
  }

  /** The aligner parameters after the correction step. */
  function Corrected(p: AlignerParameters, genes: seq<Gene>): AlignerParameters
  {
    if CorrectionFires(p, genes) then WithVFeature(p, CorrectingFeature(p.vFeature)) else p
  }

  /** The correcting genes are among the V genes lacking the feature, which are among the V genes. */
  lemma {:induction false} CountsOrdered(p: AlignerParameters, genes: seq<Gene>)
    ensures CountHasVRegion(p, genes) <= CountVErrors(p, genes) <= CountV(genes)
    decreases |genes|
  {
    if genes != [] {
      CountsOrdered(p, genes[..|genes| - 1]);
    }
  }

  /** A library without V genes never triggers the correction. */
  lemma EmptyVNeverCorrects(p: AlignerParameters, genes: seq<Gene>)
    requires CountV(genes) == 0
    ensures !CorrectionFires(p, genes)
    ensures Corrected(p, genes) == p
  {
    CountsOrdered(p, genes);
  }

  /** When the correction fires, at least one V gene has the correcting feature. */
  lemma FiringNeedsCorrectableGene(p: AlignerParameters, genes: seq<Gene>)
    requires CorrectionFires(p, genes)
    ensures CountHasVRegion(p, genes) >= 1
    ensures CountVErrors(p, genes) >= 1
  {
  }

  /**
   * The correction changes only the V aligner's feature, to the correcting
   * feature, and leaves the parameters unchanged when it does not fire.
   */
  lemma CorrectionChangesOnlyV(p: AlignerParameters, genes: seq<Gene>)
    ensures forall gt :: gt != Variable ==> FeatureToAlign(Corrected(p, genes), gt) == FeatureToAlign(p, gt)
    ensures FeatureToAlign(Corrected(p, genes), Variable) ==
      Some(if CorrectionFires(p, genes) then CorrectingFeature(p.vFeature) else p.vFeature)
  {
  }

  /** The two thresholds on the worked numbers: 38 of 40 with 32 correctable fires, 20 of 40 never does. */
  lemma ThresholdExamples()
    ensures ShouldCorrect(40, 38, 32)
    ensures forall h: nat :: !ShouldCorrect(40, 20, h)
    ensures !ShouldCorrect(40, 38, 30)
  {
  }

  /**
   * The counting pass over the library: the number of V genes, of V genes
   * lacking the required feature, and of those having the correcting feature.
   */
  method CountVGenes(p: AlignerParameters, genes: seq<Gene>) returns (totalV: nat, totalVErrors: nat, hasVRegion: nat)
    ensures totalV == CountV(genes)
    ensures totalVErrors == CountVErrors(p, genes)
    ensures hasVRegion == CountHasVRegion(p, genes)
    ensures hasVRegion <= totalVErrors <= totalV
  {
    totalV, totalVErrors, hasVRegion := 0, 0, 0;
    var correctingFeature := CorrectingFeature(p.vFeature);
    for i := 0 to |genes|
      invariant totalV == CountV(genes[..i])
      invariant totalVErrors == CountVErrors(p, genes[..i])
      invariant hasVRegion == CountHasVRegion(p, genes[..i])
    {
      assert genes[..i + 1][..i] == genes[..i];
      var gene := genes[i];
      if gene.geneType == Variable {
        totalV := totalV + 1;
      } else {
        continue;
      }
      if !ContainsRequiredFeature(p, gene) {
        totalVErrors := totalVErrors + 1;
        if correctingFeature in gene.available {
          hasVRegion := hasVRegion + 1;
        }
      }
    }
    assert genes[..|genes|] == genes;
    CountsOrdered(p, genes);
  }

  /**
   * The correction step: counts the V genes, and replaces the V feature to
   * align by the correcting feature exactly when both thresholds are
   * exceeded. Reports whether it did, with the warning it prints then.
   */
  method CorrectFeatureToAlign(p: AlignerParameters, genes: seq<Gene>)
    returns (corrected: AlignerParameters, fired: bool, warnings: seq<Warning>)
    ensures fired <==> ShouldCorrect(CountV(genes), CountVErrors(p, genes), CountHasVRegion(p, genes))
    ensures corrected == Corrected(p, genes)
    ensures !fired ==> corrected == p && warnings == []
    ensures fired ==> corrected.vFeature == CorrectingFeature(p.vFeature)
    ensures fired ==> warnings == [ForcedFeature(corrected.vFeature, p.vFeature, CountVErrors(p, genes), CountV(genes))]
    ensures warnings == CorrectionWarnings(p, genes)
  {
    var totalV, totalVErrors, hasVRegion := CountVGenes(p, genes);
    var correctingFeature := CorrectingFeature(p.vFeature);
    fired := 10 * totalVErrors > 9 * totalV && 10 * hasVRegion > 8 * totalVErrors;
    corrected, warnings := p, [];
    if fired {
      warnings := [ForcedFeature(correctingFeature, p.vFeature, totalVErrors, totalV)];
      corrected := WithVFeature(p, correctingFeature);
    }
  }
}
