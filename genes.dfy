/**
 * Reference genes and the per-gene-type alignment configuration of the
 * aligner, as far as the align action reads or changes them.
 */
module Genes {
  import opened Wrappers

  /** The four gene types of a V(D)J rearrangement. */
  datatype GeneType = Variable | Diversity | Joining | Constant

  /** Every gene type, in the declaration order of the enumeration. */
  const AllGeneTypes: seq<GeneType> := [Variable, Diversity, Joining, Constant]

  lemma AllGeneTypesComplete(gt: GeneType)
    ensures gt in AllGeneTypes
  {
    match gt
    case Variable => assert AllGeneTypes[0] == gt;
    case Diversity => assert AllGeneTypes[1] == gt;
    case Joining => assert AllGeneTypes[2] == gt;
    case Constant => assert AllGeneTypes[3] == gt;
  }

  /**
   * A named sub-region of a reference gene. Only whether it contains reversed
   * regions is interpreted by the align action.
   */
  datatype GeneFeature = GeneFeature(code: string, hasReversedRegions: bool)

  /** The plain V region. */
  const VRegion: GeneFeature := GeneFeature("VRegion", false)

  /** The V region extended by its P segment. */
  const VRegionWithP: GeneFeature := GeneFeature("VRegionWithP", true)

  /**
   * A library gene: its name, type, functional flag and the set of features
   * its partitioning makes available.
   */
  datatype Gene = Gene(name: string, geneType: GeneType, functional: bool, available: set<GeneFeature>)

  /**
   * The aligner parameters: one feature to align per gene type. The V and J
   * aligner parameters always exist; the D and C ones may be absent.
   */
  datatype AlignerParameters = AlignerParameters(
    vFeature: GeneFeature,
    dFeature: Option<GeneFeature>,
    jFeature: GeneFeature,
    cFeature: Option<GeneFeature>)

  /** The feature to align for gene type `gt`, or `None` when `gt` has no aligner parameters. */
  function FeatureToAlign(p: AlignerParameters, gt: GeneType): Option<GeneFeature>
  {
    match gt
    case Variable => Some(p.vFeature)
    case Diversity => p.dFeature
    case Joining => Some(p.jFeature)
    case Constant => p.cFeature
  }

  predicate HasAlignerParameters(p: AlignerParameters, gt: GeneType)
  {
    FeatureToAlign(p, gt).Some?
  }

  /**
   * Whether the aligner can use `g`: its gene type is configured and the
   * feature to align for that type is available in the gene.
   */
  predicate ContainsRequiredFeature(p: AlignerParameters, g: Gene)
  {
    match FeatureToAlign(p, g.geneType)
    case None => false
    case Some(f) => f in g.available
  }

  /** The parameters after the V aligner's feature to align is set to `f`. */
  function WithVFeature(p: AlignerParameters, f: GeneFeature): (r: AlignerParameters)
    ensures FeatureToAlign(r, Variable) == Some(f)
    ensures forall gt :: gt != Variable ==> FeatureToAlign(r, gt) == FeatureToAlign(p, gt)
    ensures forall g: Gene :: g.geneType != Variable ==> (ContainsRequiredFeature(r, g) <==> ContainsRequiredFeature(p, g))
    ensures forall g: Gene :: g.geneType == Variable ==> (ContainsRequiredFeature(r, g) <==> f in g.available)
  {
    p.(vFeature := f)
  }
}
