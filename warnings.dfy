/** The warning lines the align action prints before aligning any read. */
module Warnings {
  import opened Wrappers
  import opened Genes

  /**
   * A printed warning, as data rather than text: the forced V feature (with
   * the counts behind the printed percentage), an excluded gene, or the
   * summary of further exclusions.
   */
  datatype Warning =
    | ForcedFeature(forced: GeneFeature, current: GeneFeature, absent: nat, totalV: nat)
    | ExcludedGene(name: string, functional: bool, feature: Option<GeneFeature>)
    | MoreExcluded(count: nat)
}
