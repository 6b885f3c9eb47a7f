/**
 * Registration of the library genes with the aligner after the feature
 * correction: genes lacking the required feature are excluded (with at most
 * one per-gene warning and a summary line), and a run with no usable V or J
 * gene is aborted.
 */
module GeneRegistration {
  import opened Wrappers
  import opened Genes
  import opened FeatureCorrection
  import opened Warnings

  const NoVGenesMessage: string := "No V genes to align. Aborting execution. See warnings for more info (turn warnings by adding -w option)."
  const NoJGenesMessage: string := "No J genes to align. Aborting execution. See warnings for more info (turn warnings by adding -w option)."

  /** Whether excluding `g` is reported, given the two warning switches. */
  predicate Reported(g: Gene, printWarnings: bool, printNonFunctionalWarnings: bool)
  {
    printWarnings && (g.functional || printNonFunctionalWarnings)
  }

  /** The genes of `genes` that the aligner can use under `p`, in library order. */
  function Registered(p: AlignerParameters, genes: seq<Gene>): seq<Gene>
    decreases |genes|
  {
    if genes == [] then []
    else
      var g := genes[|genes| - 1];
      Registered(p, genes[..|genes| - 1]) + (if ContainsRequiredFeature(p, g) then [g] else [])
  }

  /** Number of excluded genes whose exclusion is reported. */
  function ExcludedReportedCount(p: AlignerParameters, genes: seq<Gene>, printWarnings: bool, printNonFunctionalWarnings: bool): nat
    decreases |genes|
  {
    if genes == [] then 0
    else
      var g := genes[|genes| - 1];
      ExcludedReportedCount(p, genes[..|genes| - 1], printWarnings, printNonFunctionalWarnings)
        + (if !ContainsRequiredFeature(p, g) && Reported(g, printWarnings, printNonFunctionalWarnings) then 1 else 0)
  }

  /** Number of excluded non-functional genes. */
  function ExcludedNonFunctionalCount(p: AlignerParameters, genes: seq<Gene>): nat
    decreases |genes|
  {
    if genes == [] then 0
    else
      var g := genes[|genes| - 1];
      ExcludedNonFunctionalCount(p, genes[..|genes| - 1]) + (if !ContainsRequiredFeature(p, g) && !g.functional then 1 else 0)
  }

  /** The warning for an excluded gene, naming the feature it lacks. */
  function ExclusionWarning(p: AlignerParameters, g: Gene): Warning
  {
    ExcludedGene(g.name, g.functional, FeatureToAlign(p, g.geneType))
  }

  /**
   * The per-gene warnings: a reported exclusion prints a line only while the
   * reported count, after counting it, is below 2.
   */
  function GeneWarnings(p: AlignerParameters, genes: seq<Gene>, printWarnings: bool, printNonFunctionalWarnings: bool): seq<Warning>
    decreases |genes|
  {
    if genes == [] then []
    else
      var init := genes[..|genes| - 1];
      var g := genes[|genes| - 1];
      GeneWarnings(p, init, printWarnings, printNonFunctionalWarnings)
        + (if !ContainsRequiredFeature(p, g) && Reported(g, printWarnings, printNonFunctionalWarnings)
              && ExcludedReportedCount(p, init, printWarnings, printNonFunctionalWarnings) + 1 < 2
           then [ExclusionWarning(p, g)] else [])
  }

  /** The summary line, printed only when more than one exclusion was reported. */
  function SummaryWarning(reported: nat): seq<Warning>
  {
    if reported > 1 then [MoreExcluded(reported - 1)] else []
  }

  /** Every warning line of the registration pass, in print order. */
  function WarningLog(p: AlignerParameters, genes: seq<Gene>, printWarnings: bool, printNonFunctionalWarnings: bool): seq<Warning>
  {
    GeneWarnings(p, genes, printWarnings, printNonFunctionalWarnings)
      + SummaryWarning(ExcludedReportedCount(p, genes, printWarnings, printNonFunctionalWarnings))
  }

  /** The registered genes of type `gt`: what the aligner offers as its V or J genes to align. */
  function GenesOfType(registered: seq<Gene>, gt: GeneType): seq<Gene>
    decreases |registered|
  {
    if registered == [] then []
    else
      var g := registered[|registered| - 1];
      GenesOfType(registered[..|registered| - 1], gt) + (if g.geneType == gt then [g] else [])
  }

  lemma {:induction false} GenesOfTypeEmpty(registered: seq<Gene>, gt: GeneType)
    ensures GenesOfType(registered, gt) == [] <==> forall i :: 0 <= i < |registered| ==> registered[i].geneType != gt
    decreases |registered|
  {
    if registered != [] {
      var init := registered[..|registered| - 1];
      GenesOfTypeEmpty(init, gt);
      assert forall i :: 0 <= i < |init| ==> init[i] == registered[i];
    }
  }

  /**
   * The fatal precondition: the run is aborted when no V gene, or else no J
   * gene, was registered.
   */
  function FatalCheck(registered: seq<Gene>): (r: Option<string>)
    ensures r.None? <==>
      (exists i :: 0 <= i < |registered| && registered[i].geneType == Variable) &&
      (exists j :: 0 <= j < |registered| && registered[j].geneType == Joining)
    ensures r == Some(NoVGenesMessage) <==> forall i :: 0 <= i < |registered| ==> registered[i].geneType != Variable
    ensures r == Some(NoJGenesMessage) <==>
      (exists i :: 0 <= i < |registered| && registered[i].geneType == Variable) &&
      (forall j :: 0 <= j < |registered| ==> registered[j].geneType != Joining)
  {
    GenesOfTypeEmpty(registered, Variable);
    GenesOfTypeEmpty(registered, Joining);
    if GenesOfType(registered, Variable) == [] then Some(NoVGenesMessage)
    else if GenesOfType(registered, Joining) == [] then Some(NoJGenesMessage)
    else None
  }

  /** Registration keeps exactly the genes containing the required feature, and only genes of the library. */
  lemma {:induction false} RegisteredExactly(p: AlignerParameters, genes: seq<Gene>)
    ensures forall g :: g in Registered(p, genes) <==> g in genes && ContainsRequiredFeature(p, g)
    ensures |Registered(p, genes)| <= |genes|
    decreases |genes|
  {
    if genes != [] {
      var init := genes[..|genes| - 1];
      RegisteredExactly(p, init);
      assert genes == init + [genes[|genes| - 1]];
    }
  }

  /**
   * How the counters relate to the number of excluded genes: nothing is
   * counted as reported when warnings are off; every exclusion is reported
   * when non-functional warnings are on as well; and with only functional
   * warnings on, reported and non-functional exclusions together are all
   * the exclusions.
   */
  lemma {:induction false} ExclusionCounts(p: AlignerParameters, genes: seq<Gene>, printWarnings: bool, printNonFunctionalWarnings: bool)
    ensures var excluded := |genes| - |Registered(p, genes)|;
      && |Registered(p, genes)| <= |genes|
      && ExcludedReportedCount(p, genes, printWarnings, printNonFunctionalWarnings) <= excluded
      && ExcludedNonFunctionalCount(p, genes) <= excluded
      && (!printWarnings ==> ExcludedReportedCount(p, genes, printWarnings, printNonFunctionalWarnings) == 0)
      && (printWarnings && printNonFunctionalWarnings ==>
            ExcludedReportedCount(p, genes, printWarnings, printNonFunctionalWarnings) == excluded)
      && (printWarnings && !printNonFunctionalWarnings ==>
            ExcludedReportedCount(p, genes, printWarnings, printNonFunctionalWarnings) + ExcludedNonFunctionalCount(p, genes) == excluded)
    decreases |genes|
  {
    if genes != [] {
      ExclusionCounts(p, genes[..|genes| - 1], printWarnings, printNonFunctionalWarnings);
    }
  }

  /**
   * `w` is the single warning about the first gene `genes[k]` whose exclusion
   * is reported: none of the genes before it is a reported exclusion.
   */
  ghost predicate FirstReportedWarned(p: AlignerParameters, genes: seq<Gene>, printWarnings: bool, printNonFunctionalWarnings: bool, w: seq<Warning>)
  {
    exists k :: 0 <= k < |genes| && !ContainsRequiredFeature(p, genes[k]) && Reported(genes[k], printWarnings, printNonFunctionalWarnings)
      && ExcludedReportedCount(p, genes[..k], printWarnings, printNonFunctionalWarnings) == 0
      && w == [ExclusionWarning(p, genes[k])]
  }

  /** The first reported exclusion of a prefix stays the first one once a gene is appended. */
  lemma FirstReportedStep(p: AlignerParameters, genes: seq<Gene>, printWarnings: bool, printNonFunctionalWarnings: bool)
    requires genes != []
    requires var init := genes[..|genes| - 1];
      ExcludedReportedCount(p, init, printWarnings, printNonFunctionalWarnings) >= 1 ==>
      FirstReportedWarned(p, init, printWarnings, printNonFunctionalWarnings, GeneWarnings(p, init, printWarnings, printNonFunctionalWarnings))
    requires var init := genes[..|genes| - 1];
      ExcludedReportedCount(p, init, printWarnings, printNonFunctionalWarnings) == 0 ==>
      GeneWarnings(p, init, printWarnings, printNonFunctionalWarnings) == []
    ensures ExcludedReportedCount(p, genes, printWarnings, printNonFunctionalWarnings) >= 1 ==>
      FirstReportedWarned(p, genes, printWarnings, printNonFunctionalWarnings, GeneWarnings(p, genes, printWarnings, printNonFunctionalWarnings))
  {
    var init := genes[..|genes| - 1];
    var last := |genes| - 1;
    if ExcludedReportedCount(p, init, printWarnings, printNonFunctionalWarnings) >= 1 {
      var k :| 0 <= k < |init| && !ContainsRequiredFeature(p, init[k]) && Reported(init[k], printWarnings, printNonFunctionalWarnings)
        && ExcludedReportedCount(p, init[..k], printWarnings, printNonFunctionalWarnings) == 0
        && GeneWarnings(p, init, printWarnings, printNonFunctionalWarnings) == [ExclusionWarning(p, init[k])];
      assert genes[k] == init[k] && genes[..k] == init[..k];
    } else if !ContainsRequiredFeature(p, genes[last]) && Reported(genes[last], printWarnings, printNonFunctionalWarnings) {
      assert genes[..last] == init;
    }
  }

  /**
   * At most one per-gene warning is printed: none when no exclusion is
   * reported, otherwise exactly one, about the first gene of the library
   * whose exclusion is reported.
   */
  lemma {:induction false} AtMostOneGeneWarning(p: AlignerParameters, genes: seq<Gene>, printWarnings: bool, printNonFunctionalWarnings: bool)
    ensures var w := GeneWarnings(p, genes, printWarnings, printNonFunctionalWarnings);
      var n := ExcludedReportedCount(p, genes, printWarnings, printNonFunctionalWarnings);
      && (n == 0 ==> w == [])
      && (n >= 1 ==> FirstReportedWarned(p, genes, printWarnings, printNonFunctionalWarnings, w))
    decreases |genes|
  {
    if genes != [] {
      AtMostOneGeneWarning(p, genes[..|genes| - 1], printWarnings, printNonFunctionalWarnings);
      FirstReportedStep(p, genes, printWarnings, printNonFunctionalWarnings);
    }
  }

  /**
   * The whole warning log: empty when nothing is reported, one gene line when
   * one exclusion is reported, and for `n > 1` reported exclusions one gene
   * line followed by a summary counting the other `n - 1`.
   */
  lemma WarningLogShape(p: AlignerParameters, genes: seq<Gene>, printWarnings: bool, printNonFunctionalWarnings: bool)
    ensures var log := WarningLog(p, genes, printWarnings, printNonFunctionalWarnings);
      var n := ExcludedReportedCount(p, genes, printWarnings, printNonFunctionalWarnings);
      && (n == 0 <==> log == [])
      && (n == 1 ==> |log| == 1 && log[0].ExcludedGene?)
      && (n > 1 ==> |log| == 2 && log[0].ExcludedGene? && log[1] == MoreExcluded(n - 1))
  {
    AtMostOneGeneWarning(p, genes, printWarnings, printNonFunctionalWarnings);
  }

  /**
   * After switching the V feature to the correcting one, every V gene counted
   * as correctable is registered.
   */
  lemma {:induction false} CorrectableGenesRegistered(p: AlignerParameters, genes: seq<Gene>)
    ensures CountV(Registered(WithVFeature(p, CorrectingFeature(p.vFeature)), genes)) >= CountHasVRegion(p, genes)
    decreases |genes|
  {
    if genes != [] {
      var q := WithVFeature(p, CorrectingFeature(p.vFeature));
      var init, g := genes[..|genes| - 1], genes[|genes| - 1];
      CorrectableGenesRegistered(p, init);
      if ContainsRequiredFeature(q, g) {
        assert Registered(q, genes) == Registered(q, init) + [g];
        CountVAppend(Registered(q, init), g);
      } else {
        assert Registered(q, genes) == Registered(q, init);
        assert g.geneType == Variable ==> CorrectingFeature(p.vFeature) !in g.available;
        assert CountHasVRegion(p, genes) == CountHasVRegion(p, init);
      }
    }
  }

  /**
   * A correction that fires leaves the aligner at least one V gene, so it
   * never leads to the "no V genes" abort.
   */
  lemma CorrectionKeepsVGenes(p: AlignerParameters, genes: seq<Gene>)
    requires CorrectionFires(p, genes)
    ensures FatalCheck(Registered(Corrected(p, genes), genes)) != Some(NoVGenesMessage)
  {
    CorrectableGenesRegistered(p, genes);
    var reg := Registered(Corrected(p, genes), genes);
    CountVWitness(reg);
  }

  lemma {:induction false} CountVWitness(genes: seq<Gene>)
    requires CountV(genes) >= 1
    ensures exists i :: 0 <= i < |genes| && genes[i].geneType == Variable
    decreases |genes|
  {
    var init := genes[..|genes| - 1];
    if genes[|genes| - 1].geneType != Variable {
      CountVWitness(init);
      var i :| 0 <= i < |init| && init[i].geneType == Variable;
      assert genes[i] == init[i];
    }
  }

  /**
   * The registration pass: registers exactly the genes containing the
   * required feature, counts reported and non-functional exclusions, and
   * produces the warning lines in print order.
   */
  method RegisterGenes(p: AlignerParameters, genes: seq<Gene>, printWarnings: bool, printNonFunctionalWarnings: bool)
    returns (registered: seq<Gene>, excludedReported: nat, excludedNonFunctional: nat, log: seq<Warning>)
    ensures registered == Registered(p, genes)
    ensures excludedReported == ExcludedReportedCount(p, genes, printWarnings, printNonFunctionalWarnings)
    ensures excludedNonFunctional == ExcludedNonFunctionalCount(p, genes)
    ensures log == WarningLog(p, genes, printWarnings, printNonFunctionalWarnings)
  {
    registered, excludedReported, excludedNonFunctional, log := [], 0, 0, [];
    for i := 0 to |genes|
      invariant registered == Registered(p, genes[..i])
      invariant excludedReported == ExcludedReportedCount(p, genes[..i], printWarnings, printNonFunctionalWarnings)
      invariant excludedNonFunctional == ExcludedNonFunctionalCount(p, genes[..i])
      invariant log == GeneWarnings(p, genes[..i], printWarnings, printNonFunctionalWarnings)
    {
      assert genes[..i + 1][..i] == genes[..i];
      var gene := genes[i];
      if !ContainsRequiredFeature(p, gene) {
        if printWarnings && (gene.functional || printNonFunctionalWarnings) {
          excludedReported := excludedReported + 1;
          if excludedReported < 2 {
            log := log + [ExclusionWarning(p, gene)];
          }
        }
        if !gene.functional {
          excludedNonFunctional := excludedNonFunctional + 1;
        }
        continue;
      }
      registered := registered + [gene];
    }
    assert genes[..|genes|] == genes;
    if excludedReported > 1 {
      log := log + [MoreExcluded(excludedReported - 1)];
    }
  }
}
