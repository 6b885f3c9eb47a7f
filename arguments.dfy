/**
 * The argument helpers of the align action: the tri-state switches, the
 * positional arguments (one or two input files, then the output file),
 * validation, the report's input list and the choice of reader.
 */
module AlignArguments {
  import opened Wrappers
  import opened Text

  /**
   * The parsed options the align action reads. A switch that was not given
   * on the command line is `None` (the source's `null`).
   */
  datatype AlignParameters = AlignParameters(
    parameters: seq<string>,
    noMerge: Option<bool>,
    saveReadDescription: Option<bool>,
    saveOriginalReads: Option<bool>,
    nonFunctionalWarnings: Option<bool>,
    noWarnings: Option<bool>,
    writeAllResults: Option<bool>,
    failedReadsR1: Option<string>,
    failedReadsR2: Option<string>,
    limit: nat)

  /** A tri-state switch read as on: given, and given as true. */
  predicate IsOn(b: Option<bool>)
  {
    b.Some? && b.value
  }

  predicate GetNoMerge(a: AlignParameters) { IsOn(a.noMerge) }
  predicate GetSaveReadDescription(a: AlignParameters) { IsOn(a.saveReadDescription) }
  predicate GetSaveOriginalReads(a: AlignParameters) { IsOn(a.saveOriginalReads) }
  predicate PrintNonFunctionalWarnings(a: AlignParameters) { IsOn(a.nonFunctionalWarnings) }
  predicate GetWriteAllResults(a: AlignParameters) { IsOn(a.writeAllResults) }

  /** Warnings are printed unless they were switched off explicitly. */
  predicate PrintWarnings(a: AlignParameters) { !IsOn(a.noWarnings) }

  /**
   * The truth table of the tri-state getters: absent means off for every
   * switch, so warnings are printed by default, and a given value is taken
   * as it is.
   */
  lemma TriStateGetters(a: AlignParameters)
    ensures a.noMerge == None ==> !GetNoMerge(a)
    ensures a.saveReadDescription == None ==> !GetSaveReadDescription(a)
    ensures a.saveOriginalReads == None ==> !GetSaveOriginalReads(a)
    ensures a.nonFunctionalWarnings == None ==> !PrintNonFunctionalWarnings(a)
    ensures a.writeAllResults == None ==> !GetWriteAllResults(a)
    ensures a.noWarnings == None ==> PrintWarnings(a)
    ensures forall v: bool :: a.noWarnings == Some(v) ==> (PrintWarnings(a) <==> !v)
    ensures forall v: bool :: a.writeAllResults == Some(v) ==> (GetWriteAllResults(a) <==> v)
    ensures forall v: bool :: a.saveOriginalReads == Some(v) ==> (GetSaveOriginalReads(a) <==> v)
    ensures forall v: bool :: a.saveReadDescription == Some(v) ==> (GetSaveReadDescription(a) <==> v)
    ensures forall v: bool :: a.noMerge == Some(v) ==> (GetNoMerge(a) <==> v)
    ensures forall v: bool :: a.nonFunctionalWarnings == Some(v) ==> (PrintNonFunctionalWarnings(a) <==> v)
  {
  }

  /** Paired-end input: two input files before the output file. */
  predicate IsInputPaired(a: AlignParameters): (r: bool)
    ensures r <==> |InputFiles(a)| == 2
  {
    |a.parameters| == 3
  }

  /** The output file name: the last positional argument (`None` when there is none, where the source fails). */
  function GetOutputName(a: AlignParameters): (r: Option<string>)
    ensures r.Some? <==> |a.parameters| >= 1
    ensures r.Some? ==> a.parameters == InputFiles(a) + [r.value]
  {
    if |a.parameters| == 0 then None else Some(a.parameters[|a.parameters| - 1])
  }

  const TooManyInputFiles: string := "Too many input files."
  const NoOutputFile: string := "No output file."
  const WrongFailedReadsInput: string := "Wrong input for --not-aligned-R1,2"
  const FailedReadsR2NotSet: string := "Option --not-aligned-R2 is not set."

  /**
   * Argument validation: the error message of the first failed check, or
   * `None` when the arguments are accepted. Accepted are exactly two or three
   * positional arguments, with a failed-reads R2 path given exactly when an
   * R1 path is given and the input is paired.
   */
  function Validate(a: AlignParameters): (r: Option<string>)
    ensures r.None? <==>
      && 2 <= |a.parameters| <= 3
      && (a.failedReadsR2.Some? <==> a.failedReadsR1.Some? && IsInputPaired(a))
    ensures |a.parameters| > 3 ==> r == Some(TooManyInputFiles)
    ensures |a.parameters| < 2 ==> r == Some(NoOutputFile)
    ensures 2 <= |a.parameters| <= 3 && a.failedReadsR1.None? && a.failedReadsR2.Some? ==> r == Some(WrongFailedReadsInput)
    ensures 2 <= |a.parameters| <= 3 && a.failedReadsR1.Some? && (a.failedReadsR2.Some? != IsInputPaired(a)) ==>
      r == Some(FailedReadsR2NotSet)
  {
    if |a.parameters| > 3 then Some(TooManyInputFiles)
    else if |a.parameters| < 2 then Some(NoOutputFile)
    else if a.failedReadsR2.Some? && a.failedReadsR1.None? then Some(WrongFailedReadsInput)
    else if a.failedReadsR1.Some? && (a.failedReadsR2.Some? != IsInputPaired(a)) then Some(FailedReadsR2NotSet)
    else None
  }

  /** The input files: every positional argument but the last. */
  function InputFiles(a: AlignParameters): seq<string>
  {
    if |a.parameters| == 0 then [] else a.parameters[..|a.parameters| - 1]
  }

  /**
   * The input files joined with ',' for the report. The source reads the
   * arguments one by one and fails when it runs past the end, which happens
   * exactly when there are fewer than two arguments.
   */
  method GetInputForReport(a: AlignParameters) returns (r: Option<string>)
    ensures r.None? <==> |a.parameters| < 2
    ensures r.Some? ==> r.value == Join(InputFiles(a), ',')
  {
    var parameters := a.parameters;
    var builder := "";
    var i := 0;
    while true
      invariant 0 <= i <= |parameters|
      invariant |parameters| >= 2 ==> i <= |parameters| - 2
      invariant builder == if i == 0 then "" else Join(parameters[..i], ',') + [',']
      decreases |parameters| - i
    {
      if i >= |parameters| {
        return None;
      }
      assert parameters[..i + 1][..i] == parameters[..i];
      builder := builder + parameters[i];
      if i == |parameters| - 2 {
        break;
      }
      builder := builder + [','];
      i := i + 1;
    }
    return Some(builder);
  }

  /**
   * For accepted arguments the report's input list and the output name make
   * up all the arguments, and the input list gives back the input files when
   * no input file name contains ','.
   */
  lemma ReportInputsRoundTrip(a: AlignParameters)
    requires Validate(a).None?
    ensures GetOutputName(a) == Some(a.parameters[|a.parameters| - 1])
    ensures Join(a.parameters, ',') == Join(InputFiles(a), ',') + [','] + GetOutputName(a).value
    ensures IsInputPaired(a) <==> |InputFiles(a)| == 2
    ensures (forall k :: 0 <= k < |InputFiles(a)| ==> ',' !in InputFiles(a)[k]) ==>
      SplitOn(Join(InputFiles(a), ','), ',') == InputFiles(a)
  {
    var inputs, output := InputFiles(a), a.parameters[|a.parameters| - 1];
    assert a.parameters == inputs + [output];
    JoinAppend(inputs, output, ',');
    if forall k :: 0 <= k < |inputs| ==> ',' !in inputs[k] {
      SplitJoin(inputs, ',');
    }
  }

  /** The reader the action opens for its input. */
  datatype ReaderKind = PairedFastq(r1: string, r2: string) | Fasta(path: string) | SingleFastq(path: string)

  /** Why no reader can be chosen: no input argument at all, or a file name made only of dots. */
  datatype ReaderError = MissingInputFile | NoNameComponent

  /**
   * The last '.'-separated component of a file name, with Java's split
   * semantics (trailing empty pieces dropped); `None` when nothing is left,
   * which is where the source fails.
   */
  function LastDotComponent(path: string): Option<string>
  {
    var parts := JavaSplit(path, '.');
    if |parts| == 0 then None else Some(parts[|parts| - 1])
  }

  /**
   * The reader choice: paired FASTQ for paired input, FASTA when the last
   * '.'-separated component of the input name is "fasta", single FASTQ
   * otherwise.
   */
  function CreateReader(a: AlignParameters): (r: Result<ReaderKind, ReaderError>)
    ensures IsInputPaired(a) ==> r == Ok(PairedFastq(a.parameters[0], a.parameters[1]))
    ensures !IsInputPaired(a) && r.Ok? ==>
      |a.parameters| > 0 && LastDotComponent(a.parameters[0]).Some? &&
      (r.value.Fasta? <==> LastDotComponent(a.parameters[0]) == Some("fasta")) &&
      (r.value.Fasta? || r.value.SingleFastq?) && r.value.path == a.parameters[0]
    ensures r.Err? <==> !IsInputPaired(a) && (|a.parameters| == 0 || LastDotComponent(a.parameters[0]).None?)
  {
    if IsInputPaired(a) then Ok(PairedFastq(a.parameters[0], a.parameters[1]))
    else if |a.parameters| == 0 then Err(MissingInputFile)
    else
      match LastDotComponent(a.parameters[0])
      case None => Err(NoNameComponent)
      case Some(ext) => if ext == "fasta" then Ok(Fasta(a.parameters[0])) else Ok(SingleFastq(a.parameters[0]))
  }

  /** The last component of a name with a non-empty extension after its last dot is that extension. */
  lemma ExtensionComponent(stem: string, ext: string)
    requires ext != [] && '.' !in ext
    ensures LastDotComponent(stem + ['.'] + ext) == Some(ext)
  {
    SplitOnAppend(stem, ext, '.');
    SplitOnWithoutSep(ext, '.');
    var parts := SplitOn(stem + ['.'] + ext, '.');
    assert parts == SplitOn(stem, '.') + [ext];
    assert DropTrailingEmpty(parts) == parts;
  }

  /** A name ending in ".fasta" is read as FASTA, whatever comes before. */
  lemma FastaExtension(stem: string)
    ensures LastDotComponent(stem + ".fasta") == Some("fasta")
  {
    var ext := "fasta";
    assert stem + ".fasta" == stem + ['.'] + ext;
    ExtensionComponent(stem, ext);
  }

  /** Trailing dots do not change the choice, since Java's split drops trailing empty pieces. */
  lemma TrailingDotIgnored(path: string)
    requires path != []
    ensures LastDotComponent(path + ".") == LastDotComponent(path)
  {
    assert path + "." == path + ['.'];
    JavaSplitTrailingSep(path, '.');
  }

  /** A name without a dot is its own last component: only a file named "fasta" is FASTA then. */
  lemma NameWithoutDot(path: string)
    requires '.' !in path
    ensures LastDotComponent(path) == Some(path)
  {
    SplitOnWithoutSep(path, '.');
  }

  /** A non-empty name made only of dots has no component; the source fails on it. */
  lemma OnlyDotsHaveNoComponent(path: string)
    requires path != []
    requires forall k :: 0 <= k < |path| ==> path[k] == '.'
    ensures LastDotComponent(path) == None
  {
    SplitOnOnlySeps(path, '.');
  }

  /** Unpaired input named only by dots has no reader; a paired input's names are never split. */
  lemma OnlyDotsReaderFails(a: AlignParameters)
    requires !IsInputPaired(a) && |a.parameters| > 0 && a.parameters[0] != []
    requires forall k :: 0 <= k < |a.parameters[0]| ==> a.parameters[0][k] == '.'
    ensures CreateReader(a) == Err(NoNameComponent)
  {
    OnlyDotsHaveNoComponent(a.parameters[0]);
  }
}
