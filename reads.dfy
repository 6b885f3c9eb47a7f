/** Reads, alignments and alignment results as the align action sees them. */
module Reads {
  import opened Wrappers
  import opened Genes

  /** A nucleotide sequence with its per-base qualities. */
  datatype SequenceWithQuality = SequenceWithQuality(sequence: string, quality: seq<int>)

  /** One mate of a read: its description line and its data. */
  datatype SingleRead = SingleRead(description: string, data: SequenceWithQuality)

  /** A read as produced by the reader: a unique id and one mate (single-end) or two (paired-end). */
  datatype SequenceRead = SequenceRead(id: int, mates: seq<SingleRead>)

  /** A scored match of a read against a reference gene. */
  datatype Hit = Hit(gene: string, score: int)

  /** The chain (locus) set an alignment is attributed to in the chain usage statistics. */
  type Chains = set<string>

  /**
   * An alignment of one read: its hits per gene type, the target sequences,
   * the chains it is attributed to, whether it is chimeric, and, when the
   * action attaches them, the read's original descriptions and sequences.
   */
  datatype Alignment = Alignment(
    readId: int,
    hits: map<GeneType, seq<Hit>>,
    targets: seq<SequenceWithQuality>,
    chains: Chains,
    chimera: bool,
    originalDescriptions: Option<seq<string>>,
    originalSequences: Option<seq<SequenceWithQuality>>)

  /** A read with its alignment, or `None` when the aligner found none. */
  datatype AlignmentResult = AlignmentResult(read: SequenceRead, alignment: Option<Alignment>)

  /** The description lines of the read's mates, mate by mate. */
  function Descriptions(r: SequenceRead): (ds: seq<string>)
    ensures |ds| == |r.mates|
  {
    seq(|r.mates|, i requires 0 <= i < |r.mates| => r.mates[i].description)
  }

  /** The data of the read's mates, mate by mate. */
  function Sequences(r: SequenceRead): (ss: seq<SequenceWithQuality>)
    ensures |ss| == |r.mates|
  {
    seq(|r.mates|, i requires 0 <= i < |r.mates| => r.mates[i].data)
  }

  /** Fills a fresh array with the description line of every mate of `r`. */
  method ExtractDescriptions(r: SequenceRead) returns (descrs: array<string>)
    ensures fresh(descrs)
    ensures descrs.Length == |r.mates|
    ensures forall i :: 0 <= i < |r.mates| ==> descrs[i] == r.mates[i].description
    ensures descrs[..] == Descriptions(r)
  {
    descrs := new string[|r.mates|];
    for i := 0 to |r.mates|
      invariant forall k :: 0 <= k < i ==> descrs[k] == r.mates[k].description
    {
      descrs[i] := r.mates[i].description;
    }
  }

  /** Fills a fresh array with the data of every mate of `r`. */
  method ExtractSequences(r: SequenceRead) returns (seqs: array<SequenceWithQuality>)
    ensures fresh(seqs)
    ensures seqs.Length == |r.mates|
    ensures forall i :: 0 <= i < |r.mates| ==> seqs[i] == r.mates[i].data
    ensures seqs[..] == Sequences(r)
  {
    seqs := new SequenceWithQuality[|r.mates|];
    for i := 0 to |r.mates|
      invariant forall k :: 0 <= k < i ==> seqs[k] == r.mates[k].data
    {
      seqs[i] := r.mates[i].data;
    }
  }

  /** The alignment of a result, when present, belongs to the result's read. */
  predicate WellFormed(r: AlignmentResult)
  {
    r.alignment.Some? ==> r.alignment.value.readId == r.read.id
  }

  /** Results in strictly increasing read-id order, as the ordering stage releases them. */
  predicate Ordered(rs: seq<AlignmentResult>)
  {
    forall i, j :: 0 <= i < j < |rs| ==> rs[i].read.id < rs[j].read.id
  }
}
