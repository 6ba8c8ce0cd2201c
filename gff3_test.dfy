/** The repository's single test, and the multi-valued attribute example of
    the filter documentation, stated as lemmas about the model. */
module Gff3Test {
  import opened Wrappers
  import opened Text
  import opened Gff3
  import opened Gff3Reader

  // A note on the shape of the lemmas below. The verifier checks facts
  // about string literals character by character, and a lemma that combines
  // several long literals exceeds its resource budget. So each literal fact
  // gets a lemma of its own, and lemmas that need a long constant take it as
  // a parameter equal to the constant, so that its text is not unfolded.

  /** Atoi reads a digit string written by Itoa (the text is a parameter so
      that the verifier does not expand the literal while proving it). */
  lemma AtoiOf(n: nat, text: string)
    requires n <= MaxInt && Itoa(n) == text
    ensures Atoi(text) == n
  {
    AtoiItoa(n);
  }

  /** The tag/value pairs of column 9 of the test's line. */
  const GencodePairs: seq<(string, string)> := [
    ("ID", "ENSG00000223972.5"),
    ("gene_id", "ENSG00000223972.5"),
    ("gene_type", "transcribed_unprocessed_pseudogene"),
    ("gene_status", "KNOWN"),
    ("gene_name", "DDX11L1"),
    ("level", "2"),
    ("havana_gene", "OTTHUMG00000000961.2")]

  /** Columns 1 to 8 of the test's line. */
  const GencodeFront: seq<string> := ["chr1", "HAVANA", "gene", "11869", "14409", ".", "+", "."]

  /** The nine columns of the test's line. */
  const GencodeColumns: seq<string> := GencodeFront + [Join(Segments(GencodePairs), ';')]

  /** The GENCODE line of the repository's reader test. */
  const GencodeLine: string := Join(GencodeColumns, '\t')

  const GencodeFeature: Feature := Feature(
    "chr1", "HAVANA", "gene", 11869, 14409, ".", '+', 0,
    map["ID" := "ENSG00000223972.5", "gene_id" := "ENSG00000223972.5",
        "gene_type" := "transcribed_unprocessed_pseudogene", "gene_status" := "KNOWN",
        "gene_name" := "DDX11L1", "level" := "2", "havana_gene" := "OTTHUMG00000000961.2"])

  /** Text with no `=`, `;` or TAB in it. The checks that the seven tags
      and values are plain are split by literal, for the reason given at the
      top of this module. */
  predicate Plain(text: string) {
    forall i :: 0 <= i < |text| ==> text[i] != '=' && text[i] != ';' && text[i] != '\t'
  }

  /** Plain tags and values hold none of the three separators. */
  lemma PlainPairs(pairs: seq<(string, string)>)
    requires forall i :: 0 <= i < |pairs| ==> Plain(pairs[i].0) && Plain(pairs[i].1)
    ensures forall i :: 0 <= i < |pairs| ==>
      '=' !in pairs[i].0 && '=' !in pairs[i].1 && ';' !in pairs[i].0 && ';' !in pairs[i].1
    ensures forall i :: 0 <= i < |pairs| ==> '\t' !in pairs[i].0 && '\t' !in pairs[i].1
  {
    forall i, c | 0 <= i < |pairs| && c in ['=', ';', '\t'] ensures c !in pairs[i].0 && c !in pairs[i].1 {
      assert Plain(pairs[i].0) && Plain(pairs[i].1);
    }
  }

  lemma GencodeTagsPlain()
    ensures forall i :: 0 <= i < |GencodePairs| ==> Plain(GencodePairs[i].0)
  {
  }

  lemma GencodeValuesPlain()
    ensures forall i :: 0 <= i < |GencodePairs| ==> Plain(GencodePairs[i].1)
  {
    GencodeIdsPlain();
    GencodeTypePlain();
    GencodeOtherValuesPlain();
  }

  lemma GencodeIdsPlain()
    ensures Plain(GencodePairs[0].1) && Plain(GencodePairs[1].1)
  {
  }

  lemma GencodeTypePlain()
    ensures Plain(GencodePairs[2].1)
  {
  }

  lemma GencodeOtherValuesPlain()
    ensures forall i :: 3 <= i < 7 ==> Plain(GencodePairs[i].1)
  {
  }

  /** No tag or value of the test's line holds `;`, `=` or a TAB. */
  lemma GencodePairsPlain(pairs: seq<(string, string)>)
    requires pairs == GencodePairs
    ensures forall i :: 0 <= i < |pairs| ==>
      '=' !in pairs[i].0 && '=' !in pairs[i].1 && ';' !in pairs[i].0 && ';' !in pairs[i].1
    ensures forall i :: 0 <= i < |pairs| ==> '\t' !in pairs[i].0 && '\t' !in pairs[i].1
  {
    GencodeTagsPlain();
    GencodeValuesPlain();
    PlainPairs(pairs);
  }

  /** Applying the pairs in order gives the expected map (no tag repeats). */
  lemma GencodePairsMap()
    ensures Updated(map[], GencodePairs) == GencodeFeature.attributes
  {
  }

  /** Column 9 of the test's line holds the seven expected attributes.
      (The pairs are a parameter so that the verifier does not evaluate the
      long constant text character by character.) */
  lemma GencodeAttributesParse(pairs: seq<(string, string)>)
    requires pairs == GencodePairs
    ensures Attributes(Join(Segments(pairs), ';')) == Success(GencodeFeature.attributes)
  {
    GencodePairsPlain(pairs);
    AttributesOfPairs(pairs);
    GencodePairsMap();
  }

  /** Columns 1 to 8 of the test's line are TAB-free, and the line is no comment. */
  lemma GencodeFrontPlain()
    ensures !IsComment(GencodeFront[0]) && |GencodeFront[6]| > 0 && GencodeFront[6][0] == '+'
    ensures forall i :: 0 <= i < 8 ==> '\t' !in GencodeFront[i]
  {
  }

  /** Column 9 of the test's line is TAB-free. */
  lemma GencodeAttributesTabFree(pairs: seq<(string, string)>)
    requires pairs == GencodePairs
    ensures '\t' !in Join(Segments(pairs), ';')
  {
    GencodePairsPlain(pairs);
    var segments := Segments(pairs);
    forall i | 0 <= i < |segments| ensures '\t' !in segments[i] {
      SegmentAt(pairs, i);
    }
    JoinAvoids(segments, ';', '\t');
  }

  /** The columns of the test's line are TAB-free, and the line is no comment. */
  lemma GencodeColumnsPlain(front: seq<string>, pairs: seq<(string, string)>)
    requires front == GencodeFront && pairs == GencodePairs
    ensures var cols := front + [Join(Segments(pairs), ';')];
      && |cols| == 9 && !IsComment(cols[0]) && |cols[6]| > 0 && cols[6][0] == '+'
      && forall i :: 0 <= i < 9 ==> '\t' !in cols[i]
  {
    GencodeFrontPlain();
    GencodeAttributesTabFree(pairs);
  }

  /** The start column reads as its value. */
  lemma GencodeStart()
    ensures Atoi("11869") == 11869
  {
    AtoiOf(11869, "11869");
  }

  /** The end column reads as its value. */
  lemma GencodeEnd()
    ensures Atoi("14409") == 14409
  {
    AtoiOf(14409, "14409");
  }

  /** The test's line is a record with the expected fields. */
  lemma GencodeLineParses(cols: seq<string>)
    requires cols == GencodeColumns
    ensures ParseLine(Join(cols, '\t')) == Row(GencodeFeature)
  {
    GencodeColumnsPlain(GencodeFront, GencodePairs);
    GencodeAttributesParse(GencodePairs);
    GencodeStart();
    GencodeEnd();
    assert LeadingDigits(Unsigned(".")) == "";
    AtoiNonDecimal(".");
    ParseLineOfColumns(cols);
  }

  /** The test itself: a reader over that one line returns a complete record
      holding the expected fields, and no error. */
  method ReadGencodeLine() returns (rec: Record?, err: Option<ReadError>)
    ensures rec != null && err == None && rec.Complete && rec.Value() == GencodeFeature
  {
    GencodeLineParses(GencodeColumns);
    var reader := new Reader([GencodeLine]);
    rec, err := reader.Read();
  }

  /** `tag=appris,basic,CCDS` passes a filter for "basic" and fails one for "nope". */
  lemma MultiValuedTag(f: Feature)
    requires "tag" in f.attributes && f.attributes["tag"] == "appris,basic,CCDS"
    ensures Step(f, true, ByAttribute("tag", "basic")) == Success(true)
    ensures Step(f, true, ByAttribute("tag", "nope")) == Success(false)
  {
    var values := ["appris", "basic", "CCDS"];
    assert Join(values, ',') == "appris,basic,CCDS";
    SplitJoin(values, ',');
  }

  /** A strand filter that fails is not undone by one that would pass. */
  lemma FailedStrandStaysFailed(f: Feature)
    requires f.strand == '+'
    ensures Chain(f, true, [ByField("strand", "+"), ByField("strand", "+")]) == Success(true)
    ensures Chain(f, true, [ByField("strand", "-"), ByField("strand", "+")]) == Success(false)
  {
    ChainIsConjunction(f, true, [ByField("strand", "+"), ByField("strand", "+")]);
    ChainIsConjunction(f, true, [ByField("strand", "-"), ByField("strand", "+")]);
  }
}
