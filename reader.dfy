/** The GFF3 line reader: one line of text becomes a comment, a malformed
    line or a Feature, and a Reader pulls lines from its input until it has
    a record or an error, skipping comment lines on the way. The input is a
    sequence of lines with their line terminators already removed; the
    Reader's line counter is also its cursor (line k is input[k - 1]). */
module Gff3Reader {
  import opened Wrappers
  import opened Text
  import opened Gff3

  /** Why a line that is not a comment does not give a record. */
  datatype LineError =
    | EmptyLine                         // no first byte to look at
    | WrongColumnCount(count: nat)      // the TAB split does not give nine columns
    | EmptyStrand                       // column 7 has no first byte
    | AttributeWithoutEquals(segment: string)  // a `;`-segment of column 9 lacks `=`

  /** The errors Read reports to its caller. */
  datatype ReadError =
    | EndOfInput
    | Malformed(lineNo: nat, text: string, reason: LineError)

  /** What one line is. */
  datatype LineKind = Comment | Bad(reason: LineError) | Row(feature: Feature)

  predicate IsComment(text: string) {
    |text| > 0 && text[0] == '#'
  }

  // ---------------------------------------------------------------------
  // Column 9: the attribute map
  // ---------------------------------------------------------------------

  /** The tag of a `tag=value` segment: the text before the first `=`. */
  function KeyOf(segment: string): (tag: string) {
    Split(segment, '=')[0]
  }

  /** The value of a `tag=value` segment: the text between the first `=` and
      the next one (anything after a second `=` is dropped). */
  function ValueOf(segment: string): (value: string) {
    var kv := Split(segment, '=');
    if |kv| >= 2 then kv[1] else ""
  }

  /** The map `m` extended by the segments in order; a later tag overwrites
      an earlier one, and the first segment without `=` is an error. */
  function AttributesFrom(m: map<string, string>, segments: seq<string>): (r: Result<map<string, string>, LineError>)
    decreases |segments|
  {
    if |segments| == 0 then Success(m)
    else
      if |Split(segments[0], '=')| < 2 then Failure(AttributeWithoutEquals(segments[0]))
      else AttributesFrom(m[KeyOf(segments[0]) := ValueOf(segments[0])], segments[1..])
  }

  /** The attribute map of column 9. */
  function Attributes(column: string): (r: Result<map<string, string>, LineError>) {
    AttributesFrom(map[], Split(column, ';'))
  }

  /** Every segment is of the form `tag=value`. */
  predicate AllTagged(segments: seq<string>) {
    forall i :: 0 <= i < |segments| ==> '=' in segments[i]
  }

  /** The map is built exactly when every segment holds an `=`. */
  lemma {:induction false} AttributesSucceedIff(m: map<string, string>, segments: seq<string>)
    ensures AttributesFrom(m, segments).Success? <==> AllTagged(segments)
    decreases |segments|
  {
    if |segments| > 0 {
      SplitHasSeparator(segments[0], '=');
      if |Split(segments[0], '=')| >= 2 {
        AttributesSucceedIff(m[KeyOf(segments[0]) := ValueOf(segments[0])], segments[1..]);
        assert forall i :: 1 <= i < |segments| ==> segments[i] == segments[1..][i - 1];
      }
    }
  }

  /** The error names the first segment without `=`. */
  lemma {:induction false} AttributesFailAtFirst(m: map<string, string>, segments: seq<string>)
    requires AttributesFrom(m, segments).Failure?
    ensures exists i :: 0 <= i < |segments| && '=' !in segments[i]
              && AttributesFrom(m, segments).error == AttributeWithoutEquals(segments[i])
              && forall j :: 0 <= j < i ==> '=' in segments[j]
    decreases |segments|
  {
    SplitHasSeparator(segments[0], '=');
    if |Split(segments[0], '=')| >= 2 {
      AttributesFailAtFirst(m[KeyOf(segments[0]) := ValueOf(segments[0])], segments[1..]);
      var i :| 0 <= i < |segments[1..]| && '=' !in segments[1..][i]
               && AttributesFrom(m[KeyOf(segments[0]) := ValueOf(segments[0])], segments[1..]).error == AttributeWithoutEquals(segments[1..][i])
               && forall j :: 0 <= j < i ==> '=' in segments[1..][j];
      assert forall j :: 1 <= j < i + 1 ==> segments[j] == segments[1..][j - 1];
      assert segments[i + 1] == segments[1..][i];
    } else {
      assert '=' !in segments[0];
    }
  }

  /** No later segment has the same tag as segment `i`. */
  ghost predicate LastWithKey(segments: seq<string>, i: int)
    requires 0 <= i < |segments|
  {
    forall j :: i < j < |segments| ==> KeyOf(segments[j]) != KeyOf(segments[i])
  }

  /** Keys that no segment mentions keep their earlier value. */
  lemma {:induction false} AttributesKeepOthers(m: map<string, string>, segments: seq<string>, built: map<string, string>, k: string)
    requires AttributesFrom(m, segments) == Success(built)
    requires k in m && forall i :: 0 <= i < |segments| ==> KeyOf(segments[i]) != k
    ensures k in built && built[k] == m[k]
    decreases |segments|
  {
    if |segments| > 0 {
      assert KeyOf(segments[0]) != k;
      assert forall i :: 0 <= i < |segments[1..]| ==> segments[1..][i] == segments[i + 1];
      AttributesKeepOthers(m[KeyOf(segments[0]) := ValueOf(segments[0])], segments[1..], built, k);
    }
  }

  /** The built map's keys are the earlier keys and the segments' tags. */
  lemma {:induction false} AttributesKeys(m: map<string, string>, segments: seq<string>, built: map<string, string>)
    requires AttributesFrom(m, segments) == Success(built)
    ensures forall k :: k in built <==> k in m || exists i :: 0 <= i < |segments| && KeyOf(segments[i]) == k
    decreases |segments|
  {
    if |segments| > 0 {
      var rest := segments[1..];
      AttributesKeys(m[KeyOf(segments[0]) := ValueOf(segments[0])], rest, built);
      forall k ensures k in built <==> k in m || exists i :: 0 <= i < |segments| && KeyOf(segments[i]) == k {
        if exists i :: 0 <= i < |rest| && KeyOf(rest[i]) == k {
          var i :| 0 <= i < |rest| && KeyOf(rest[i]) == k;
          assert segments[i + 1] == rest[i];
        }
        if exists i :: 0 <= i < |segments| && KeyOf(segments[i]) == k {
          var i :| 0 <= i < |segments| && KeyOf(segments[i]) == k;
          if i > 0 {
            assert rest[i - 1] == segments[i];
          }
        }
      }
    }
  }

  /** A tag maps to the value of the last segment that carries it. */
  lemma {:induction false} AttributesLastWins(m: map<string, string>, segments: seq<string>, built: map<string, string>, i: nat)
    requires AttributesFrom(m, segments) == Success(built)
    requires i < |segments| && LastWithKey(segments, i)
    ensures KeyOf(segments[i]) in built && built[KeyOf(segments[i])] == ValueOf(segments[i])
    decreases |segments|
  {
    var rest := segments[1..];
    if i > 0 {
      assert rest[i - 1] == segments[i];
      assert LastWithKey(rest, i - 1) by {
        forall j | i - 1 < j < |rest| ensures KeyOf(rest[j]) != KeyOf(rest[i - 1]) {
          assert rest[j] == segments[j + 1];
        }
      }
      AttributesLastWins(m[KeyOf(segments[0]) := ValueOf(segments[0])], rest, built, i - 1);
    } else {
      forall j | 0 <= j < |rest| ensures KeyOf(rest[j]) != KeyOf(segments[0]) {
        assert rest[j] == segments[j + 1];
      }
      AttributesKeepOthers(m[KeyOf(segments[0]) := ValueOf(segments[0])], rest, built, KeyOf(segments[0]));
    }
  }

  /** `tag=value` splits into its tag and its value. */
  lemma TagValue(tag: string, value: string)
    requires '=' !in tag && '=' !in value
    ensures Split(tag + "=" + value, '=') == [tag, value]
  {
    SplitJoin([tag, value], '=');
    assert Join([tag, value], '=') == tag + "=" + value by {
      assert [tag, value][1..] == [value];
    }
  }

  /** The `tag=value` segments that write out a list of tag/value pairs. */
  function Segments(pairs: seq<(string, string)>): (segments: seq<string>)
    ensures |segments| == |pairs|
  {
    if |pairs| == 0 then [] else [pairs[0].0 + "=" + pairs[0].1] + Segments(pairs[1..])
  }

  /** The map `m` updated with the pairs in order. */
  function Updated(m: map<string, string>, pairs: seq<(string, string)>): (updated: map<string, string>)
    decreases |pairs|
  {
    if |pairs| == 0 then m else Updated(m[pairs[0].0 := pairs[0].1], pairs[1..])
  }

  /** Reading back written-out pairs performs their updates in order,
      provided no tag or value holds `=`. */
  lemma {:induction false} AttributesOfSegments(m: map<string, string>, pairs: seq<(string, string)>)
    requires forall i :: 0 <= i < |pairs| ==> '=' !in pairs[i].0 && '=' !in pairs[i].1
    ensures AttributesFrom(m, Segments(pairs)) == Success(Updated(m, pairs))
    decreases |pairs|
  {
    if |pairs| > 0 {
      TagValue(pairs[0].0, pairs[0].1);
      assert Segments(pairs)[1..] == Segments(pairs[1..]);
      AttributesOfSegments(m[pairs[0].0 := pairs[0].1], pairs[1..]);
    }
  }

  /** A column 9 written out from pairs whose tags and values hold neither
      `;` nor `=` reads back as those pairs applied in order. */
  lemma AttributesOfPairs(pairs: seq<(string, string)>)
    requires |pairs| >= 1
    requires forall i :: 0 <= i < |pairs| ==>
               '=' !in pairs[i].0 && '=' !in pairs[i].1 && ';' !in pairs[i].0 && ';' !in pairs[i].1
    ensures Attributes(Join(Segments(pairs), ';')) == Success(Updated(map[], pairs))
  {
    var segments := Segments(pairs);
    forall i | 0 <= i < |segments| ensures ';' !in segments[i] {
      SegmentAt(pairs, i);
    }
    SplitJoin(segments, ';');
    AttributesOfSegments(map[], pairs);
  }

  lemma {:induction false} SegmentAt(pairs: seq<(string, string)>, i: nat)
    requires i < |pairs|
    ensures Segments(pairs)[i] == pairs[i].0 + "=" + pairs[i].1
    decreases |pairs|
  {
    if i > 0 {
      SegmentAt(pairs[1..], i - 1);
    }
  }

  /** The source's attribute loop: fill a fresh map one segment at a time. */
  method BuildAttributes(column: string) returns (r: Result<map<string, string>, LineError>)
    ensures r == Attributes(column)
  {
    var segments := Split(column, ';');
    var m: map<string, string> := map[];
    var i := 0;
    while i < |segments|
      invariant 0 <= i <= |segments|
      invariant AttributesFrom(m, segments[i..]) == Attributes(column)
    {
      if |Split(segments[i], '=')| < 2 {
        return Failure(AttributeWithoutEquals(segments[i]));
      }
      assert segments[i..][1..] == segments[i + 1..];
      m := m[KeyOf(segments[i]) := ValueOf(segments[i])];
      i := i + 1;
    }
    return Success(m);
  }

  // ---------------------------------------------------------------------
  // One line
  // ---------------------------------------------------------------------

  /** Classify and decode one line, making the checks in the source's order. */
  function ParseLine(text: string): (kind: LineKind) {
    if |text| == 0 then Bad(EmptyLine)
    else if text[0] == '#' then Comment
    else
      var cols := Split(text, '\t');
      if |cols| != 9 then Bad(WrongColumnCount(|cols|))
      else if |cols[6]| == 0 then Bad(EmptyStrand)
      else
        match Attributes(cols[8])
        case Failure(reason) => Bad(reason)
        case Success(attributes) =>
          Row(Feature(cols[0], cols[1], cols[2], Atoi(cols[3]), Atoi(cols[4]), cols[5],
                      cols[6][0], Atoi(cols[7]), attributes))
  }

  /** A line is a comment exactly when its first byte is `#`. */
  lemma ParseLineComment(text: string)
    ensures ParseLine(text) == Comment <==> IsComment(text)
  {
  }

  /** A non-empty, non-comment line without exactly eight TABs (so without
      nine columns) is malformed and says how many columns it had. */
  lemma ParseLineColumnCount(text: string)
    requires |text| > 0 && !IsComment(text)
    requires multiset(text)['\t'] != 8
    ensures ParseLine(text) == Bad(WrongColumnCount(multiset(text)['\t'] + 1))
  {
    SplitCount(text, '\t');
  }

  /** A line gives a record exactly when it is not empty, not a comment, has
      nine columns, a non-empty strand column and `=` in every segment of
      column 9. */
  lemma ParseLineRowIff(text: string)
    ensures ParseLine(text).Row? <==>
      && |text| > 0 && !IsComment(text)
      && |Split(text, '\t')| == 9
      && |Split(text, '\t')[6]| > 0
      && AllTagged(Split(Split(text, '\t')[8], ';'))
  {
    var cols := Split(text, '\t');
    if |text| > 0 && !IsComment(text) && |cols| == 9 && |cols[6]| > 0 {
      AttributesSucceedIff(map[], Split(cols[8], ';'));
    }
  }

  /** A record's fields are its columns: 1 to 3 and 6 verbatim, the strand
      the first byte of column 7, and start, end and phase the Atoi values of
      columns 4, 5 and 8. */
  lemma ParseLineFields(text: string, f: Feature)
    requires ParseLine(text) == Row(f)
    ensures |Split(text, '\t')| == 9
    ensures f.seqid == Split(text, '\t')[0] && f.source == Split(text, '\t')[1]
    ensures f.featureType == Split(text, '\t')[2] && f.score == Split(text, '\t')[5]
    ensures f.start == Atoi(Split(text, '\t')[3]) && f.end == Atoi(Split(text, '\t')[4])
    ensures |Split(text, '\t')[6]| > 0 && f.strand == Split(text, '\t')[6][0]
    ensures f.phase == Atoi(Split(text, '\t')[7])
  {
  }

  /** A record has one attribute per tag of column 9, valued from the last
      segment with that tag. */
  lemma ParseLineAttributes(text: string, f: Feature, segments: seq<string>)
    requires ParseLine(text) == Row(f)
    requires |Split(text, '\t')| == 9 && segments == Split(Split(text, '\t')[8], ';')
    ensures forall k :: k in f.attributes <==> exists i :: 0 <= i < |segments| && KeyOf(segments[i]) == k
    ensures forall i :: 0 <= i < |segments| && LastWithKey(segments, i) ==>
              f.attributes[KeyOf(segments[i])] == ValueOf(segments[i])
  {
    AttributesKeys(map[], segments, f.attributes);
    forall i | 0 <= i < |segments| && LastWithKey(segments, i)
      ensures f.attributes[KeyOf(segments[i])] == ValueOf(segments[i])
    {
      AttributesLastWins(map[], segments, f.attributes, i);
    }
  }

  /** Parsing nine TAB-free columns joined by TABs decodes those columns. */
  lemma ParseLineOfColumns(cols: seq<string>)
    requires |cols| == 9
    requires forall i :: 0 <= i < 9 ==> '\t' !in cols[i]
    requires !IsComment(cols[0]) && |cols[6]| > 0
    requires Attributes(cols[8]).Success?
    ensures ParseLine(Join(cols, '\t')) ==
      Row(Feature(cols[0], cols[1], cols[2], Atoi(cols[3]), Atoi(cols[4]), cols[5],
                  cols[6][0], Atoi(cols[7]), Attributes(cols[8]).value))
  {
    var text := Join(cols, '\t');
    SplitJoin(cols, '\t');
    assert text == cols[0] + ['\t'] + Join(cols[1..], '\t');
    assert |cols[0]| > 0 ==> text[0] == cols[0][0];
  }

  // ---------------------------------------------------------------------
  // The stream of lines
  // ---------------------------------------------------------------------

  /** The outcome of Read on `input` with `line` lines already read, and the
      new line count: comments are skipped, the first other line decides. */
  function Scan(input: seq<string>, line: nat): (r: (Result<Feature, ReadError>, nat))
    requires line <= |input|
    ensures line <= r.1 <= |input|
    ensures r.0 != Failure(EndOfInput) ==> line < r.1
    decreases |input| - line
  {
    if line == |input| then (Failure(EndOfInput), line)
    else
      match ParseLine(input[line])
      case Comment => Scan(input, line + 1)
      case Bad(reason) => (Failure(Malformed(line + 1, input[line], reason)), line + 1)
      case Row(f) => (Success(f), line + 1)
  }

  /** What Scan returns comes from the first non-comment line after `line`,
      and an error carries that line's 1-based number and text. */
  lemma {:induction false} ScanOutcome(input: seq<string>, line: nat)
    requires line <= |input|
    ensures var (res, next) := Scan(input, line);
      && (res == Failure(EndOfInput) ==>
            next == |input| && forall k :: line <= k < |input| ==> IsComment(input[k]))
      && (res != Failure(EndOfInput) ==>
            && line < next
            && (forall k :: line <= k < next - 1 ==> IsComment(input[k]))
            && !IsComment(input[next - 1]))
      && (res.Success? ==> ParseLine(input[next - 1]) == Row(res.value))
      && (res.Failure? && res.error.Malformed? ==>
            && res.error.lineNo == next && res.error.text == input[next - 1]
            && ParseLine(input[next - 1]) == Bad(res.error.reason))
    decreases |input| - line
  {
    if line < |input| && ParseLine(input[line]) == Comment {
      ScanOutcome(input, line + 1);
    }
  }

  /** A comment line in front of the cursor is skipped. */
  lemma ScanComment(input: seq<string>, line: nat)
    requires line < |input| && IsComment(input[line])
    ensures Scan(input, line) == Scan(input, line + 1)
  {
    ParseLineComment(input[line]);
  }

  /** Comment lines in front of a position do not change what Scan finds. */
  lemma {:induction false} ScanSkipsComments(input: seq<string>, line: nat, j: nat)
    requires line <= j <= |input|
    requires forall k :: line <= k < j ==> IsComment(input[k])
    ensures Scan(input, line) == Scan(input, j)
    decreases j - line
  {
    if line < j {
      ScanComment(input, line);
      ScanSkipsComments(input, line + 1, j);
    }
  }

  /** Three comment lines and then a record: the first Read returns the
      record, and the reader has read four lines. */
  lemma CommentsThenRecord(c1: string, c2: string, c3: string, text: string)
    requires IsComment(c1) && IsComment(c2) && IsComment(c3)
    requires ParseLine(text).Row?
    ensures Scan([c1, c2, c3, text], 0) == (Success(ParseLine(text).feature), 4)
  {
    var input := [c1, c2, c3, text];
    ScanSkipsComments(input, 0, 3);
  }

  /** A reader over a line source. */
  class Reader {
    const input: seq<string>
    var line: nat

    ghost predicate Valid()
      reads this
    {
      line <= |input|
    }

    constructor (input: seq<string>)
      ensures Valid() && this.input == input && line == 0
    {
      this.input := input;
      line := 0;
    }

    /** Read the next line: a comment gives neither a record nor an error. */
    method ParseRecord() returns (rec: Record?, err: Option<ReadError>)
      requires Valid()
      modifies this`line
      ensures Valid()
      ensures old(line) == |input| ==> line == old(line) && rec == null && err == Some(EndOfInput)
      ensures old(line) < |input| ==> line == old(line) + 1
      ensures old(line) < |input| ==>
        match ParseLine(input[old(line)])
        case Comment => rec == null && err == None
        case Bad(reason) => rec == null && err == Some(Malformed(line, input[old(line)], reason))
        case Row(f) => rec != null && fresh(rec) && err == None && rec.Value() == f && rec.Complete
    {
      if line == |input| {
        return null, Some(EndOfInput);
      }
      line := line + 1;
      var text := input[line - 1];
      if |text| == 0 {
        return null, Some(Malformed(line, text, EmptyLine));
      }
      if text[0] == '#' {
        return null, None;
      }
      var fields := Split(text, '\t');
      if |fields| != 9 {
        return null, Some(Malformed(line, text, WrongColumnCount(|fields|)));
      }
      if |fields[6]| == 0 {
        return null, Some(Malformed(line, text, EmptyStrand));
      }
      var attributes := BuildAttributes(fields[8]);
      if attributes.Failure? {
        return null, Some(Malformed(line, text, attributes.error));
      }
      var r := new Record(Feature(fields[0], fields[1], fields[2], Atoi(fields[3]), Atoi(fields[4]),
                                  fields[5], fields[6][0], Atoi(fields[7]), attributes.value));
      if r.Validate() {
        r.Complete := true;
      }
      return r, None;
    }

    /** Read lines until one gives a record or an error. */
    method Read() returns (rec: Record?, err: Option<ReadError>)
      requires Valid()
      modifies this`line
      ensures Valid()
      ensures line == Scan(input, old(line)).1
      ensures match Scan(input, old(line)).0
        case Failure(e) => rec == null && err == Some(e)
        case Success(f) => rec != null && fresh(rec) && err == None && rec.Value() == f && rec.Complete
    {
      ghost var start := line;
      rec, err := ParseRecord();
      while rec == null && err == None
        invariant Valid() && start <= line
        invariant rec == null && err == None ==> Scan(input, start) == Scan(input, line)
        invariant rec == null && err != None ==> Scan(input, start) == (Failure(err.value), line)
        invariant rec != null ==> err == None && fresh(rec) && rec.Complete
                                  && Scan(input, start) == (Success(rec.Value()), line)
        decreases |input| - line, if rec == null && err == None then 1 else 0
      {
        rec, err := ParseRecord();
      }
    }
  }
}
