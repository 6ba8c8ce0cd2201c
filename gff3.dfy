/** One GFF3 feature line as a mutable Record, and the filters that can be
    chained on it. A filter never changes anything but the record's
    `Complete` flag, and only ever from true to false, so a chain of filters
    computes the conjunction of their tests. */
module Gff3 {
  import opened Wrappers
  import opened Text

  /** The decoded columns of one line, in GFF3 column order. `score` is kept
      as the raw text of column 6; `strand` is the first byte of column 7. */
  datatype Feature = Feature(
    seqid: string,
    source: string,
    featureType: string,
    start: int,
    end: int,
    score: string,
    strand: char,
    phase: int,
    attributes: map<string, string>)

  /** Why a filter request cannot be evaluated (the Go code panics on both). */
  datatype FilterError =
    | UnsupportedField(field: string)  // no filter for this field name
    | EmptyStrandValue                 // a strand filter needs at least one character

  /** The field names FilterByField maps to the type filter. */
  predicate IsTypeName(field: string) {
    field == "type" || field == "Type" || field == "typeField" || field == "TypeField"
  }

  /** The field names FilterByField maps to the strand filter. */
  predicate IsStrandName(field: string) {
    field == "strand" || field == "Strand" || field == "strandField" || field == "StrandField"
  }

  /** A filter request, as a caller would pass it to FilterByField or FilterByAttribute. */
  datatype Filter =
    | ByField(field: string, value: string)
    | ByAttribute(key: string, value: string)

  /** The requests that can be evaluated on a complete record without an error. */
  predicate Admissible(flt: Filter) {
    match flt
    case ByField(field, value) => IsTypeName(field) || (IsStrandName(field) && value != "")
    case ByAttribute(_, _) => true
  }

  /** The test a request makes: exact, case-sensitive equality with the
      feature type, with the strand byte, or with one of the comma-separated
      values of an attribute. */
  predicate Holds(f: Feature, flt: Filter)
    requires Admissible(flt)
  {
    match flt
    case ByField(field, value) =>
      if IsTypeName(field) then f.featureType == value else f.strand == value[0]
    case ByAttribute(key, value) =>
      key in f.attributes && value in Split(f.attributes[key], ',')
  }

  /** The new `Complete` flag after one filter on a record whose flag is
      `complete`, in the order the Go code makes its decisions: an incomplete
      record passes through untouched before the field name is looked at. */
  function Step(f: Feature, complete: bool, flt: Filter): (r: Result<bool, FilterError>)
    ensures !complete ==> r == Success(false)
    ensures complete && Admissible(flt) ==> r == Success(Holds(f, flt))
    ensures r.Failure? <==> complete && !Admissible(flt)
  {
    if !complete then Success(false)
    else
      match flt
      case ByField(field, value) =>
        if IsTypeName(field) then Success(f.featureType == value)
        else if IsStrandName(field) then
          if value == "" then Failure(EmptyStrandValue) else Success(f.strand == value[0])
        else Failure(UnsupportedField(field))
      case ByAttribute(key, value) =>
        if key !in f.attributes then Success(false)
        else Success(value in Split(f.attributes[key], ','))
  }

  /** The flag after applying `flts` left to right; the first error ends the chain. */
  function Chain(f: Feature, complete: bool, flts: seq<Filter>): (r: Result<bool, FilterError>)
  {
    if |flts| == 0 then Success(complete)
    else
      match Step(f, complete, flts[0])
      case Failure(e) => Failure(e)
      case Success(c) => Chain(f, c, flts[1..])
  }

  /** Once a record is incomplete every further filter leaves it so, even one
      naming a field that has no filter. */
  lemma {:induction false} ChainOfIncomplete(f: Feature, flts: seq<Filter>)
    ensures Chain(f, false, flts) == Success(false)
    decreases |flts|
  {
    if |flts| > 0 {
      ChainOfIncomplete(f, flts[1..]);
    }
  }

  /** A chain ends complete only if it started complete and no filter ever
      cleared the flag: every prefix of the chain ends complete too. */
  lemma {:induction false} ChainNeverRestores(f: Feature, complete: bool, flts: seq<Filter>, k: nat)
    requires k <= |flts|
    requires Chain(f, complete, flts) == Success(true)
    ensures complete
    ensures Chain(f, complete, flts[..k]) == Success(true)
    decreases |flts|
  {
    if |flts| > 0 {
      var c := Step(f, complete, flts[0]).value;
      ChainNeverRestores(f, c, flts[1..], if k > 0 then k - 1 else 0);
      if k > 0 {
        assert flts[..k][1..] == flts[1..][..k - 1];
      }
    }
  }

  /** Errors are raised only while the record is still complete. */
  lemma {:induction false} ChainFailsOnlyWhileComplete(f: Feature, complete: bool, flts: seq<Filter>)
    requires Chain(f, complete, flts).Failure?
    ensures complete
    ensures exists i :: 0 <= i < |flts| && !Admissible(flts[i])
    decreases |flts|
  {
    if Step(f, complete, flts[0]).Success? {
      var c := Step(f, complete, flts[0]).value;
      ChainFailsOnlyWhileComplete(f, c, flts[1..]);
      var i :| 0 <= i < |flts[1..]| && !Admissible(flts[1..][i]);
      assert !Admissible(flts[i + 1]);
    }
  }

  /** A chain of admissible filters ANDs the starting flag with every test. */
  lemma {:induction false} ChainIsConjunction(f: Feature, complete: bool, flts: seq<Filter>)
    requires forall i :: 0 <= i < |flts| ==> Admissible(flts[i])
    ensures Chain(f, complete, flts) ==
            Success(complete && forall i :: 0 <= i < |flts| ==> Holds(f, flts[i]))
    decreases |flts|
  {
    if |flts| > 0 {
      var c := Step(f, complete, flts[0]).value;
      ChainIsConjunction(f, c, flts[1..]);
      assert forall i :: 1 <= i < |flts| ==> flts[i] == flts[1..][i - 1];
    }
  }

  /** The final flag does not depend on the order of the filters. */
  lemma ChainOrderIndependent(f: Feature, complete: bool, flts: seq<Filter>, reordered: seq<Filter>)
    requires forall i :: 0 <= i < |flts| ==> Admissible(flts[i])
    requires multiset(reordered) == multiset(flts)
    ensures Chain(f, complete, reordered) == Chain(f, complete, flts)
  {
    forall j | 0 <= j < |reordered| ensures reordered[j] in flts && Admissible(reordered[j]) {
      assert reordered[j] in multiset(reordered);
    }
    forall i | 0 <= i < |flts| ensures flts[i] in reordered {
      assert flts[i] in multiset(flts);
    }
    ChainIsConjunction(f, complete, flts);
    ChainIsConjunction(f, complete, reordered);
  }

  /** Applying the same admissible filters a second time changes nothing. */
  lemma ChainIdempotent(f: Feature, complete: bool, flts: seq<Filter>)
    requires forall i :: 0 <= i < |flts| ==> Admissible(flts[i])
    ensures Chain(f, complete, flts + flts) == Chain(f, complete, flts)
  {
    var twice := flts + flts;
    var n := |flts|;
    forall i | 0 <= i < |twice| ensures twice[i] == flts[if i < n then i else i - n] {
    }
    ChainIsConjunction(f, complete, flts);
    ChainIsConjunction(f, complete, twice);
    if forall i :: 0 <= i < n ==> Holds(f, flts[i]) {
      forall i | 0 <= i < |twice| ensures Holds(f, twice[i]) {
        var j := if i < n then i else i - n;
        assert twice[i] == flts[j];
      }
    } else {
      var i :| 0 <= i < n && !Holds(f, flts[i]);
      assert twice[i] == flts[i];
    }
  }

  /** A parsed feature line. `Complete` is the only field the filters change. */
  class Record {
    var Complete: bool
    var seqid: string
    var source: string
    var featureType: string
    var start: int
    var end: int
    var score: string
    var strand: char
    var phase: int
    var attributes: map<string, string>

    /** Every field but `Complete`. */
    function Value(): Feature
      reads this
    {
      Feature(seqid, source, featureType, start, end, score, strand, phase, attributes)
    }

    /** A record holding `v`, not yet marked complete. */
    constructor (v: Feature)
      ensures Value() == v && !Complete
    {
      Complete := false;
      seqid, source, featureType := v.seqid, v.source, v.featureType;
      start, end, score := v.start, v.end, v.score;
      strand, phase, attributes := v.strand, v.phase, v.attributes;
    }

    /** The validity check run after parsing; it accepts every record. */
    function Validate(): (ok: bool)
      ensures ok
    {
      true
    }

    /** Keeps `Complete` only if `field` names a field whose value equals `value`. */
    method FilterByField(field: string, value: string) returns (r: Result<Record, FilterError>)
      modifies this`Complete
      ensures Value() == old(Value())
      ensures match Step(old(Value()), old(Complete), ByField(field, value))
        case Success(c) => r == Success(this) && Complete == c
        case Failure(e) => r == Failure(e) && Complete == old(Complete)
    {
      if !Complete {
        return Success(this);
      }
      if IsTypeName(field) {
        var same := FilterByType(value);
        return Success(same);
      }
      if IsStrandName(field) {
        if value == "" {
          return Failure(EmptyStrandValue);
        }
        var same := FilterByStrand(value[0]);
        return Success(same);
      }
      return Failure(UnsupportedField(field));
    }

    method FilterByType(filterValue: string) returns (r: Record)
      modifies this`Complete
      ensures r == this && Value() == old(Value())
      ensures Complete == (old(Complete) && featureType == filterValue)
    {
      if featureType != filterValue {
        Complete := false;
      }
      return this;
    }

    method FilterByStrand(filterValue: char) returns (r: Record)
      modifies this`Complete
      ensures r == this && Value() == old(Value())
      ensures Complete == (old(Complete) && strand == filterValue)
    {
      if strand != filterValue {
        Complete := false;
      }
      return this;
    }

    /** Keeps `Complete` only if attribute `attribute` is present and one of
        its comma-separated values equals `filterValue`. */
    method FilterByAttribute(attribute: string, filterValue: string) returns (r: Record)
      modifies this`Complete
      ensures r == this && Value() == old(Value())
      ensures Step(old(Value()), old(Complete), ByAttribute(attribute, filterValue)) == Success(Complete)
    {
      if !Complete {
        return this;
      }
      if attribute !in attributes {
        Complete := false;
        return this;
      }
      var values := Split(attributes[attribute], ',');
      var i := 0;
      while i < |values|
        invariant 0 <= i <= |values|
        invariant forall j :: 0 <= j < i ==> values[j] != filterValue
      {
        if values[i] == filterValue {
          return this;
        }
        i := i + 1;
      }
      Complete := false;
      return this;
    }
  }
}
