/** The two pieces of Go's standard library the GFF3 reader leans on:
    strings.Split with a one-character separator, and strconv.Atoi whose
    error result the reader discards. Text is a sequence of characters,
    one character per byte of the input. */
module Text {

  // ---------------------------------------------------------------------
  // strings.Split
  // ---------------------------------------------------------------------

  /** The pieces of `s` between consecutive occurrences of `sep`, as Go's
      strings.Split returns them: the empty text gives one empty piece,
      and a separator at either end gives an empty piece there. */
  function Split(s: string, sep: char): (parts: seq<string>)
    ensures |parts| >= 1
    ensures forall i :: 0 <= i < |parts| ==> sep !in parts[i]
    decreases |s|
  {
    if |s| == 0 then [""]
    else
      var rest := Split(s[1..], sep);
      if s[0] == sep then [""] + rest
      else [[s[0]] + rest[0]] + rest[1..]
  }

  /** strings.Join: the pieces with `sep` between neighbours. */
  function Join(parts: seq<string>, sep: char): (s: string)
    requires |parts| >= 1
  {
    if |parts| == 1 then parts[0] else parts[0] + [sep] + Join(parts[1..], sep)
  }

  /** Joining the pieces gives back the text. */
  lemma {:induction false} JoinSplit(s: string, sep: char)
    ensures Join(Split(s, sep), sep) == s
    decreases |s|
  {
    if |s| > 0 {
      var rest := Split(s[1..], sep);
      JoinSplit(s[1..], sep);
      if s[0] == sep {
        assert ([""] + rest)[1..] == rest;
      } else {
        var parts := [[s[0]] + rest[0]] + rest[1..];
        assert parts[1..] == rest[1..];
        if |rest| > 1 {
          assert Join(rest, sep) == rest[0] + [sep] + Join(rest[1..], sep);
        }
        assert s == [s[0]] + s[1..];
      }
    }
  }

  /** A character in none of the pieces, other than the separator, is not
      in their join. */
  lemma {:induction false} JoinAvoids(parts: seq<string>, sep: char, c: char)
    requires |parts| >= 1 && c != sep
    requires forall i :: 0 <= i < |parts| ==> c !in parts[i]
    ensures c !in Join(parts, sep)
    decreases |parts|
  {
    if |parts| > 1 {
      JoinAvoids(parts[1..], sep, c);
    }
  }

  /** A prefix without the separator stays glued to the first piece after it. */
  lemma {:induction false} SplitPrefix(a: string, t: string, sep: char)
    requires sep !in a
    ensures Split(a + t, sep) == [a + Split(t, sep)[0]] + Split(t, sep)[1..]
    decreases |a|
  {
    if |a| > 0 {
      var p := Split(t, sep);
      assert (a + t)[0] == a[0] && (a + t)[1..] == a[1..] + t;
      SplitPrefix(a[1..], t, sep);
      var r := Split(a[1..] + t, sep);
      assert r[0] == a[1..] + p[0] && r[1..] == p[1..];
      assert Split(a + t, sep) == [[a[0]] + r[0]] + r[1..];
      assert [a[0]] + (a[1..] + p[0]) == a + p[0];
    } else {
      var p := Split(t, sep);
      assert a == [];
      assert a + t == t && a + p[0] == p[0];
      assert p == [p[0]] + p[1..];
    }
  }

  /** A leading separator splits off an empty first piece. */
  lemma SplitLeadingSeparator(rest: string, sep: char)
    ensures Split([sep] + rest, sep) == [""] + Split(rest, sep)
  {
    assert ([sep] + rest)[1..] == rest;
  }

  /** Splitting undoes joining, provided no piece holds the separator. */
  lemma {:induction false} SplitJoin(parts: seq<string>, sep: char)
    requires |parts| >= 1
    requires forall i :: 0 <= i < |parts| ==> sep !in parts[i]
    ensures Split(Join(parts, sep), sep) == parts
    decreases |parts|
  {
    if |parts| == 1 {
      SplitPrefix(parts[0], "", sep);
      assert parts[0] + "" == parts[0];
    } else {
      var rest := Join(parts[1..], sep);
      SplitJoin(parts[1..], sep);
      SplitLeadingSeparator(rest, sep);
      var tail := [""] + parts[1..];
      SplitPrefix(parts[0], [sep] + rest, sep);
      calc {
        Split(Join(parts, sep), sep);
        { assert Join(parts, sep) == parts[0] + ([sep] + rest); }
        Split(parts[0] + ([sep] + rest), sep);
        [parts[0] + tail[0]] + tail[1..];
        { assert tail[0] == "" && tail[1..] == parts[1..] && parts[0] + "" == parts[0]; }
        [parts[0]] + parts[1..];
      }
      assert parts == [parts[0]] + parts[1..];
    }
  }

  /** There is one more piece than there are separators. */
  lemma {:induction false} SplitCount(s: string, sep: char)
    ensures |Split(s, sep)| == multiset(s)[sep] + 1
    decreases |s|
  {
    if |s| > 0 {
      SplitCount(s[1..], sep);
      assert s == [s[0]] + s[1..];
      assert multiset(s) == multiset([s[0]]) + multiset(s[1..]);
    }
  }

  /** The text splits into at least two pieces exactly when it holds the separator. */
  lemma SplitHasSeparator(s: string, sep: char)
    ensures |Split(s, sep)| >= 2 <==> sep in s
  {
    SplitCount(s, sep);
    assert sep in s <==> sep in multiset(s);
  }

  // ---------------------------------------------------------------------
  // strconv.Atoi (error discarded) and its inverse strconv.Itoa
  // ---------------------------------------------------------------------

  /** The range of Go's `int` on a 64-bit platform, and the largest `uint64`. */
  const MaxInt: int := 0x7FFF_FFFF_FFFF_FFFF
  const MinInt: int := -0x8000_0000_0000_0000
  const MaxUint: int := 0xFFFF_FFFF_FFFF_FFFF

  predicate IsDigit(c: char) {
    '0' <= c <= '9'
  }

  /** One or more decimal digits and nothing else. */
  predicate IsDigits(s: string) {
    |s| > 0 && forall i :: 0 <= i < |s| ==> IsDigit(s[i])
  }

  /** The text after an optional leading `+` or `-`. */
  function Unsigned(s: string): (t: string)
    ensures |t| <= |s|
  {
    if |s| > 0 && (s[0] == '+' || s[0] == '-') then s[1..] else s
  }

  /** The syntax strconv.Atoi accepts in base 10: an optional sign, then digits. */
  predicate IsDecimal(s: string) {
    IsDigits(Unsigned(s))
  }

  /** The longest run of digits at the front of `s`. */
  function LeadingDigits(s: string): (run: string)
    ensures |run| <= |s| && run == s[..|run|]
    ensures forall i :: 0 <= i < |run| ==> IsDigit(run[i])
    ensures |run| < |s| ==> !IsDigit(s[|run|])
  {
    if |s| == 0 || !IsDigit(s[0]) then "" else [s[0]] + LeadingDigits(s[1..])
  }

  /** The value of a string of decimal digits, most significant first. */
  function DigitsValue(ds: string): (v: nat)
    requires forall i :: 0 <= i < |ds| ==> IsDigit(ds[i])
  {
    if |ds| == 0 then 0
    else
      assert IsDigit(ds[|ds| - 1]);
      DigitsValue(ds[..|ds| - 1]) * 10 + (ds[|ds| - 1] as int - '0' as int)
  }

  /** What `n, _ := strconv.Atoi(s)` leaves in `n` on a 64-bit platform.
      Digits are read left to right after an optional sign. Once the digits
      read so far exceed the largest `uint64`, reading stops with a range
      error and the result is the bound on the side of the sign, whatever
      follows. Otherwise a text that is not a signed digit string is a
      syntax error and gives zero, and a value outside `int` gives the
      nearest bound. */
  function Atoi(s: string): (n: int)
    ensures MinInt <= n <= MaxInt
  {
    var negative := |s| > 0 && s[0] == '-';
    var body := Unsigned(s);
    if DigitsValue(LeadingDigits(body)) > MaxUint then
      if negative then MinInt else MaxInt
    else if !IsDigits(body) then 0
    else
      var magnitude: int := DigitsValue(body);
      var v := if negative then -magnitude else magnitude;
      if v > MaxInt then MaxInt else if v < MinInt then MinInt else v
  }

  /** A digit string is its own leading run of digits. */
  lemma {:induction false} LeadingDigitsOfDigits(s: string)
    requires forall i :: 0 <= i < |s| ==> IsDigit(s[i])
    ensures LeadingDigits(s) == s
    decreases |s|
  {
    if |s| > 0 {
      LeadingDigitsOfDigits(s[1..]);
      assert s == [s[0]] + s[1..];
    }
  }

  /** The leading digits of `digits + rest` start with `digits`. */
  lemma {:induction false} LeadingDigitsExtend(digits: string, rest: string)
    requires forall i :: 0 <= i < |digits| ==> IsDigit(digits[i])
    ensures |digits| <= |LeadingDigits(digits + rest)|
    ensures LeadingDigits(digits + rest)[..|digits|] == digits
    decreases |digits|
  {
    if |digits| > 0 {
      assert (digits + rest)[1..] == digits[1..] + rest;
      LeadingDigitsExtend(digits[1..], rest);
    }
  }

  /** Reading more digits never makes the value smaller. */
  lemma {:induction false} DigitsValuePrefix(ds: string, k: nat)
    requires forall i :: 0 <= i < |ds| ==> IsDigit(ds[i])
    requires k <= |ds|
    ensures DigitsValue(ds[..k]) <= DigitsValue(ds)
    decreases |ds| - k
  {
    if k < |ds| {
      var shorter := ds[..|ds| - 1];
      assert shorter[..k] == ds[..k];
      assert DigitsValue(shorter) <= DigitsValue(ds);
      DigitsValuePrefix(shorter, k);
    } else {
      assert ds[..k] == ds;
    }
  }

  function Digit(d: nat): (c: char)
    requires d < 10
    ensures IsDigit(c)
  {
    ('0' as int + d) as char
  }

  /** The decimal digits of `n`, without leading zeros. */
  function Decimal(n: nat): (s: string)
    ensures IsDigits(s)
  {
    if n < 10 then [Digit(n)] else Decimal(n / 10) + [Digit(n % 10)]
  }

  /** strconv.Itoa: the decimal text of `n`, with a minus sign when negative. */
  function Itoa(n: int): (s: string) {
    if n < 0 then "-" + Decimal(-n) else Decimal(n)
  }

  lemma {:induction false} DecimalValue(n: nat)
    ensures DigitsValue(Decimal(n)) == n
  {
    if n >= 10 {
      DecimalValue(n / 10);
      var s := Decimal(n);
      assert s[..|s| - 1] == Decimal(n / 10);
    }
  }

  /** On a signed digit string Atoi is the signed value, clamped to `int`. */
  lemma AtoiDecimal(s: string)
    requires IsDecimal(s)
    ensures var m: int := DigitsValue(Unsigned(s)); var v := if s[0] == '-' then -m else m;
      Atoi(s) == if v > MaxInt then MaxInt else if v < MinInt then MinInt else v
  {
    LeadingDigitsOfDigits(Unsigned(s));
  }

  /** Atoi reads back every 64-bit integer that Itoa writes. */
  lemma AtoiItoa(n: int)
    requires MinInt <= n <= MaxInt
    ensures Atoi(Itoa(n)) == n
  {
    var s := Itoa(n);
    if n < 0 {
      var digits := Decimal(-n);
      DecimalValue(-n);
      assert s == "-" + digits && s[0] == '-' && s[1..] == digits;
      assert Unsigned(s) == digits;
      AtoiDecimal(s);
    } else {
      DecimalValue(n);
      assert s[0] != '+' && s[0] != '-';
      assert Unsigned(s) == s;
      AtoiDecimal(s);
    }
  }

  /** A string of digits too large for `int` reads as the largest `int`. */
  lemma AtoiClampsLarge(s: string)
    requires IsDigits(s) && DigitsValue(s) > MaxInt
    ensures Atoi(s) == MaxInt
  {
    LeadingDigitsOfDigits(s);
  }

  /** The leading digits of a text that starts with an overflowing digit
      string overflow too. */
  lemma LeadingOverflow(digits: string, rest: string)
    requires IsDigits(digits) && DigitsValue(digits) > MaxUint
    ensures DigitsValue(LeadingDigits(digits + rest)) > MaxUint
  {
    LeadingDigitsExtend(digits, rest);
    var run := LeadingDigits(digits + rest);
    DigitsValuePrefix(run, |digits|);
  }

  /** Digits whose value already exceeds the largest `uint64` read as the
      bound on the side of the sign, whatever text follows them. */
  lemma AtoiOverflowStops(digits: string, rest: string)
    requires IsDigits(digits) && DigitsValue(digits) > MaxUint
    ensures Atoi(digits + rest) == MaxInt
  {
    var body := digits + rest;
    LeadingOverflow(digits, rest);
    assert body[0] == digits[0];
    assert Unsigned(body) == body;
  }

  /** The same after a sign: `-` gives the smallest `int`, `+` the largest. */
  lemma AtoiSignedOverflowStops(sign: char, digits: string, rest: string)
    requires sign == '+' || sign == '-'
    requires IsDigits(digits) && DigitsValue(digits) > MaxUint
    ensures Atoi([sign] + (digits + rest)) == if sign == '-' then MinInt else MaxInt
  {
    var body := digits + rest;
    LeadingOverflow(digits, rest);
    assert ([sign] + body)[1..] == body;
    assert Unsigned([sign] + body) == body;
  }

  /** A text that is not a signed digit string, such as the `.` placeholder,
      reads as zero unless its leading digits already exceed the largest
      `uint64`. */
  lemma AtoiNonDecimal(s: string)
    requires !IsDecimal(s)
    requires DigitsValue(LeadingDigits(Unsigned(s))) <= MaxUint
    ensures Atoi(s) == 0
  {
  }
}
