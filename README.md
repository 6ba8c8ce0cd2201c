# GFF3 reader and record filters

This project models the core of a small Go package for GFF3 files. GFF3 is
the Sequence Ontology's General Feature Format, version 3: nine TAB-separated
columns per feature line, with column 9 holding `;`-separated `tag=value`
pairs whose values may be `,`-separated lists.

The model covers two pieces of the package:

- **The line reader** (`reader.go`). A `Reader` pulls lines one at a time and
  increments a 1-based line counter for each. It skips `#` comment lines.
  Every other line is split into nine columns and decoded into a `Record`,
  which is then marked `Complete`.
- **The record filters** (`gff3.go`). `FilterByField` (on type or strand) and
  `FilterByAttribute` (on one of an attribute's comma-separated values) can
  only clear a record's `Complete` flag. A chain of filters therefore
  computes the AND of their tests.

The files:

- `wrappers.dfy`: `Option` and `Result`.
- `text.dfy`: the two Go library calls the reader relies on.
  - `strings.Split` with a one-character separator, with its partner `Join`.
  - `strconv.Atoi` with its error result discarded, with its partner `Itoa`.
- `gff3.dfy`:
  - the `Feature` value (every column of a line);
  - the `Record` class, whose methods change `Complete` in place;
  - the pure specification `Step`/`Chain` of what one filter and a sequence
    of filters do to the flag, with lemmas about chains.
- `reader.dfy`:
  - `ParseLine`, a pure classification of one line (comment, malformed with a
    reason, or a decoded row), with lemmas about its fields and attribute map;
  - `Scan`, the specification of one `Read`;
  - the `Reader` class, whose `ParseRecord` and `Read` methods are proved
    against `ParseLine` and `Scan`.
- `gff3_test.dfy`: the repository's test line, proved to read back as a
  complete record with the expected fields; the multi-valued `tag=` example
  of the filter documentation; a two-filter chain.

The input is a sequence of lines with line endings already removed. The
`Reader`'s line counter is also its cursor: line `k` is `input[k - 1]`. Each
character stands for one byte.

## Model

| member | source | states |
|---|---|---|
| Text.Split | reader.go:80 | Splitting always gives at least one piece, and no piece contains the separator. |
| Text.JoinSplit | reader.go:80 | Joining the pieces of a split with the separator rebuilds the original line, so the split loses nothing. |
| Text.SplitJoin | reader.go:98-99 | Splitting pieces that were joined gives the same pieces back, provided no piece contains the separator. |
| Text.SplitCount | reader.go:80-81 | A split gives one more piece than there are separators, so a line has nine columns exactly when it has eight TABs. |
| Text.SplitHasSeparator | reader.go:99-101 | A segment splits into two or more pieces on `=` exactly when it contains `=`. |
| Text.Atoi | reader.go:91-95 | The integer read from a column always lies in the range of a 64-bit `int`. |
| Text.AtoiDecimal | reader.go:91-95 | On an optionally signed digit string, the result is the signed value clamped to the 64-bit `int` range. |
| Text.AtoiItoa | reader.go:91-92 | Every 64-bit integer written in decimal reads back as itself. |
| Text.AtoiClampsLarge | reader.go:91-92 | A digit string too large for a 64-bit `int` reads as the largest `int`. |
| Text.AtoiOverflowStops | reader.go:91-92 | Digits whose value already exceeds the largest `uint64` read as the largest `int`, whatever text follows them, because Go stops reading at the range error. |
| Text.AtoiSignedOverflowStops | reader.go:91-92 | After a `-` such digits read as the smallest `int`, and after a `+` as the largest, whatever follows. |
| Text.AtoiNonDecimal | reader.go:95 | Text that is not an optionally signed digit string, such as the `.` placeholder, reads as 0, unless its leading digits already exceed the largest `uint64`. |
| Gff3.Step | gff3.go:53-118 | One filter on a record: an incomplete record stays incomplete with no error. On a complete record, an admissible request sets the flag to the outcome of its test. A request fails exactly when the record is complete and the field name is unsupported or the strand value is empty. |
| Gff3.ChainOfIncomplete | gff3.go:54-57 | Any chain of filters, even one naming unsupported fields, leaves an incomplete record incomplete and raises no error. |
| Gff3.ChainNeverRestores | gff3.go:69-87 | No filter turns the flag from false to true. A chain that ends complete started complete, and every prefix of it ends complete. |
| Gff3.ChainFailsOnlyWhileComplete | gff3.go:58-64 | A chain fails only if the record was complete at the start and some request in the chain is not admissible. |
| Gff3.ChainIsConjunction | gff3.go:47-118 | For admissible requests, the final flag is the initial flag ANDed with every request's test. |
| Gff3.ChainOrderIndependent | gff3.go:47-118 | Reordering admissible requests does not change the final flag. |
| Gff3.ChainIdempotent | gff3.go:47-118 | Running the same admissible chain a second time does not change the result. |
| Gff3.Record.constructor | gff3.go:22-33 | A new record holds the given column values and is not yet complete. |
| Gff3.Record.Validate | gff3.go:38-42 | The validity check accepts every record. |
| Gff3.Record.FilterByField | gff3.go:53-67 | Only `Complete` changes. On success the method returns the same record with the flag `Step` gives. On the error cases it returns that error and leaves the flag as it was. |
| Gff3.Record.FilterByType | gff3.go:69-77 | Returns the same record. `Complete` becomes true exactly when it was true and the type equals the filter value, and nothing else changes. |
| Gff3.Record.FilterByStrand | gff3.go:79-87 | Returns the same record. `Complete` becomes true exactly when it was true and the strand byte equals the filter byte, and nothing else changes. |
| Gff3.Record.FilterByAttribute | gff3.go:94-118 | Returns the same record, and only `Complete` changes. The new flag is the one `Step` gives: false for an absent key, kept exactly when the filter value is one of the comma-separated values. |
| Gff3Reader.AttributesSucceedIff | reader.go:98-103 | Column 9 gives an attribute map exactly when every `;`-segment contains `=`. |
| Gff3Reader.AttributesFailAtFirst | reader.go:98-101 | A failure names the first segment without `=`, and every segment before it has one. |
| Gff3Reader.AttributesKeepOthers | reader.go:97-103 | A key that no segment names keeps the value it had before. |
| Gff3Reader.AttributesKeys | reader.go:97-103 | The map's keys are exactly the tags of the segments (plus any earlier keys). |
| Gff3Reader.AttributesLastWins | reader.go:97-103 | A tag maps to the value of the last segment that carries it, so a later duplicate overwrites an earlier one. |
| Gff3Reader.AttributesOfSegments | reader.go:97-103 | Reading back `tag=value` segments applies their updates in order, provided no tag or value contains `=`. |
| Gff3Reader.AttributesOfPairs | reader.go:97-103 | A column 9 written out from pairs whose tags and values contain neither `;` nor `=` reads back as those pairs. |
| Gff3Reader.BuildAttributes | reader.go:97-103 | The loop that fills the map one segment at a time computes the same map, or the same error, as the attribute specification. |
| Gff3Reader.ParseLineComment | reader.go:68-74 | A line is a comment exactly when its first byte is `#`. |
| Gff3Reader.ParseLineColumnCount | reader.go:78-85 | A non-empty line that is not a comment and does not have exactly eight TABs is malformed, and the error reports its column count. |
| Gff3Reader.ParseLineRowIff | reader.go:63-103 | A line gives a record exactly when it is non-empty, not a comment, has nine columns, has a non-empty strand column, and every segment of column 9 contains `=`. |
| Gff3Reader.ParseLineFields | reader.go:87-95 | A record's seqid, source, type and score are columns 1, 2, 3 and 6 verbatim. Its strand is the first byte of column 7. Its start, end and phase are the Atoi values of columns 4, 5 and 8. |
| Gff3Reader.ParseLineAttributes | reader.go:97-103 | A record has exactly one attribute per tag in column 9, valued from the last segment with that tag. |
| Gff3Reader.ParseLineOfColumns | reader.go:78-103 | Nine TAB-free columns joined with TABs, not starting with `#`, with a non-empty strand and a well-formed column 9, parse into exactly those columns. |
| Gff3Reader.Scan | reader.go:45-58 | One read never moves past the end of the input, and it advances at least one line unless it reports end of input. |
| Gff3Reader.ScanOutcome | reader.go:45-58 | A read skips exactly the comment lines in front of the first non-comment line, and that line decides the outcome. An error carries the line's 1-based number and text. End of input means only comments were left. |
| Gff3Reader.ScanSkipsComments | reader.go:47-56 | Comment lines in front of the cursor do not change what a read returns. |
| Gff3Reader.CommentsThenRecord | reader.go:45-74 | Three comments followed by a feature line give that line's record, with four lines counted. |
| Gff3Reader.Reader.constructor | reader.go:39-43 | A new reader is at the start of its input, with no lines counted. |
| Gff3Reader.Reader.ParseRecord | reader.go:63-113 | Each call with a line left counts exactly one more line. A comment gives neither a record nor an error. A malformed line gives an error carrying the new line number, its text and the reason. A feature line gives a fresh record holding the decoded columns, marked complete. |
| Gff3Reader.Reader.Read | reader.go:45-58 | Returns what `Scan` specifies: the first non-comment line's record, marked complete, and no error; or no record and that line's error, or end of input. The counter ends where `Scan` leaves it. |
| Gff3Test.GencodeAttributesParse | tests/gff3_test.go:12 | Column 9 of the test's GENCODE line gives the seven expected attributes. |
| Gff3Test.GencodeLineParses | tests/gff3_test.go:12 | The test's GENCODE line decodes to the expected feature: chr1, HAVANA, gene, 11869 to 14409, score `.`, strand `+`, phase 0, seven attributes. |
| Gff3Test.ReadGencodeLine | tests/gff3_test.go:11-19 | A reader over the test's line returns a complete record holding the expected feature, and no error. |
| Gff3Test.MultiValuedTag | gff3.go:104-113 | `tag=appris,basic,CCDS` passes an attribute filter for `basic` and fails one for `nope`. |
| Gff3Test.FailedStrandStaysFailed | gff3.go:79-87 | A strand filter that fails is not undone by a later one that would pass. |

## Left out

- Input comes from a sequence of lines, in place of a `bufio.Scanner` over an `io.Reader`. The scanner's buffering in `NewReader` (reader.go:36-43) is not modelled. `Gff3Reader.Reader.constructor` stands for the fresh reader `NewReader` returns, at line 0.
- Gff3Reader.Reader.ParseRecord: at end of input it returns an explicit `EndOfInput` error and does not count a line. The Go code increments the counter, ignores `Scan()`'s result and then indexes the first byte of an empty buffer, which panics.
- Gff3Reader.ParseLine: the Go code aborts on three inputs, and the model returns an error result for each instead. An empty line panics on its first byte. A column count other than nine calls `log.Fatalln`. An empty strand column panics on `fields[6][0]`.
- Gff3Reader.ParseLine: an attribute segment without `=` gives the `AttributeWithoutEquals` error, where the Go code would panic on `kv[1]`.
- Gff3.Step: an unsupported field name and an empty strand filter value give error results, where the Go code panics.
- The score column is kept as raw text. Decoding it with `strconv.ParseFloat` (reader.go:93) is floating-point parsing.
- Start and end are modelled as `int`. The Go fields are `uint`, but assigning `Atoi`'s `int` result to them does not compile (reader.go:91-92).
- The Go source does not compile in two more places, and the model follows the evident intent. `k[0]`/`v[1]` at reader.go:100-101 are read as `kv[0]`/`kv[1]`. `rawv` at gff3.go:108 is read as the value the lookup at gff3.go:100 found.
- An attribute value is `kv[1]`, the text between the first and second `=`. Text after a second `=` is dropped, as the code does, not kept as part of the value.
- An empty line is an error, as the code's first-byte check makes it, not a comment.
- The model assumes a 64-bit platform, where Go's `int` is 64 bits wide (on a 32-bit platform it is 32 bits). `Atoi` gives the nearest 64-bit bound for an out-of-range value, as `strconv.Atoi` does when its range error is discarded. This includes digits that overflow before a non-digit.
- The unused `Reader` fields `column` and `field` (reader.go:32-33) and the commented-out `xLoadRecord` (reader.go:118-156) are dead code.
- tests/situational_run.go (file opening, command-line arguments, CPU profiling) is not part of this model.
- Characters stand for bytes; no encoding is modelled.
