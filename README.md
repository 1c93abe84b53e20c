# Pairix query oracle

The pairix test suite (test/test.py) checks the library's 1D and 2D region queries against
answers it computes itself. It reads every record of a bgzipped VCF or pairs file into a list.
Then it filters that list by chromosome and by closed-interval overlap. This project models
that reference computation and proves what it returns:

- `overlap1`: closed-interval overlap, with Python's `int()` applied to string coordinates.
- `get_result` and `get_result_2D`: order-preserving filters over the record list.
- `read_vcf` and `read_pairs`, line by line: the line is right-stripped and split on a
  delimiter. Fixed columns are picked, and each position is doubled into a zero-width
  interval `[p, p]`.
- `find_pairs_type` and `is_str`: guessing the juicer or 4DN column layout of a pairs file.

Python exceptions are part of the model. Each operation returns a `Result` that is either a
value or the `IndexError`, `ValueError` or `NameError` the Python code raises. The `NameError`
is the `UnboundLocalError` (a subclass of `NameError`) that `read_pairs` raises when it reads
its column variables, which are locals of the function, before any branch assigned them. The model follows
Python's left-to-right, short-circuit evaluation, so a record or line raises only at a
subscript or an `int()` call that the code actually reaches.

Files:

- `results.dfy`: `Option`, `Result` and the exceptions.
- `pystr.dfy`: `str.rstrip` and `str.split` with a one-character separator, and `join` as the
  inverse of `split`.
- `pyint.dfy`: `int(s)` on strings, with the whitespace it skips, `is_str`, and `str(n)` as
  its inverse.
- `oracle.dfy`: `overlap1`, `get_result` and `get_result_2D`.
- `readers.dfy`: the per-line logic of `read_vcf` and `read_pairs`.
- `sniff.dfy`: `find_pairs_type` as written, and the same loop with line 61 corrected.

The module docstring (test/test.py:14-18) says the tests expect either juicer or 4DN pairs
files, and the docstring of `find_pairs_type` (test/test.py:48-49) says it tells the two
apart. As written it never reports 4DN (see Findings). This model follows the code, and also
models the loop with that line corrected.

## Model

| member | source | states |
|---|---|---|
| PyStr.RStrip | test/test.py:39 | `line.rstrip()` is the longest prefix of the line that does not end in whitespace; everything it drops is Python whitespace |
| PyStr.Split | test/test.py:39 | `split(d)` returns one more field than there are delimiters; no field contains `d`; joining the fields with `d` gives back the string |
| PyStr.SplitJoin | test/test.py:39 | splitting a join of `d`-free fields gives back those fields, so the fields of a line are unique |
| PyInt.ParseInt | test/test.py:74 | `int(s)` succeeds only on strings made of digits, signs, underscores and the whitespace it skips, and a negative result needs a minus sign |
| PyInt.SkipsSurroundingSpace | test/test.py:74 | a whitespace character that `int()` skips, put before or after a string, does not change what `int()` returns |
| PyInt.SeparatorNotSkipped | test/test.py:74 | the ASCII separators U+001C to U+001F count as whitespace for `str.isspace()`, but `int()` raises on a string that starts with one |
| PyInt.IsStr | test/test.py:71-77 | `is_str(s)` holds only of strings with at least one ASCII digit, so a strand such as `-` fails it |
| PyInt.ParseShow | test/test.py:71-77 | `int(str(n)) == n` for every integer, so every printed integer passes `is_str` |
| QueryOracle.Overlap1 | test/test.py:103-104 | `overlap1` returns True exactly when both coordinates parse and `[int(a0), int(a1)]` overlaps `[b0, b1]`; with both coordinates parsing it returns whether they overlap; it raises exactly when `a0` does not parse, or `int(a0) <= b1` and `a1` does not parse, and then only `ValueError` |
| QueryOracle.OverlapsIffCommonPoint | test/test.py:103-104 | two non-empty closed intervals pass the test iff they share a point, so both ends are inclusive |
| QueryOracle.PointOverlaps | test/test.py:103-104 | a zero-width record `[p, p]` overlaps `[s, e]` iff `s <= p <= e` |
| QueryOracle.Keep | test/test.py:107-119 | the test of one record raises only `IndexError` or `ValueError`, raises `IndexError` only on a record shorter than the query reads (3 or 6 fields), and keeps a record only if it has those fields and lies on the queried chromosome |
| QueryOracle.KeepIffMatches | test/test.py:110 | the loop's test keeps a record iff it lies on the queried chromosome(s) with parsed intervals overlapping the queried range(s) |
| QueryOracle.KeepTotalOnWellFormed | test/test.py:117 | a record long enough and with parseable coordinates never raises; the test then returns exactly whether it matches |
| QueryOracle.Hits | test/test.py:108-112 | the positions of the kept records are strictly increasing, each is kept, and every kept position is listed |
| QueryOracle.Select | test/test.py:107-119 | a successful answer is no longer than the input and every record in it passes the test |
| QueryOracle.SelectErrors | test/test.py:107-112 | `get_result` raises iff some record's test raises, and then raises the first such record's exception |
| QueryOracle.SelectIsHits | test/test.py:107-112 | a successful answer is exactly the records at the kept positions, in input order, so it is an order-preserving subsequence and its length is the number of matches |
| QueryOracle.SelectCounts | test/test.py:107-112 | each kept record occurs in the answer as often as in the input (duplicates kept), and rejected records not at all |
| QueryOracle.SelectSoundComplete | test/test.py:107-119 | every returned record matches the query, and every matching input record is returned |
| QueryOracle.KeepRefines | test/test.py:117 | on one record, the 2D test raises whenever the first-axis test raises, with the same exception, and rejects whenever it rejects |
| QueryOracle.SelectRefines | test/test.py:114-119 | filtering by a finer test equals filtering the answer of a coarser test by the finer one |
| QueryOracle.Select2DRefines1D | test/test.py:114-119 | if the 2D answer succeeds, the 1D answer on the first axis succeeds too, and the 2D answer is that 1D answer filtered again, hence a subsequence of it |
| QueryOracle.OneSidedQuery | test/test.py:146-152 | with second-axis range `[0, sys.maxsize]`, a zero-width record whose position is in that range passes the 2D test iff it passes the 1D test and its `r[3]` is `chrom2` |
| QueryOracle.GetResult | test/test.py:107-112 | the loop returns the answer `Select` defines for the 1D test, or the exception it raises |
| QueryOracle.GetResult2D | test/test.py:114-119 | the loop returns the answer `Select` defines for the 2D test, or the exception it raises |
| Readers.ProjectLine | test/test.py:88-99 | with a layout other than juicer or 4DN every line raises `NameError`; otherwise a line raises only `IndexError`; a record has three fields for a VCF line and six for a pairs line |
| Readers.Project | test/test.py:31-100 | the fold behind both readers, `read_vcf` (31-44) and `read_pairs` (80-100): a reader that succeeds yields exactly as many records as there are lines |
| Readers.ColumnsAreSplit | test/test.py:88 | a list of fields is the delimited columns of the stripped line iff it is what `split` returns |
| Readers.VcfLine | test/test.py:39-43 | `read_vcf` maps a line to `[c0, c1, c1]` from its first two tab-separated columns, and raises `IndexError` iff the stripped line has no tab |
| Readers.JuicerLine | test/test.py:89-93 | with the juicer layout, a line becomes `[c1, c2, c2, c5, c6, c6]` and raises iff it has fewer than six delimiters, and what it raises is `IndexError` |
| Readers.FourDNLine | test/test.py:94-98 | with the 4DN layout, a line becomes `[c1, c2, c2, c3, c4, c4]` and raises iff it has fewer than four delimiters, and what it raises is `IndexError` |
| Readers.RecordShape | test/test.py:99 | VCF records have three fields and pairs records six; both carry zero-width intervals made of delimiter-free fields |
| Readers.VcfPointQuery | test/test.py:40-43 | a VCF record answers a 1D query iff its chromosome matches and its position lies in the range |
| Readers.PairsPointQuery | test/test.py:88-99 | a pairs record answers a 2D query iff both positions lie on the queried chromosomes and in the queried ranges |
| Readers.ProjectPerLine | test/test.py:33-44 | a reader yields exactly one record per line, in file order, or the first line's exception |
| Readers.UndeterminedPairs | test/test.py:89-99 | with an unrecognised layout, `read_pairs` returns `[]` on an empty file and raises `NameError` otherwise |
| Readers.ReadVcf | test/test.py:31-44 | the loop returns the per-line projection of every line, or the first exception |
| Readers.ReadPairs | test/test.py:80-100 | the loop returns the per-line projection of every line for the layout and delimiter, or the first exception |
| Sniff.LineTests | test/test.py:57-61 | the tests of one line raise only `IndexError`; a line with at least six delimiters never raises, and a line with fewer passes neither test |
| Sniff.Decide | test/test.py:62-67 | the loop goes on iff neither flag is set, reports juicer iff only the juicer flag is set, 4DN iff only the 4DN flag is set, and 'undetermined' iff both are set |
| Sniff.Guess | test/test.py:58-68 | '4DN' is reported only when the 4DN test sets the 4DN flag, so as written `find_pairs_type` never returns '4DN'; an exception is always one that some line's tests raise |
| Sniff.GuessAsWritten | test/test.py:47-68 | as written, the result is 'juicer' iff some line passes the juicer test with no earlier line raising or passing it, and 'undetermined' iff no line raises or passes it |
| Sniff.GuessFixedFourDN | test/test.py:58-67 | with line 61 corrected, the result is '4DN' iff the first line with any evidence passes only the 4DN test |
| Sniff.LineTestsOfColumns | test/test.py:58-60 | a line of seven or more columns never raises; its tests read columns 2, 4 and 6 |
| Sniff.SampleFourDNLineColumns | test/test.py:58-60 | the tab-joined line `r 1 5 2 9 + -` has seven columns, integer columns 2 and 4 and a non-integer column 6 |
| Sniff.SampleFourDNFields | test/test.py:71-77 | `is_str` holds of `5` and `9` and not of the strand `-` |
| Sniff.SamplePos1IsInt | test/test.py:71-77 | `is_str("5")` holds, as `int(str(5)) == 5` |
| Sniff.SamplePos2IsInt | test/test.py:71-77 | `is_str("9")` holds, as `int(str(9)) == 9` |
| Sniff.SampleStrandNotInt | test/test.py:71-77 | `is_str("-")` fails: the strand holds no digit |
| Sniff.FourDNLineMisread | test/test.py:58-68 | a 4DN line is reported 'undetermined' as written, which makes `read_pairs` raise `NameError`; with the correction it is reported '4DN' |
| Sniff.IntegerColumnsAfterFix | test/test.py:58-67 | a line whose columns 2, 4 and 6 are all integers passes both tests: as written it is reported 'juicer', with line 61 corrected 'undetermined' |
| Sniff.FindPairsType | test/test.py:47-68 | the loop, with its flags and early return, returns the as-written guess |
| Sniff.FindPairsTypeFixed | test/test.py:47-68 | the same loop with `is_4DN` set at line 61 returns the corrected guess |

## Findings

| source | as written | input that shows it | evidently intended | confidence | as-written member | corrected member |
|---|---|---|---|---|---|---|
| test/test.py:61 | `if_4DN = True` binds a new local, so `is_4DN` stays False and '4DN' is never returned | a 4DN line `r\t1\t5\t2\t9\t+\t-`: reported 'undetermined', after which `read_pairs` raises `NameError` | `is_4DN = True`, so that such a line is reported '4DN' | not executed; certain that the flag is never set. With the correction, a line whose columns 2, 4 and 6 are all integers passes both tests and is reported 'undetermined' (Sniff.IntegerColumnsAfterFix) | Sniff.FourDNLineMisread | Sniff.GuessFixedFourDN |

## Left out

- The pypairix library (`open`, `query`, `querys`, `query2D`, `querys2D`, `get_blocknames`), with its bin index and compressed block store, is not part of this model. Its code is not among the files modelled; the suite only compares its output with the answers modelled here.
- Reading files is not modelled: gzip decompression, iteration over lines and UTF-8 decoding (test/test.py:34-38, 52-56, 83-87). Readers take the lines as already-read strings.
- The unittest classes and the `print` of block names (test/test.py:123-216) only connect the oracle to the library. Note that lines 146 and 164 call `find_pairs_type` without its required `delimiter` argument. As written, they would raise `TypeError`.
- PyInt.ParseInt accepts ASCII digits only. It does not model Python's acceptance of other Unicode decimal digits, or the 4300-digit limit on converting strings to integers.
- PyStr.Split takes a one-character separator, as every call site passes. An empty separator (which raises `ValueError`) and multi-character separators are not modelled.
- Readers.ReadPairs takes the layout as `FileType`. Python's `file_type` is any string; every string other than 'juicer' and '4DN' behaves like `Undetermined`. Python's defaults (`file_type='undetermined'`, `delimiter='\t'`, test/test.py:80) are not modelled as defaults: a call that omits them corresponds to passing `Undetermined` or `TAB` explicitly. The call at line 147 passes only `file_type`, so it corresponds to `delimiter` = `TAB`.
- QueryOracle.Overlap1 takes string coordinates and integer bounds, as at every call site. Python's `int()` on arbitrary values is not modelled.
- `sys.maxsize` is the 64-bit constant 2^63 - 1.
- Records are values. `retval` in the Python code holds the same list objects as `regions`, and that sharing is not modelled.
