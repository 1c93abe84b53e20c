/** `find_pairs_type` of test/test.py: guess the column layout of a pairs file from its
    lines. As written, the assignment meant for `is_4DN` binds a new name instead, so the
    4DN flag never rises; `FindPairsTypeFixed` is the same loop with that assignment made. */
module Sniff {
  import opened Results
  import opened PyStr
  import opened PyInt
  import opened Readers

  /** The two tests one line undergoes: (fields 2 and 6 are integers, fields 2 and 4 are
      integers). Field 6 is only read when field 2 is an integer, so a short line raises
      `IndexError` only then; field 4 is reached only after field 6 was. */
  function LineTests(line: string, d: char): (res: Result<(bool, bool)>)
    ensures res.Err? ==> res.error == IndexError
    ensures Occurrences(RStrip(line), d) >= 6 ==> res.Ok?
    ensures res.Ok? && (res.value.0 || res.value.1) ==> Occurrences(RStrip(line), d) >= 6
  {
    var f := Split(RStrip(line), d);
    if |f| < 3 then Err(IndexError)
    else if !IsStr(f[2]) then Ok((false, false))
    else if |f| < 7 then Err(IndexError)
    else Ok((IsStr(f[6]), IsStr(f[4])))
  }

  /** The decision after each line: a layout once some flag is up, `None` to read on. */
  function Decide(isJuicer: bool, is4DN: bool): (t: Option<FileType>)
    ensures t.None? <==> !isJuicer && !is4DN
    ensures t == Some(FourDN) <==> is4DN && !isJuicer
    ensures t == Some(Juicer) <==> isJuicer && !is4DN
    ensures t == Some(Undetermined) <==> isJuicer && is4DN
  {
    if isJuicer && !is4DN then Some(Juicer)
    else if !isJuicer && is4DN then Some(FourDN)
    else if isJuicer && is4DN then Some(Undetermined)
    else None
  }

  /** The tests of one line, for a given delimiter, as a function value. */
  function LayoutTest(d: char): string -> Result<(bool, bool)> {
    line => LineTests(line, d)
  }

  /** The layout the loop reports, or the exception it raises, when `tests` gives the outcome
      of both tests on a line. `setsFourDN` says whether the 4DN test raises the 4DN flag:
      false as written, true once line 61 is corrected. */
  function Guess(lines: seq<string>, tests: string -> Result<(bool, bool)>, setsFourDN: bool): (res: Result<FileType>)
    ensures res == Ok(FourDN) ==> setsFourDN
    ensures res.Err? ==> exists i :: 0 <= i < |lines| && tests(lines[i]) == Err(res.error)
  {
    if lines == [] then Ok(Undetermined)
    else
      match tests(lines[0])
      case Err(e) => Err(e)
      case Ok(flags) =>
        match Decide(flags.0, setsFourDN && flags.1)
        case Some(t) => Ok(t)
        case None => Guess(lines[1..], tests, setsFourDN)
  }

  /** The line at `i` passes the juicer test. */
  predicate JuicerAt(lines: seq<string>, tests: string -> Result<(bool, bool)>, i: int)
    requires 0 <= i < |lines|
  {
    tests(lines[i]).Ok? && tests(lines[i]).value.0
  }

  /** No line before `i` raises or passes the juicer test. */
  predicate NoJuicerBefore(lines: seq<string>, tests: string -> Result<(bool, bool)>, i: int)
    requires 0 <= i <= |lines|
  {
    forall j :: 0 <= j < i ==> tests(lines[j]).Ok? && !tests(lines[j]).value.0
  }

  /** No line before `i` raises or passes either test. */
  predicate NoEvidenceBefore(lines: seq<string>, tests: string -> Result<(bool, bool)>, i: int)
    requires 0 <= i <= |lines|
  {
    forall j :: 0 <= j < i ==> tests(lines[j]) == Ok((false, false))
  }

  /** As written, the result is 'juicer' exactly when some line passes the juicer test and
      no earlier line raises, and 'undetermined' exactly when no line raises or passes it. */
  lemma {:induction false} GuessAsWritten(lines: seq<string>, tests: string -> Result<(bool, bool)>)
    ensures Guess(lines, tests, false) == Ok(Juicer) <==>
      exists i :: 0 <= i < |lines| && NoJuicerBefore(lines, tests, i) && JuicerAt(lines, tests, i)
    ensures Guess(lines, tests, false) == Ok(Undetermined) <==> NoJuicerBefore(lines, tests, |lines|)
    decreases |lines|
  {
    if lines != [] {
      var rest := lines[1..];
      GuessAsWritten(rest, tests);
      assert forall j :: 0 <= j < |rest| ==> rest[j] == lines[j + 1];
      if Guess(lines, tests, false) == Ok(Juicer) && !JuicerAt(lines, tests, 0) {
        var i :| 0 <= i < |rest| && NoJuicerBefore(rest, tests, i) && JuicerAt(rest, tests, i);
        assert NoJuicerBefore(lines, tests, i + 1) && JuicerAt(lines, tests, i + 1);
      }
      if exists i :: 0 <= i < |lines| && NoJuicerBefore(lines, tests, i) && JuicerAt(lines, tests, i) {
        var i :| 0 <= i < |lines| && NoJuicerBefore(lines, tests, i) && JuicerAt(lines, tests, i);
        if i > 0 {
          assert NoJuicerBefore(rest, tests, i - 1) && JuicerAt(rest, tests, i - 1);
        }
      }
      if NoJuicerBefore(lines, tests, |lines|) {
        assert NoJuicerBefore(rest, tests, |rest|);
      }
    }
  }

  /** With line 61 corrected, the result is '4DN' exactly when the first line that raises
      or passes a test passes the 4DN test and not the juicer test. */
  lemma {:induction false} GuessFixedFourDN(lines: seq<string>, tests: string -> Result<(bool, bool)>)
    ensures Guess(lines, tests, true) == Ok(FourDN) <==>
      exists i :: 0 <= i < |lines| && NoEvidenceBefore(lines, tests, i) && tests(lines[i]) == Ok((false, true))
    decreases |lines|
  {
    if lines != [] {
      var rest := lines[1..];
      GuessFixedFourDN(rest, tests);
      assert forall j :: 0 <= j < |rest| ==> rest[j] == lines[j + 1];
      if Guess(lines, tests, true) == Ok(FourDN) && tests(lines[0]) != Ok((false, true)) {
        var i :| 0 <= i < |rest| && NoEvidenceBefore(rest, tests, i) && tests(rest[i]) == Ok((false, true));
        assert NoEvidenceBefore(lines, tests, i + 1) && tests(lines[i + 1]) == Ok((false, true));
      }
      if exists i :: 0 <= i < |lines| && NoEvidenceBefore(lines, tests, i) && tests(lines[i]) == Ok((false, true)) {
        var i :| 0 <= i < |lines| && NoEvidenceBefore(lines, tests, i) && tests(lines[i]) == Ok((false, true));
        if i > 0 {
          assert NoEvidenceBefore(rest, tests, i - 1) && tests(rest[i - 1]) == Ok((false, true));
        }
      }
    }
  }

  /** The columns of a 4DN pairs line: `readID chr1 pos1 chr2 pos2 strand1 strand2`. */
  function SampleFourDNColumns(): seq<string> {
    ["r", "1", "5", "2", "9", "+", "-"]
  }

  /** The sample columns, joined by tabs, are a line with those columns; its position
      columns 2 and 4 are integers and its strand column 6 is not. */
  lemma SampleFourDNLineColumns()
    ensures var f := SampleFourDNColumns();
      Columns(Join(f, TAB), TAB, f) && |f| == 7 && IsStr(f[2]) && IsStr(f[4]) && !IsStr(f[6])
  {
    var f := SampleFourDNColumns();
    assert Columns(Join(f, TAB), TAB, f) by {
      assert forall i :: 0 <= i < |f| ==> |f[i]| == 1 && f[i][0] != TAB;
      ColumnsOfJoin(f, TAB);
    }
    SampleFourDNFields();
  }

  /** Columns 2 and 4 of the sample are integers and its strand column 6 is not. */
  lemma SampleFourDNFields()
    ensures var f := SampleFourDNColumns(); IsStr(f[2]) && IsStr(f[4]) && !IsStr(f[6])
  {
    SamplePos1IsInt();
    SamplePos2IsInt();
    SampleStrandNotInt();
  }

  /** Column 2 of the sample, `5`, passes `is_str`. */
  lemma SamplePos1IsInt()
    ensures IsStr(SampleFourDNColumns()[2])
  {
    assert SampleFourDNColumns()[2] == ShowInt(5);
    ParseShow(5);
  }

  /** Column 4 of the sample, `9`, passes `is_str`. */
  lemma SamplePos2IsInt()
    ensures IsStr(SampleFourDNColumns()[4])
  {
    assert SampleFourDNColumns()[4] == ShowInt(9);
    ParseShow(9);
  }

  /** Column 6 of the sample, the strand `-`, holds no digit and fails `is_str`. */
  lemma SampleStrandNotInt()
    ensures !IsStr(SampleFourDNColumns()[6])
  {
    assert SampleFourDNColumns()[6] == "-" && !IsDigit('-');
  }

  /** The tests of a line of at least seven columns read columns 2, 4 and 6 and never raise. */
  lemma LineTestsOfColumns(line: string, d: char, f: seq<string>)
    requires Columns(line, d, f) && |f| >= 7
    ensures LineTests(line, d) == Ok((IsStr(f[2]) && IsStr(f[6]), IsStr(f[2]) && IsStr(f[4])))
  {
    ColumnsAreSplit(line, d, f);
  }

  /** A 4DN pairs line (integer positions in columns 2 and 4, a strand that is not an integer
      in column 6) passes the 4DN test and fails the juicer test. As written it is therefore
      reported 'undetermined', and `read_pairs` then raises `NameError` on it; with line 61
      corrected it is reported '4DN'. `SampleFourDNLineColumns` exhibits such a line. */
  lemma FourDNLineMisread(line: string, d: char, f: seq<string>)
    requires Columns(line, d, f) && |f| >= 7
    requires IsStr(f[2]) && IsStr(f[4]) && !IsStr(f[6])
    ensures LineTests(line, d) == Ok((false, true))
    ensures Guess([line], LayoutTest(d), false) == Ok(Undetermined)
    ensures Guess([line], LayoutTest(d), true) == Ok(FourDN)
    ensures Project([line], LineReader(Pairs(Undetermined, d))) == Err(NameError)
  {
    LineTestsOfColumns(line, d, f);
    assert [line][1..] == [];
    UndeterminedPairs([line], d);
  }

  /** A line whose columns 2, 4 and 6 are all integers, as in a juicer file whose strands are
      written as numbers, passes both tests. As written it is reported 'juicer'; with line 61
      corrected both flags rise and it is reported 'undetermined'. */
  lemma IntegerColumnsAfterFix(line: string, d: char, f: seq<string>)
    requires Columns(line, d, f) && |f| >= 7
    requires IsStr(f[2]) && IsStr(f[4]) && IsStr(f[6])
    ensures LineTests(line, d) == Ok((true, true))
    ensures Guess([line], LayoutTest(d), false) == Ok(Juicer)
    ensures Guess([line], LayoutTest(d), true) == Ok(Undetermined)
  {
    LineTestsOfColumns(line, d, f);
  }

  /** `find_pairs_type(lines, delimiter)` as written. */
  method FindPairsType(lines: seq<string>, delimiter: char) returns (result: Result<FileType>)
    ensures result == Guess(lines, LayoutTest(delimiter), false)
  {
    var isJuicer := false;
    var is4DN := false;
    for i := 0 to |lines|
      invariant !isJuicer
      invariant Guess(lines[i..], LayoutTest(delimiter), false) == Guess(lines, LayoutTest(delimiter), false)
    {
      assert lines[i..][1..] == lines[i + 1..];
      var fields := Split(RStrip(lines[i]), delimiter);
      if |fields| < 3 {
        return Err(IndexError);
      }
      if IsStr(fields[2]) {
        if |fields| < 7 {
          return Err(IndexError);
        }
        if IsStr(fields[6]) {
          isJuicer := true;
        }
      }
      if IsStr(fields[2]) && IsStr(fields[4]) {
        var if4DN := true;  // binds a new name: is4DN keeps its value
      }
      if isJuicer && !is4DN {
        return Ok(Juicer);
      } else if !isJuicer && is4DN {
        return Ok(FourDN);
      } else if isJuicer && is4DN {
        return Ok(Undetermined);
      }
    }
    return Ok(Undetermined);
  }

  /** `find_pairs_type(lines, delimiter)` with line 61 setting `is_4DN` as intended. */
  method FindPairsTypeFixed(lines: seq<string>, delimiter: char) returns (result: Result<FileType>)
    ensures result == Guess(lines, LayoutTest(delimiter), true)
  {
    var isJuicer := false;
    var is4DN := false;
    for i := 0 to |lines|
      invariant !isJuicer && !is4DN
      invariant Guess(lines[i..], LayoutTest(delimiter), true) == Guess(lines, LayoutTest(delimiter), true)
    {
      assert lines[i..][1..] == lines[i + 1..];
      var fields := Split(RStrip(lines[i]), delimiter);
      if |fields| < 3 {
        return Err(IndexError);
      }
      if IsStr(fields[2]) {
        if |fields| < 7 {
          return Err(IndexError);
        }
        if IsStr(fields[6]) {
          isJuicer := true;
        }
      }
      if IsStr(fields[2]) && IsStr(fields[4]) {
        is4DN := true;
      }
      if isJuicer && !is4DN {
        return Ok(Juicer);
      } else if !isJuicer && is4DN {
        return Ok(FourDN);
      } else if isJuicer && is4DN {
        return Ok(Undetermined);
      }
    }
    return Ok(Undetermined);
  }
}
