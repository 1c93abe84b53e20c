/** The per-line logic of `read_vcf` and `read_pairs` in test/test.py: each line is
    right-stripped, split on a delimiter, and fixed columns are projected into a record whose
    single positions are doubled into zero-width intervals `[p, p]`. Lines are given as
    already-read strings. */
module Readers {
  import opened Results
  import opened PyStr
  import opened PyInt
  import opened QueryOracle

  const TAB: char := '\t'

  /** The column layout of a pairs file: juicer (`chr1` `pos1` `chr2` `pos2` in columns
      1, 2, 5, 6), 4DN (columns 1, 2, 3, 4), or anything else, which `read_pairs` does not
      recognise. */
  datatype FileType = Juicer | FourDN | Undetermined

  /** What a reader makes of a line: `read_vcf`, or `read_pairs` with a layout and a delimiter. */
  datatype LineFormat = Vcf | Pairs(fileType: FileType, delimiter: char)

  /** The record one line becomes, or the exception it raises. */
  function ProjectLine(line: string, fmt: LineFormat): (res: Result<Record>)
    ensures fmt.Pairs? && fmt.fileType == Undetermined ==> res.Err?
    ensures res.Err? ==>
      res.error == (if fmt.Pairs? && fmt.fileType == Undetermined then NameError else IndexError)
    ensures res.Ok? ==> |res.value| == (if fmt.Vcf? then 3 else 6)
  {
    match fmt
    case Vcf =>
      var f := Split(RStrip(line), TAB);
      if |f| < 2 then Err(IndexError) else Ok([f[0], f[1], f[1]])
    case Pairs(fileType, d) =>
      var f := Split(RStrip(line), d);
      match fileType
      case Juicer => if |f| < 7 then Err(IndexError) else Ok([f[1], f[2], f[2], f[5], f[6], f[6]])
      case FourDN => if |f| < 5 then Err(IndexError) else Ok([f[1], f[2], f[2], f[3], f[4], f[4]])
      case Undetermined => Err(NameError)
  }

  /** A reader's per-line step, as a function value. */
  function LineReader(fmt: LineFormat): string -> Result<Record> {
    line => ProjectLine(line, fmt)
  }

  /** The records `read` makes of all `lines`, in order, or the exception of the first line
      that raises. */
  function Project(lines: seq<string>, read: string -> Result<Record>): (res: Result<seq<Record>>)
    ensures res.Ok? ==> |res.value| == |lines|
  {
    if lines == [] then Ok([])
    else
      match Project(lines[..|lines| - 1], read)
      case Err(e) => Err(e)
      case Ok(acc) =>
        match read(lines[|lines| - 1])
        case Err(e) => Err(e)
        case Ok(r) => Ok(acc + [r])
  }

  /** `f` are the `d`-separated columns of the right-stripped `line`. */
  predicate Columns(line: string, d: char, f: seq<string>) {
    |f| >= 1 && (forall i :: 0 <= i < |f| ==> d !in f[i]) && Join(f, d) == RStrip(line)
  }

  /** The columns of a line are unique, and they are what `split` returns. */
  lemma ColumnsAreSplit(line: string, d: char, f: seq<string>)
    ensures Columns(line, d, f) <==> f == Split(RStrip(line), d)
  {
    if Columns(line, d, f) {
      SplitJoin(f, d);
    }
  }

  /** Fields free of `d` whose last character is not whitespace are the columns of their join. */
  lemma ColumnsOfJoin(f: seq<string>, d: char)
    requires |f| >= 1 && forall i :: 0 <= i < |f| ==> d !in f[i]
    requires |f[|f| - 1]| > 0 && !IsSpace(f[|f| - 1][|f[|f| - 1]| - 1])
    ensures Columns(Join(f, d), d, f)
  {
    JoinEnd(f, d);
  }

  /** `read_vcf` turns a line into `[chrom, pos, pos]` from its first two tab-separated
      columns, and raises `IndexError` exactly when the line has a single column. */
  lemma VcfLine(line: string, r: Record)
    ensures ProjectLine(line, Vcf) == Ok(r) <==>
      exists f :: Columns(line, TAB, f) && |f| >= 2 && r == [f[0], f[1], f[1]]
    ensures ProjectLine(line, Vcf).Err? <==> TAB !in RStrip(line)
    ensures ProjectLine(line, Vcf).Err? ==> ProjectLine(line, Vcf).error == IndexError
  {
    var f := Split(RStrip(line), TAB);
    ColumnsAreSplit(line, TAB, f);
    forall g | Columns(line, TAB, g) ensures g == f {
      ColumnsAreSplit(line, TAB, g);
    }
    if TAB in RStrip(line) {
      JoinSingle(f, TAB);
    }
  }

  /** A line of a single column contains no delimiter. */
  lemma JoinSingle(f: seq<string>, d: char)
    requires |f| >= 1 && forall i :: 0 <= i < |f| ==> d !in f[i]
    requires d in Join(f, d)
    ensures |f| >= 2
  {
  }

  /** `read_pairs` with the juicer layout takes columns 1, 2, 5 and 6 and needs at least seven. */
  lemma JuicerLine(line: string, d: char, r: Record)
    ensures ProjectLine(line, Pairs(Juicer, d)) == Ok(r) <==>
      exists f :: Columns(line, d, f) && |f| >= 7 && r == [f[1], f[2], f[2], f[5], f[6], f[6]]
    ensures ProjectLine(line, Pairs(Juicer, d)).Err? <==> Occurrences(RStrip(line), d) < 6
    ensures ProjectLine(line, Pairs(Juicer, d)).Err? ==> ProjectLine(line, Pairs(Juicer, d)).error == IndexError
  {
    var f := Split(RStrip(line), d);
    ColumnsAreSplit(line, d, f);
    forall g | Columns(line, d, g) ensures g == f {
      ColumnsAreSplit(line, d, g);
    }
  }

  /** `read_pairs` with the 4DN layout takes columns 1, 2, 3 and 4 and needs at least five. */
  lemma FourDNLine(line: string, d: char, r: Record)
    ensures ProjectLine(line, Pairs(FourDN, d)) == Ok(r) <==>
      exists f :: Columns(line, d, f) && |f| >= 5 && r == [f[1], f[2], f[2], f[3], f[4], f[4]]
    ensures ProjectLine(line, Pairs(FourDN, d)).Err? <==> Occurrences(RStrip(line), d) < 4
    ensures ProjectLine(line, Pairs(FourDN, d)).Err? ==> ProjectLine(line, Pairs(FourDN, d)).error == IndexError
  {
    var f := Split(RStrip(line), d);
    ColumnsAreSplit(line, d, f);
    forall g | Columns(line, d, g) ensures g == f {
      ColumnsAreSplit(line, d, g);
    }
  }

  /** Every record a reader produces is made of delimiter-free fields and carries zero-width
      intervals: three fields for a VCF line, six for a pairs line. */
  lemma RecordShape(line: string, fmt: LineFormat)
    requires ProjectLine(line, fmt).Ok?
    ensures var r := ProjectLine(line, fmt).value;
      (fmt.Vcf? ==> |r| == 3 && r[1] == r[2] && TAB !in r[0] && TAB !in r[1])
      && (fmt.Pairs? ==> |r| == 6 && r[1] == r[2] && r[4] == r[5]
                         && forall i :: 0 <= i < 6 ==> fmt.delimiter !in r[i])
  {
  }

  /** A VCF record answers a 1D query exactly when it lies on the chromosome and its
      position lies in the queried range. */
  lemma VcfPointQuery(line: string, c: string, s: int, e: int)
    requires ProjectLine(line, Vcf).Ok?
    requires ParseInt(ProjectLine(line, Vcf).value[1]).Some?
    ensures var r := ProjectLine(line, Vcf).value;
      Keep(r, Region1(c, s, e)) == Ok(true) <==>
        r[0] == c && Within(ParseInt(r[1]).value, s, e)
  {
    RecordShape(line, Vcf);
  }

  /** A pairs record answers a 2D query exactly when both of its positions lie on the queried
      chromosomes and in the queried ranges. */
  lemma PairsPointQuery(line: string, fmt: LineFormat, q: Query)
    requires fmt.Pairs? && q.Region2?
    requires ProjectLine(line, fmt).Ok?
    requires ParseInt(ProjectLine(line, fmt).value[1]).Some?
    requires ParseInt(ProjectLine(line, fmt).value[4]).Some?
    ensures var r := ProjectLine(line, fmt).value;
      Keep(r, q) == Ok(true) <==>
        r[0] == q.chrom && Within(ParseInt(r[1]).value, q.start, q.end)
        && r[3] == q.chrom2 && Within(ParseInt(r[4]).value, q.start2, q.end2)
  {
    RecordShape(line, fmt);
  }

  /** A reader yields one record per line, in line order, and fails exactly when some line
      raises, with the exception of the first such line. */
  lemma {:induction false} ProjectPerLine(lines: seq<string>, read: string -> Result<Record>)
    ensures Project(lines, read).Ok? <==> forall i :: 0 <= i < |lines| ==> read(lines[i]).Ok?
    ensures Project(lines, read).Ok? ==>
      |Project(lines, read).value| == |lines|
      && forall i :: 0 <= i < |lines| ==> read(lines[i]) == Ok(Project(lines, read).value[i])
    ensures Project(lines, read).Err? ==>
      exists i :: 0 <= i < |lines| && read(lines[i]) == Err(Project(lines, read).error)
        && forall j :: 0 <= j < i ==> read(lines[j]).Ok?
  {
    if lines != [] {
      var n := |lines| - 1;
      var init := lines[..n];
      ProjectPerLine(init, read);
      assert forall i :: 0 <= i < n ==> init[i] == lines[i];
    }
  }

  /** `read_pairs` with a layout it does not recognise reads no column: it returns `[]` for an
      empty file and raises `NameError` on the first line otherwise. */
  lemma UndeterminedPairs(lines: seq<string>, d: char)
    ensures Project(lines, LineReader(Pairs(Undetermined, d))) == if lines == [] then Ok([]) else Err(NameError)
  {
    ProjectPerLine(lines, LineReader(Pairs(Undetermined, d)));
  }

  /** Once a prefix of `lines` raises, the whole of `lines` raises the same exception. */
  lemma {:induction false} ProjectPropagatesError(lines: seq<string>, read: string -> Result<Record>, i: nat)
    requires i <= |lines| && Project(lines[..i], read).Err?
    ensures Project(lines, read) == Project(lines[..i], read)
    decreases |lines| - i
  {
    if i < |lines| {
      assert lines[..i + 1][..i] == lines[..i];
      ProjectPropagatesError(lines, read, i + 1);
    } else {
      assert lines[..i] == lines;
    }
  }

  /** `read_vcf` over the lines of a file. */
  method ReadVcf(lines: seq<string>) returns (result: Result<seq<Record>>)
    ensures result == Project(lines, LineReader(Vcf))
  {
    var retval: seq<Record> := [];
    for i := 0 to |lines|
      invariant Project(lines[..i], LineReader(Vcf)) == Ok(retval)
    {
      assert lines[..i + 1][..i] == lines[..i];
      var fields := Split(RStrip(lines[i]), TAB);
      if |fields| < 2 {
        ProjectPropagatesError(lines, LineReader(Vcf), i + 1);
        return Err(IndexError);
      }
      var chrom := fields[0];
      var start := fields[1];
      var end := fields[1];
      assert LineReader(Vcf)(lines[i]) == Ok([chrom, start, end]);
      retval := retval + [[chrom, start, end]];
    }
    assert lines[..|lines|] == lines;
    return Ok(retval);
  }

  /** `read_pairs` over the lines of a file, with a layout and a one-character delimiter. */
  method ReadPairs(lines: seq<string>, fileType: FileType, delimiter: char)
    returns (result: Result<seq<Record>>)
    ensures result == Project(lines, LineReader(Pairs(fileType, delimiter)))
  {
    var fmt := Pairs(fileType, delimiter);
    var retval: seq<Record> := [];
    for i := 0 to |lines|
      invariant Project(lines[..i], LineReader(fmt)) == Ok(retval)
    {
      assert lines[..i + 1][..i] == lines[..i];
      var fields := Split(RStrip(lines[i]), delimiter);
      var chrom1, start1, chrom2, start2;
      if fileType == Juicer {
        if |fields| < 7 {
          ProjectPropagatesError(lines, LineReader(fmt), i + 1);
          return Err(IndexError);
        }
        chrom1, start1, chrom2, start2 := fields[1], fields[2], fields[5], fields[6];
      } else if fileType == FourDN {
        if |fields| < 5 {
          ProjectPropagatesError(lines, LineReader(fmt), i + 1);
          return Err(IndexError);
        }
        chrom1, start1, chrom2, start2 := fields[1], fields[2], fields[3], fields[4];
      } else {
        // no branch bound the column variables: reading them raises NameError
        ProjectPropagatesError(lines, LineReader(fmt), i + 1);
        return Err(NameError);
      }
      var record := [chrom1, start1, start1, chrom2, start2, start2];
      assert LineReader(fmt)(lines[i]) == Ok(record);
      retval := retval + [record];
    }
    assert lines[..|lines|] == lines;
    return Ok(retval);
  }
}
