/** The reference answers the test suite computes for 1D and 2D region queries:
    `overlap1`, `get_result` and `get_result_2D` of test/test.py. A record is a Python list
    of strings (`[chrom, start, end]` or `[chrom1, start1, end1, chrom2, start2, end2]`);
    query bounds are Python integers. */
module QueryOracle {
  import opened Results
  import opened PyInt

  type Record = seq<string>

  /** `sys.maxsize` on a 64-bit build. */
  const MaxSize: int := 0x7FFF_FFFF_FFFF_FFFF

  /** A region query: one chromosome range (`get_result`), or a range on each axis
      (`get_result_2D`). */
  datatype Query =
    | Region1(chrom: string, start: int, end: int)
    | Region2(chrom: string, start: int, end: int, chrom2: string, start2: int, end2: int)

  /** The closed intervals `[a0, a1]` and `[b0, b1]` overlap: both ends inclusive. */
  predicate Overlaps(a0: int, a1: int, b0: int, b1: int) {
    a0 <= b1 && a1 >= b0
  }

  predicate Within(x: int, lo: int, hi: int) {
    lo <= x <= hi
  }

  /** Two non-empty closed intervals overlap exactly when they share a point. */
  lemma OverlapsIffCommonPoint(a0: int, a1: int, b0: int, b1: int)
    requires a0 <= a1 && b0 <= b1
    ensures Overlaps(a0, a1, b0, b1) <==> exists x :: Within(x, a0, a1) && Within(x, b0, b1)
  {
    if Overlaps(a0, a1, b0, b1) {
      var x := if a0 < b0 then b0 else a0;
      assert Within(x, a0, a1) && Within(x, b0, b1);
    }
  }

  /** A zero-width record `[p, p]` overlaps `[s, e]` exactly when `s <= p <= e`. */
  lemma PointOverlaps(p: int, s: int, e: int)
    ensures Overlaps(p, p, s, e) <==> Within(p, s, e)
  {
  }

  /** `overlap1(a0, a1, b0, b1)` with string coordinates `a0`, `a1` and integer bounds:
      `int(a0)` and `int(b1)` are compared first, and `int(a1)` is only reached when that
      comparison holds. */
  function Overlap1(a0: string, a1: string, b0: int, b1: int): (r: Result<bool>)
    ensures r == Ok(true) <==>
      ParseInt(a0).Some? && ParseInt(a1).Some? && Overlaps(ParseInt(a0).value, ParseInt(a1).value, b0, b1)
    ensures ParseInt(a0).Some? && ParseInt(a1).Some? ==>
      r == Ok(Overlaps(ParseInt(a0).value, ParseInt(a1).value, b0, b1))
    ensures r.Err? <==> ParseInt(a0).None? || (ParseInt(a0).value <= b1 && ParseInt(a1).None?)
    ensures r.Err? ==> r.error == ValueError
  {
    match ParseInt(a0)
    case None => Err(ValueError)
    case Some(x0) =>
      if !(x0 <= b1) then Ok(false)
      else
        match ParseInt(a1)
        case None => Err(ValueError)
        case Some(x1) => Ok(x1 >= b0)
  }

  /** The test in the loop of `get_result` (line 110) or `get_result_2D` (line 117) for one
      record: the conjuncts are evaluated left to right and stop at the first false one, so a
      record only raises for the subscripts and conversions actually reached. */
  function Keep(r: Record, q: Query): (res: Result<bool>)
    ensures res.Err? ==> res.error == IndexError || res.error == ValueError
    ensures res.Err? && res.error == IndexError ==> |r| < (if q.Region1? then 3 else 6)
    ensures res == Ok(true) ==> |r| >= (if q.Region1? then 3 else 6) && r[0] == q.chrom
  {
    var first :=
      if |r| < 1 then Err(IndexError)
      else if r[0] != q.chrom then Ok(false)
      else if |r| < 3 then Err(IndexError)
      else Overlap1(r[1], r[2], q.start, q.end);
    match q
    case Region1(_, _, _) => first
    case Region2(_, _, _, chrom2, start2, end2) =>
      if first != Ok(true) then first
      else if |r| < 4 then Err(IndexError)
      else if r[3] != chrom2 then Ok(false)
      else if |r| < 6 then Err(IndexError)
      else Overlap1(r[4], r[5], start2, end2)
  }

  /** The record lies on `chrom` and its interval `[int(r[1]), int(r[2])]` overlaps `[s, e]`. */
  predicate OnAxis1(r: Record, chrom: string, s: int, e: int) {
    |r| >= 3 && r[0] == chrom && ParseInt(r[1]).Some? && ParseInt(r[2]).Some?
    && Overlaps(ParseInt(r[1]).value, ParseInt(r[2]).value, s, e)
  }

  /** The record's second axis `r[3]`, `[int(r[4]), int(r[5])]` lies on `chrom2` and overlaps `[s2, e2]`. */
  predicate OnAxis2(r: Record, chrom2: string, s2: int, e2: int) {
    |r| >= 6 && r[3] == chrom2 && ParseInt(r[4]).Some? && ParseInt(r[5]).Some?
    && Overlaps(ParseInt(r[4]).value, ParseInt(r[5]).value, s2, e2)
  }

  /** What the query asks of a record, stated without evaluation order or exceptions. */
  predicate Matches(r: Record, q: Query) {
    match q
    case Region1(c, s, e) => OnAxis1(r, c, s, e)
    case Region2(c, s, e, c2, s2, e2) => OnAxis1(r, c, s, e) && OnAxis2(r, c2, s2, e2)
  }

  /** A record is kept exactly when it matches the query on every axis. */
  lemma KeepIffMatches(r: Record, q: Query)
    ensures Keep(r, q) == Ok(true) <==> Matches(r, q)
  {
  }

  /** Every record either matches or is rejected, unless its test raises: a record whose
      fields all parse never raises. */
  lemma KeepTotalOnWellFormed(r: Record, q: Query)
    requires |r| >= (if q.Region1? then 3 else 6)
    requires ParseInt(r[1]).Some? && ParseInt(r[2]).Some?
    requires q.Region2? ==> ParseInt(r[4]).Some? && ParseInt(r[5]).Some?
    ensures Keep(r, q) == Ok(Matches(r, q))
  {
    var x0, x1 := ParseInt(r[1]).value, ParseInt(r[2]).value;
    var first := Overlap1(r[1], r[2], q.start, q.end);
    assert first == Ok(Overlaps(x0, x1, q.start, q.end));
    assert OnAxis1(r, q.chrom, q.start, q.end) <==> r[0] == q.chrom && Overlaps(x0, x1, q.start, q.end);
    match q
    case Region1(_, _, _) =>
    case Region2(_, _, _, chrom2, start2, end2) =>
      var y0, y1 := ParseInt(r[4]).value, ParseInt(r[5]).value;
      assert Overlap1(r[4], r[5], start2, end2) == Ok(Overlaps(y0, y1, start2, end2));
      assert OnAxis2(r, chrom2, start2, end2) <==> r[3] == chrom2 && Overlaps(y0, y1, start2, end2);
  }

  /** The test a query applies to each record, as a function value. */
  function RecordTest(q: Query): Record -> Result<bool> {
    r => Keep(r, q)
  }

  /** The answer of `get_result` / `get_result_2D` on `regions` for the per-record test
      `keep`: the kept records in input order, or the first exception a test raises. */
  function Select(regions: seq<Record>, keep: Record -> Result<bool>): (res: Result<seq<Record>>)
    ensures res.Ok? ==> |res.value| <= |regions|
    ensures res.Ok? ==> forall k :: 0 <= k < |res.value| ==> keep(res.value[k]) == Ok(true)
  {
    if regions == [] then Ok([])
    else
      var last := regions[|regions| - 1];
      match Select(regions[..|regions| - 1], keep)
      case Err(e) => Err(e)
      case Ok(acc) =>
        match keep(last)
        case Err(e) => Err(e)
        case Ok(b) => Ok(if b then acc + [last] else acc)
  }

  /** The positions of the kept records of `regions`, in increasing order. */
  function Hits(regions: seq<Record>, keep: Record -> Result<bool>): (h: seq<nat>)
    ensures forall k :: 0 <= k < |h| ==> h[k] < |regions| && keep(regions[h[k]]) == Ok(true)
    ensures forall k, l :: 0 <= k < l < |h| ==> h[k] < h[l]
    ensures forall i :: 0 <= i < |regions| && keep(regions[i]) == Ok(true) ==> i in h
  {
    if regions == [] then []
    else
      var n := |regions| - 1;
      var h' := Hits(regions[..n], keep);
      assert forall i :: 0 <= i < n ==> regions[..n][i] == regions[i];
      if keep(regions[n]) == Ok(true) then h' + [n] else h'
  }

  /** `get_result` raises exactly when the test of some record raises, and then raises the
      exception of the first such record. */
  lemma {:induction false} SelectErrors(regions: seq<Record>, keep: Record -> Result<bool>)
    ensures Select(regions, keep).Ok? <==> forall i :: 0 <= i < |regions| ==> keep(regions[i]).Ok?
    ensures Select(regions, keep).Err? ==>
      exists i :: 0 <= i < |regions| && keep(regions[i]) == Err(Select(regions, keep).error)
        && forall j :: 0 <= j < i ==> keep(regions[j]).Ok?
  {
    if regions != [] {
      var n := |regions| - 1;
      var init := regions[..n];
      SelectErrors(init, keep);
      assert forall i :: 0 <= i < n ==> init[i] == regions[i];
    }
  }

  /** Completeness and order: a successful answer is exactly the records at `Hits`, the
      positions of all kept records, taken in increasing order. */
  lemma {:induction false} SelectIsHits(regions: seq<Record>, keep: Record -> Result<bool>)
    requires Select(regions, keep).Ok?
    ensures var out := Select(regions, keep).value;
      |out| == |Hits(regions, keep)|
      && forall k :: 0 <= k < |out| ==> out[k] == regions[Hits(regions, keep)[k]]
  {
    if regions != [] {
      var n := |regions| - 1;
      var init := regions[..n];
      SelectIsHits(init, keep);
      assert forall i :: 0 <= i < n ==> init[i] == regions[i];
    }
  }

  /** Duplicates are kept: each record occurs in the answer as often as in `regions` when
      it is kept, and not at all otherwise. */
  lemma {:induction false} SelectCounts(regions: seq<Record>, keep: Record -> Result<bool>, x: Record)
    requires Select(regions, keep).Ok?
    ensures multiset(Select(regions, keep).value)[x] ==
      (if keep(x) == Ok(true) then multiset(regions)[x] else 0)
  {
    if regions != [] {
      var n := |regions| - 1;
      var init := regions[..n];
      SelectCounts(init, keep, x);
      assert regions == init + [regions[n]];
    }
  }

  /** Soundness and completeness in the terms of the query: a successful answer holds only
      records that lie on the queried chromosome(s) and overlap the queried range(s), and
      every such record of `regions`. */
  lemma SelectSoundComplete(regions: seq<Record>, q: Query)
    requires Select(regions, RecordTest(q)).Ok?
    ensures forall r :: r in Select(regions, RecordTest(q)).value ==> Matches(r, q)
    ensures forall r :: r in regions && Matches(r, q) ==> r in Select(regions, RecordTest(q)).value
  {
    forall r | r in Select(regions, RecordTest(q)).value ensures Matches(r, q) {
      SelectCounts(regions, RecordTest(q), r);
      KeepIffMatches(r, q);
    }
    forall r | r in regions && Matches(r, q) ensures r in Select(regions, RecordTest(q)).value {
      SelectCounts(regions, RecordTest(q), r);
      KeepIffMatches(r, q);
    }
  }

  /** The first axis of a 2D query, as a 1D query. */
  function FirstAxis(q: Query): Query {
    Region1(q.chrom, q.start, q.end)
  }

  /** On one record, the 2D test raises no earlier than the test of its first axis, and keeps
      the record only when the first-axis test does. */
  lemma KeepRefines(r: Record, q: Query)
    requires q.Region2?
    ensures Keep(r, FirstAxis(q)).Err? ==> Keep(r, q) == Keep(r, FirstAxis(q))
    ensures Keep(r, FirstAxis(q)) == Ok(false) ==> Keep(r, q) == Ok(false)
  {
  }

  /** Filtering by a test `fine` that raises and rejects wherever `coarse` does gives the
      same answer as filtering the answer of `coarse` by `fine`. */
  lemma {:induction false} SelectRefines(regions: seq<Record>, coarse: Record -> Result<bool>,
                                         fine: Record -> Result<bool>)
    requires forall r :: coarse(r).Err? ==> fine(r) == coarse(r)
    requires forall r :: coarse(r) == Ok(false) ==> fine(r) == Ok(false)
    requires Select(regions, fine).Ok?
    ensures Select(regions, coarse).Ok?
    ensures Select(Select(regions, coarse).value, fine) == Select(regions, fine)
  {
    if regions != [] {
      var n := |regions| - 1;
      SelectRefines(regions[..n], coarse, fine);
      var o1 := Select(regions[..n], coarse).value;
      var last := regions[n];
      if coarse(last) == Ok(true) {
        assert (o1 + [last])[..|o1|] == o1;
      }
    }
  }

  /** A 2D answer is the 1D answer on its first axis, filtered again by the whole 2D
      test: in particular it is a subsequence of `get_result(regions, chrom, start, end)`,
      and the 2D query never succeeds where the 1D query raises. */
  lemma Select2DRefines1D(regions: seq<Record>, q: Query)
    requires q.Region2?
    requires Select(regions, RecordTest(q)).Ok?
    ensures Select(regions, RecordTest(FirstAxis(q))).Ok?
    ensures Select(Select(regions, RecordTest(FirstAxis(q))).value, RecordTest(q)) == Select(regions, RecordTest(q))
  {
    forall r ensures Keep(r, FirstAxis(q)).Err? ==> Keep(r, q) == Keep(r, FirstAxis(q))
                 ensures Keep(r, FirstAxis(q)) == Ok(false) ==> Keep(r, q) == Ok(false) {
      KeepRefines(r, q);
    }
    SelectRefines(regions, RecordTest(FirstAxis(q)), RecordTest(q));
  }

  /** The one-sided 2D query of the semi-2D test (`chrom2` with range `[0, sys.maxsize]`):
      for a zero-width second axis at a position in that range, the 2D test is the 1D test
      plus a chromosome match on the second axis. */
  lemma OneSidedQuery(r: Record, c: string, s: int, e: int, c2: string)
    requires |r| >= 6 && r[4] == r[5]
    requires ParseInt(r[4]).Some? && Within(ParseInt(r[4]).value, 0, MaxSize)
    ensures Keep(r, Region2(c, s, e, c2, 0, MaxSize)) == Ok(true) <==>
      Keep(r, Region1(c, s, e)) == Ok(true) && r[3] == c2
  {
  }

  /** Once a prefix of `regions` raises, the whole of `regions` raises the same exception. */
  lemma {:induction false} SelectPropagatesError(regions: seq<Record>, keep: Record -> Result<bool>, i: nat)
    requires i <= |regions| && Select(regions[..i], keep).Err?
    ensures Select(regions, keep) == Select(regions[..i], keep)
    decreases |regions| - i
  {
    if i < |regions| {
      assert regions[..i + 1][..i] == regions[..i];
      SelectPropagatesError(regions, keep, i + 1);
    } else {
      assert regions[..i] == regions;
    }
  }

  /** `get_result(regions, chrom, start, end)`, as the test suite runs it. */
  method GetResult(regions: seq<Record>, chrom: string, start: int, end: int)
    returns (result: Result<seq<Record>>)
    ensures result == Select(regions, RecordTest(Region1(chrom, start, end)))
  {
    var q := Region1(chrom, start, end);
    var retval: seq<Record> := [];
    for i := 0 to |regions|
      invariant Select(regions[..i], RecordTest(q)) == Ok(retval)
    {
      assert regions[..i + 1][..i] == regions[..i];
      var r := regions[i];
      var keep := Keep(r, q);
      if keep.Err? {
        SelectPropagatesError(regions, RecordTest(q), i + 1);
        return Err(keep.error);
      }
      if keep.value {
        retval := retval + [r];
      }
    }
    assert regions[..|regions|] == regions;
    return Ok(retval);
  }

  /** `get_result_2D(regions, chrom, start, end, chrom2, start2, end2)`, as the test suite runs it. */
  method GetResult2D(regions: seq<Record>, chrom: string, start: int, end: int,
                     chrom2: string, start2: int, end2: int)
    returns (result: Result<seq<Record>>)
    ensures result == Select(regions, RecordTest(Region2(chrom, start, end, chrom2, start2, end2)))
  {
    var q := Region2(chrom, start, end, chrom2, start2, end2);
    var retval: seq<Record> := [];
    for i := 0 to |regions|
      invariant Select(regions[..i], RecordTest(q)) == Ok(retval)
    {
      assert regions[..i + 1][..i] == regions[..i];
      var r := regions[i];
      var keep := Keep(r, q);
      if keep.Err? {
        SelectPropagatesError(regions, RecordTest(q), i + 1);
        return Err(keep.error);
      }
      if keep.value {
        retval := retval + [r];
      }
    }
    assert regions[..|regions|] == regions;
    return Ok(retval);
  }
}
