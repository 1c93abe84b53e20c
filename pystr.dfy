/** Python's `str.rstrip()` and `str.split(sep)` on a one-character separator, with the
    trimming of a chosen set of characters that `rstrip` and `int()` share. */
module PyStr {

  /** `str.isspace()` of one character: the characters Python strips by default. */
  predicate IsSpace(c: char) {
    var n := c as int;
    (0x09 <= n <= 0x0D) || (0x1C <= n <= 0x20) || n == 0x85 || n == 0xA0 || n == 0x1680
    || (0x2000 <= n <= 0x200A) || n == 0x2028 || n == 0x2029 || n == 0x202F || n == 0x205F
    || n == 0x3000
  }

  /** Drops trailing characters in `space`: the longest prefix of `s` that does not end in one. */
  function TrimEnd(s: string, space: char -> bool): (r: string)
    ensures r <= s
    ensures r == [] || !space(r[|r| - 1])
    ensures forall i :: |r| <= i < |s| ==> space(s[i])
  {
    if |s| > 0 && space(s[|s| - 1]) then TrimEnd(s[..|s| - 1], space) else s
  }

  /** Drops leading characters in `space`: the longest suffix of `s` that does not start with one. */
  function TrimStart(s: string, space: char -> bool): (r: string)
    ensures |r| <= |s| && r == s[|s| - |r|..]
    ensures r == [] || !space(r[0])
    ensures forall i :: 0 <= i < |s| - |r| ==> space(s[i])
  {
    if |s| > 0 && space(s[0]) then
      var r := TrimStart(s[1..], space);
      assert s[1..][|s| - 1 - |r|..] == s[|s| - |r|..];
      r
    else s
  }

  /** Prefixing a character to `s` puts it in front of the trimmed text, or leaves nothing
      when `s` trims away entirely and the character is trimmed too. */
  lemma {:induction false} TrimEndCons(c: char, s: string, space: char -> bool)
    ensures TrimEnd([c] + s, space) ==
      if TrimEnd(s, space) == [] && space(c) then [] else [c] + TrimEnd(s, space)
  {
    if |s| > 0 && space(s[|s| - 1]) {
      assert ([c] + s)[..|s|] == [c] + s[..|s| - 1];
      TrimEndCons(c, s[..|s| - 1], space);
    } else if s == [] {
      assert ([c] + s)[..0] == [];
    }
  }

  /** `s.rstrip()`: the longest prefix of `s` that does not end in whitespace. */
  function RStrip(s: string): (r: string)
    ensures r <= s
    ensures r == [] || !IsSpace(r[|r| - 1])
    ensures forall i :: |r| <= i < |s| ==> IsSpace(s[i])
  {
    TrimEnd(s, IsSpace)
  }

  /** The number of occurrences of `d` in `s`. */
  function Occurrences(s: string, d: char): nat {
    if s == [] then 0 else (if s[0] == d then 1 else 0) + Occurrences(s[1..], d)
  }

  /** `sep.join(fields)` for a one-character separator. */
  function Join(fields: seq<string>, d: char): string {
    if fields == [] then []
    else if |fields| == 1 then fields[0]
    else fields[0] + [d] + Join(fields[1..], d)
  }

  /** `s.split(d)`: the fields of `s` between occurrences of `d`, empty fields kept. The
      result is the only list of `d`-free fields that `Join` puts back together into `s`
      (see `SplitJoin`). */
  function Split(s: string, d: char): (fields: seq<string>)
    ensures |fields| == Occurrences(s, d) + 1
    ensures forall i :: 0 <= i < |fields| ==> d !in fields[i]
    ensures Join(fields, d) == s
  {
    if s == [] then [[]]
    else
      var rest := Split(s[1..], d);
      if s[0] == d then
        assert [d] + s[1..] == s;
        [[]] + rest
      else
        assert Join(rest, d) == rest[0] + (if |rest| == 1 then [] else [d] + Join(rest[1..], d));
        assert [s[0]] + s[1..] == s;
        [[s[0]] + rest[0]] + rest[1..]
  }

  /** Splitting undoes joining: a non-empty list of fields free of `d` is recovered by
      splitting its join, so `Split` is determined by its contract. */
  lemma {:induction false} SplitJoin(fields: seq<string>, d: char)
    requires |fields| >= 1
    requires forall i :: 0 <= i < |fields| ==> d !in fields[i]
    ensures Split(Join(fields, d), d) == fields
    decreases |fields|, |fields[0]|
  {
    var s := Join(fields, d);
    if fields[0] == [] {
      if |fields| == 1 {
        assert s == [];
      } else {
        assert s == [d] + Join(fields[1..], d);
        assert s[1..] == Join(fields[1..], d);
        SplitJoin(fields[1..], d);
        assert fields == [[]] + fields[1..];
      }
    } else {
      var c := fields[0][0];
      var shorter := [fields[0][1..]] + fields[1..];
      assert shorter[1..] == fields[1..];
      forall i | 0 <= i < |shorter| ensures d !in shorter[i] {
        if i == 0 {
          assert forall x :: x in fields[0][1..] ==> x in fields[0];
        } else {
          assert shorter[i] == fields[i];
        }
      }
      SplitJoin(shorter, d);
      assert fields[0] == [c] + fields[0][1..];
      if |fields| == 1 {
        assert s == [c] + Join(shorter, d);
      } else {
        assert s == [c] + Join(shorter, d);
      }
      assert s[0] == c && c != d;
      assert s[1..] == Join(shorter, d);
      assert fields == [[c] + shorter[0]] + shorter[1..];
    }
  }

  /** A join ends with the last character of its last field. */
  lemma {:induction false} JoinEnd(fields: seq<string>, d: char)
    requires |fields| >= 1 && |fields[|fields| - 1]| > 0
    ensures var s := Join(fields, d); var last := fields[|fields| - 1];
      |s| > 0 && s[|s| - 1] == last[|last| - 1]
  {
    if |fields| > 1 {
      JoinEnd(fields[1..], d);
    }
  }
}
