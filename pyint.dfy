/** Python's `int(s)` on a `str`, base 10: whitespace around the number is skipped, an
    optional sign may precede the digits, and single underscores may separate digits. */
module PyInt {
  import opened Results
  import opened PyStr

  predicate IsDigit(c: char) {
    '0' <= c <= '9'
  }

  /** A digit string `int()` accepts: digits, with single underscores only between two digits. */
  predicate ValidDigits(u: string) {
    |u| > 0 && IsDigit(u[0]) && IsDigit(u[|u| - 1]) && DigitGroups(u)
  }

  /** Every character of `u` is a digit or an underscore, and no two underscores are adjacent. */
  predicate DigitGroups(u: string) {
    u == [] ||
    ((IsDigit(u[|u| - 1]) || (u[|u| - 1] == '_' && (|u| < 2 || u[|u| - 2] != '_')))
     && DigitGroups(u[..|u| - 1]))
  }

  /** The number the digits of `u` denote, underscores skipped. */
  function DigitsValue(u: string): nat {
    if u == [] then 0
    else if IsDigit(u[|u| - 1]) then 10 * DigitsValue(u[..|u| - 1]) + (u[|u| - 1] as int - '0' as int)
    else DigitsValue(u[..|u| - 1])
  }

  /** The whitespace `int()` skips around the number. Non-ASCII whitespace counts, but of the
      ASCII characters only tab, newline, vertical tab, form feed, carriage return and space
      do: the separators U+001C to U+001F, which `str.isspace()` accepts, are kept and make
      the string invalid. */
  predicate IsIntSpace(c: char) {
    IsSpace(c) && !(0x1C <= c as int <= 0x1F)
  }

  /** The text `int()` parses: `s` without the whitespace it skips at either end. */
  function IntStrip(s: string): string {
    TrimStart(TrimEnd(s, IsIntSpace), IsIntSpace)
  }

  /** A character that may occur in the text `int()` parses. */
  predicate IntChar(c: char) {
    IsDigit(c) || c == '_' || c == '+' || c == '-'
  }

  /** If the text `int()` parses holds only `IntChar`s, so does `s` apart from skipped whitespace. */
  lemma StripKeepsChars(s: string)
    requires forall k :: 0 <= k < |IntStrip(s)| ==> IntChar(IntStrip(s)[k])
    ensures forall i :: 0 <= i < |s| ==> IntChar(s[i]) || IsIntSpace(s[i])
  {
    var e := TrimEnd(s, IsIntSpace);
    var t := IntStrip(s);
    var o := |e| - |t|;
    assert t == e[o..];
    forall i | 0 <= i < |s|
      ensures IntChar(s[i]) || IsIntSpace(s[i])
    {
      if i < |e| {
        assert s[i] == e[i];
        if o <= i {
          assert e[i] == t[i - o];
        }
      }
    }
  }

  /** Every character of the text `int()` parses occurs in `s`. */
  lemma StripWithin(s: string)
    ensures forall k :: 0 <= k < |IntStrip(s)| ==> IntStrip(s)[k] in s
  {
    var e := TrimEnd(s, IsIntSpace);
    assert forall k :: 0 <= k < |IntStrip(s)| ==> IntStrip(s)[k] in e;
  }

  /** Every character of a digit group is a digit or an underscore. */
  lemma {:induction false} DigitGroupsChars(u: string)
    requires DigitGroups(u)
    ensures forall i :: 0 <= i < |u| ==> IsDigit(u[i]) || u[i] == '_'
  {
    if u != [] {
      DigitGroupsChars(u[..|u| - 1]);
      assert forall i :: 0 <= i < |u| - 1 ==> u[i] == u[..|u| - 1][i];
    }
  }

  /** The number a stripped string denotes: an optional sign, then a digit string. */
  function ParseNumber(t: string): Option<int> {
    if |t| > 0 && (t[0] == '+' || t[0] == '-') then
      if ValidDigits(t[1..]) then
        Some(if t[0] == '-' then -(DigitsValue(t[1..]) as int) else DigitsValue(t[1..]))
      else None
    else if ValidDigits(t) then Some(DigitsValue(t))
    else None
  }

  /** A number parses only from `IntChar`s, and a negative one starts with a minus sign. */
  lemma ParsedNumberChars(t: string)
    requires ParseNumber(t).Some?
    ensures forall k :: 0 <= k < |t| ==> IntChar(t[k])
    ensures ParseNumber(t).value < 0 ==> t[0] == '-'
  {
    if t[0] == '+' || t[0] == '-' {
      DigitGroupsChars(t[1..]);
      assert forall k :: 1 <= k < |t| ==> t[k] == t[1..][k - 1];
    } else {
      DigitGroupsChars(t);
    }
  }

  /** `int(s)`: `Some(n)` when it returns `n`, `None` when it raises `ValueError`. Only
      digits, signs, underscores and skipped whitespace occur in a string that parses, and a
      negative result needs a minus sign. */
  function ParseInt(s: string): (r: Option<int>)
    ensures r.Some? ==> forall i :: 0 <= i < |s| ==> IntChar(s[i]) || IsIntSpace(s[i])
    ensures r.Some? && r.value < 0 ==> '-' in s
  {
    var t := IntStrip(s);
    var r := ParseNumber(t);
    if r.Some? then
      ParsedNumberChars(t);
      StripKeepsChars(s);
      StripWithin(s);
      r
    else r
  }

  /** `is_str(s)` of the test helpers: whether `int(s)` succeeds. A string passes only if it
      holds at least one ASCII digit. */
  predicate IsStr(s: string)
    ensures IsStr(s) ==> exists i :: 0 <= i < |s| && IsDigit(s[i])
  {
    var t := IntStrip(s);
    if ParseInt(s).Some? then
      var u := if t[0] == '+' || t[0] == '-' then t[1..] else t;
      assert IsDigit(u[0]) && u[0] in t;
      StripWithin(s);
      true
    else false
  }

  /** The decimal digits of `n`, as `str(n)` writes them. */
  function ShowNat(n: nat): (u: string)
    ensures |u| > 0 && forall i :: 0 <= i < |u| ==> IsDigit(u[i])
  {
    if n < 10 then [('0' as int + n) as char]
    else ShowNat(n / 10) + [('0' as int + n % 10) as char]
  }

  /** `str(n)`. */
  function ShowInt(n: int): string {
    if n < 0 then "-" + ShowNat(-n) else ShowNat(n)
  }

  lemma {:induction false} ShowNatValue(n: nat)
    ensures ValidDigits(ShowNat(n)) && DigitsValue(ShowNat(n)) == n
  {
    var u := ShowNat(n);
    if n >= 10 {
      ShowNatValue(n / 10);
      assert u[..|u| - 1] == ShowNat(n / 10);
    } else {
      assert u[..0] == [];
    }
  }

  /** A string whose first and last characters are not skipped whitespace is what `int()` parses. */
  lemma IntStripUnchanged(s: string)
    requires |s| > 0 && !IsIntSpace(s[0]) && !IsIntSpace(s[|s| - 1])
    ensures IntStrip(s) == s
  {
  }

  /** `int(str(n)) == n`: the parser reads back every number the printer writes. */
  lemma ParseShow(n: int)
    ensures ParseInt(ShowInt(n)) == Some(n)
  {
    var s := ShowInt(n);
    var m: nat := if n < 0 then -n else n;
    var u := ShowNat(m);
    ShowNatValue(m);
    assert IsDigit(u[0]) && IsDigit(u[|u| - 1]);
    if n < 0 {
      assert s == "-" + u;
      assert s[0] == '-' && s[|s| - 1] == u[|u| - 1];
      IntStripUnchanged(s);
      assert s[1..] == u;
    } else {
      assert s == u;
      IntStripUnchanged(s);
      assert !(s[0] == '+' || s[0] == '-');
    }
  }

  /** Skipped whitespace in front of `s` is trimmed away with the rest. */
  lemma IntStripCons(c: char, s: string)
    requires IsIntSpace(c)
    ensures IntStrip([c] + s) == IntStrip(s)
  {
    TrimEndCons(c, s, IsIntSpace);
    var e := TrimEnd(s, IsIntSpace);
    if e != [] {
      assert ([c] + e)[1..] == e;
    }
  }

  /** Skipped whitespace after `s` is trimmed away with the rest. */
  lemma IntStripSnoc(c: char, s: string)
    requires IsIntSpace(c)
    ensures IntStrip(s + [c]) == IntStrip(s)
  {
    var sc := s + [c];
    assert sc[|sc| - 1] == c && sc[..|sc| - 1] == s;
    assert TrimEnd(sc, IsIntSpace) == TrimEnd(s, IsIntSpace);
  }

  /** Skipped whitespace at either end does not change what `int()` returns. */
  lemma SkipsSurroundingSpace(c: char, s: string)
    requires IsIntSpace(c)
    ensures ParseInt([c] + s) == ParseInt(s)
    ensures ParseInt(s + [c]) == ParseInt(s)
  {
    IntStripCons(c, s);
    IntStripSnoc(c, s);
  }

  /** The ASCII separators U+001C to U+001F are not skipped: `int()` of a string starting
      with one raises, although `str.isspace()` holds of them. */
  lemma SeparatorNotSkipped(c: char, s: string)
    requires 0x1C <= c as int <= 0x1F
    ensures IsSpace(c) && !IsStr([c] + s)
  {
    assert ([c] + s)[0] == c;
  }
}
