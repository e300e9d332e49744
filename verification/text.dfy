/**
  The string primitives the two text formats are built from, with Python's
  meaning: `str.strip()`, `str.split('\n')`, `'\n'.join(...)`,
  `str.startswith(...)`, and the ASCII classes behind the regular-expression
  escapes `\d` and `\w`.
*/
module Text {

  /** `str.isspace()` restricted to ASCII: space, the controls 9..13
      (`\t \n \v \f \r`) and the separators 28..31. */
  predicate IsSpace(c: char) {
    c == ' ' || 9 <= c as int <= 13 || 28 <= c as int <= 31
  }

  /** The regular-expression class `\d` on ASCII. */
  predicate IsDigit(c: char) {
    '0' <= c <= '9'
  }

  /** The regular-expression class `\w` on ASCII. */
  predicate IsWordChar(c: char) {
    IsDigit(c) || 'a' <= c <= 'z' || 'A' <= c <= 'Z' || c == '_'
  }

  predicate AllSpace(s: string) {
    forall k :: 0 <= k < |s| ==> IsSpace(s[k])
  }

  predicate AllDigits(s: string) {
    forall k :: 0 <= k < |s| ==> IsDigit(s[k])
  }

  /** `s.startswith(p)`. */
  predicate StartsWith(s: string, p: string) {
    |p| <= |s| && s[..|p|] == p
  }

  /** `s.lstrip()`: the longest suffix of `s` that does not start with
      whitespace, everything before it being whitespace. */
  function StripLeft(s: string): (r: string)
    ensures |r| <= |s|
    ensures r == [] || !IsSpace(r[0])
  {
    if |s| > 0 && IsSpace(s[0]) then StripLeft(s[1..]) else s
  }

  /** `lstrip` keeps a suffix and cuts off only whitespace. */
  lemma {:induction false} StripLeftCutsSpace(s: string)
    ensures StripLeft(s) == s[|s| - |StripLeft(s)|..]
    ensures AllSpace(s[..|s| - |StripLeft(s)|])
  {
    if |s| > 0 && IsSpace(s[0]) {
      StripLeftCutsSpace(s[1..]);
      assert s[..|s| - |StripLeft(s)|] == [s[0]] + s[1..][..|s[1..]| - |StripLeft(s[1..])|];
    }
  }

  /** `s.rstrip()`: the longest prefix of `s` that does not end with
      whitespace, everything after it being whitespace. */
  function StripRight(s: string): (r: string)
    ensures |r| <= |s|
    ensures r == [] || !IsSpace(r[|r| - 1])
  {
    if |s| > 0 && IsSpace(s[|s| - 1]) then StripRight(s[..|s| - 1]) else s
  }

  /** `rstrip` keeps a prefix and cuts off only whitespace. */
  lemma {:induction false} StripRightCutsSpace(s: string)
    ensures StripRight(s) == s[..|StripRight(s)|]
    ensures AllSpace(s[|StripRight(s)|..])
  {
    if |s| > 0 && IsSpace(s[|s| - 1]) {
      StripRightCutsSpace(s[..|s| - 1]);
      assert s[|StripRight(s)|..] == s[..|s| - 1][|StripRight(s[..|s| - 1])|..] + [s[|s| - 1]];
    }
  }

  /** `s.strip()`: nothing at either end of the result is whitespace. */
  function Strip(s: string): (r: string)
    ensures |r| <= |s|
    ensures r == [] || (!IsSpace(r[0]) && !IsSpace(r[|r| - 1]))
  {
    StripRightCutsSpace(StripLeft(s));
    StripRight(StripLeft(s))
  }

  /** `strip` returns a slice of its argument and cuts off nothing but
      whitespace on either side. */
  lemma {:induction false} StripCutsOnlySpace(s: string)
    ensures exists i, j :: 0 <= i <= j <= |s| && Strip(s) == s[i..j] && AllSpace(s[..i]) && AllSpace(s[j..])
  {
    var left := StripLeft(s);
    var r := StripRight(left);
    var i := |s| - |left|;
    StripLeftCutsSpace(s);
    StripRightCutsSpace(left);
    assert r == s[i..i + |r|];
    assert s[i + |r|..] == left[|r|..];
  }

  /** `strip` never adds a line break. */
  lemma StripSingleLine(s: string)
    requires '\n' !in s
    ensures '\n' !in Strip(s)
  {
    StripCutsOnlySpace(s);
    var i, j :| 0 <= i <= j <= |s| && Strip(s) == s[i..j];
    forall k | 0 <= k < j - i ensures Strip(s)[k] != '\n' {
      assert Strip(s)[k] == s[i + k];
    }
  }

  /** A line that starts with `open + mid + close` holds the three pieces
      one after the other from its first character. */
  lemma Bracketed(line: string, open: string, mid: string, close: string)
    requires StartsWith(line, open + mid + close)
    ensures |line| >= |open| + |mid| + |close|
    ensures line[..|open|] == open
    ensures line[|open|..|open| + |mid|] == mid
    ensures line[|open| + |mid|..|open| + |mid| + |close|] == close
  {
    var w := open + mid + close;
    assert line[..|w|] == w;
    assert line[..|open|] == w[..|open|];
    assert line[|open|..|open| + |mid|] == w[|open|..|open| + |mid|];
    assert line[|open| + |mid|..|w|] == w[|open| + |mid|..];
  }

  /** A string that has no whitespace at either end is left alone by `strip`. */
  lemma StripKeeps(s: string)
    requires s == [] || (!IsSpace(s[0]) && !IsSpace(s[|s| - 1]))
    ensures Strip(s) == s
  {
  }

  /** A trailing newline after such a string is all `strip` removes. */
  lemma StripTrailingNewline(s: string)
    requires s != [] && !IsSpace(s[0]) && !IsSpace(s[|s| - 1])
    ensures Strip(s + "\n") == s
  {
    var t := s + "\n";
    assert StripLeft(t) == t;
    assert t[..|t| - 1] == s;
    assert StripRight(t) == StripRight(s);
  }

  /** `'\n'.join(ls)`. */
  function Join(ls: seq<string>): string
  {
    if |ls| == 0 then "" else if |ls| == 1 then ls[0] else ls[0] + "\n" + Join(ls[1..])
  }

  /** `s.split('\n')`: never empty (`"".split('\n') == [""]`), no piece holds
      a newline, and joining the pieces gives `s` back. */
  function Split(s: string): (r: seq<string>)
    ensures |r| >= 1
    ensures forall k :: 0 <= k < |r| ==> '\n' !in r[k]
    ensures Join(r) == s
  {
    if s == [] then [""]
    else if s[0] == '\n' then
      var rest := Split(s[1..]);
      assert Join([""] + rest) == "" + "\n" + Join(rest);
      [""] + rest
    else
      var rest := Split(s[1..]);
      var r := [[s[0]] + rest[0]] + rest[1..];
      assert |rest| > 1 ==> Join(rest) == rest[0] + "\n" + Join(rest[1..]);
      assert |rest| > 1 ==> Join(r) == ([s[0]] + rest[0]) + "\n" + Join(rest[1..]);
      assert s == [s[0]] + s[1..];
      r
  }

  lemma {:induction false} SplitPrefix(a: string, rest: string)
    requires '\n' !in a
    ensures Split(a + rest) == [a + Split(rest)[0]] + Split(rest)[1..]
    decreases |a|
  {
    if a == [] {
      assert a + rest == rest;
      assert a + Split(rest)[0] == Split(rest)[0];
      assert Split(rest) == [Split(rest)[0]] + Split(rest)[1..];
    } else {
      assert (a + rest)[1..] == a[1..] + rest;
      assert (a + rest)[0] == a[0];
      SplitPrefix(a[1..], rest);
      assert [a[0]] + (a[1..] + Split(rest)[0]) == a + Split(rest)[0];
    }
  }

  /** Splitting what `Join` wrote gives the lines back, when none of them
      holds a newline. */
  lemma {:induction false} SplitJoin(ls: seq<string>)
    requires |ls| >= 1
    requires forall k :: 0 <= k < |ls| ==> '\n' !in ls[k]
    ensures Split(Join(ls)) == ls
  {
    if |ls| == 1 {
      SplitPrefix(ls[0], "");
      assert ls[0] + "" == ls[0];
    } else {
      SplitJoin(ls[1..]);
      var tail := "\n" + Join(ls[1..]);
      assert Join(ls) == ls[0] + tail;
      SplitPrefix(ls[0], tail);
      assert tail[1..] == Join(ls[1..]);
      assert Split(tail) == [""] + Split(Join(ls[1..]));
      assert ls[0] + "" == ls[0];
    }
  }

  /** The first character `Join` writes is the first line's first character. */
  lemma {:induction false} JoinFirst(ls: seq<string>)
    requires |ls| >= 1 && ls[0] != []
    ensures Join(ls) != [] && Join(ls)[0] == ls[0][0]
  {
  }

  /** The last character `Join` writes is the last line's last character. */
  lemma {:induction false} JoinLast(ls: seq<string>)
    requires |ls| >= 1 && ls[|ls| - 1] != []
    ensures Join(ls) != [] && Join(ls)[|Join(ls)| - 1] == ls[|ls| - 1][|ls[|ls| - 1]| - 1]
  {
    if |ls| > 1 {
      JoinLast(ls[1..]);
    }
  }

  function DigitValue(c: char): (n: nat)
    requires IsDigit(c)
    ensures n < 10 && ('0' as int + n) as char == c
  {
    c as int - '0' as int
  }

  function DigitChar(n: nat): (c: char)
    requires n < 10
    ensures IsDigit(c) && DigitValue(c) == n
  {
    ('0' as int + n) as char
  }

  /** The value of a string of decimal digits, as `int(s)` reads it. */
  function ParseDigits(s: string): nat
    requires AllDigits(s)
  {
    if s == [] then 0 else 10 * ParseDigits(s[..|s| - 1]) + DigitValue(s[|s| - 1])
  }

  /** `%02d`: two zero-padded digits that read back as `n`. */
  function Pad2(n: nat): (r: string)
    requires n < 100
    ensures |r| == 2 && AllDigits(r) && ParseDigits(r) == n
  {
    var r := [DigitChar(n / 10), DigitChar(n % 10)];
    assert r[..1] == [r[0]];
    assert [r[0]][..0] == [];
    assert ParseDigits(r[..1]) == n / 10;
    assert ParseDigits(r) == 10 * (n / 10) + n % 10;
    r
  }

  /** `%04d`: four zero-padded digits that read back as `n`. */
  function Pad4(n: nat): (r: string)
    requires n < 10000
    ensures |r| == 4 && AllDigits(r) && ParseDigits(r) == n
  {
    var hi := Pad2(n / 100);
    var lo := Pad2(n % 100);
    var r := hi + lo;
    DigitsOfConcat(hi, lo);
    r
  }

  /** Reading two digits after a digit string multiplies its value by 100. */
  lemma DigitsOfConcat(hi: string, lo: string)
    requires AllDigits(hi) && |lo| == 2 && AllDigits(lo)
    ensures AllDigits(hi + lo) && ParseDigits(hi + lo) == 100 * ParseDigits(hi) + ParseDigits(lo)
  {
    var r := hi + lo;
    var x := hi + [lo[0]];
    assert r[..|r| - 1] == x && r[|r| - 1] == lo[1];
    assert x[..|x| - 1] == hi && x[|x| - 1] == lo[0];
    assert ParseDigits(x) == 10 * ParseDigits(hi) + DigitValue(lo[0]);
    assert lo[..1] == [lo[0]];
    assert [lo[0]][..0] == [];
    assert ParseDigits(lo[..1]) == DigitValue(lo[0]);
    assert ParseDigits(lo) == 10 * DigitValue(lo[0]) + DigitValue(lo[1]);
  }

  /** Two digits are the zero-padded rendering of their own value. */
  lemma Pad2OfDigits(s: string)
    requires |s| == 2 && AllDigits(s)
    ensures ParseDigits(s) < 100 && Pad2(ParseDigits(s)) == s
  {
    assert s[..1] == [s[0]];
    assert [s[0]][..0] == [];
    var a, b := DigitValue(s[0]), DigitValue(s[1]);
    assert ParseDigits(s[..1]) == a;
    assert ParseDigits(s) == 10 * a + b;
    assert (10 * a + b) / 10 == a && (10 * a + b) % 10 == b;
  }

  /** Four digits are the zero-padded rendering of their own value. */
  lemma Pad4OfDigits(s: string)
    requires |s| == 4 && AllDigits(s)
    ensures ParseDigits(s) < 10000 && Pad4(ParseDigits(s)) == s
  {
    var hi, lo := s[..2], s[2..];
    Pad2OfDigits(hi);
    Pad2OfDigits(lo);
    var h, l := ParseDigits(hi), ParseDigits(lo);
    assert hi + lo == s;
    DigitsOfConcat(hi, lo);
    assert (100 * h + l) / 100 == h && (100 * h + l) % 100 == l;
    assert hi + lo == s;
  }

  /** ASCII lower-casing, the case folding `re.IGNORECASE` applies to `%a`. */
  function Lower(c: char): (r: char)
    ensures 'A' <= c <= 'Z' ==> 'a' <= r <= 'z'
    ensures !('A' <= c <= 'Z') ==> r == c
  {
    if 'A' <= c <= 'Z' then (c as int + 32) as char else c
  }

  function LowerString(s: string): (r: string)
    ensures |r| == |s| && forall k :: 0 <= k < |s| ==> r[k] == Lower(s[k])
  {
    if s == [] then [] else [Lower(s[0])] + LowerString(s[1..])
  }
}
