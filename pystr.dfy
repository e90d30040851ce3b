/** The Python string operations the extraction scripts rely on, with Python's
    semantics: `str.strip()`, `str.split(sep)`, `sub in s`, `str.upper()` on
    ASCII letters, and `int(...)` / `str(...)` on decimal integers. */
module PyStr {
  import opened Common

  /** `c.isspace()`: the characters `str.strip()` removes. */
  predicate IsSpace(c: char) {
    var n := c as int;
    (9 <= n <= 13) || (28 <= n <= 32) || n == 0x85 || n == 0xA0 || n == 0x1680
    || (0x2000 <= n <= 0x200A) || n == 0x2028 || n == 0x2029 || n == 0x202F
    || n == 0x205F || n == 0x3000
  }

  predicate AllSpace(s: string) {
    forall i | 0 <= i < |s| :: IsSpace(s[i])
  }

  /** `s.lstrip()` */
  function LStrip(s: string): (r: string)
    ensures r == [] || !IsSpace(r[0])
  {
    if s != [] && IsSpace(s[0]) then LStrip(s[1..]) else s
  }

  /** `s.rstrip()` */
  function RStrip(s: string): (r: string)
    ensures |r| <= |s| && r == s[..|r|]
    ensures r == [] || !IsSpace(r[|r| - 1])
  {
    if s != [] && IsSpace(s[|s| - 1]) then RStrip(s[..|s| - 1]) else s
  }

  /** `s.strip()`: neither end of the result is whitespace (StripShape says
      what was removed). */
  function Strip(s: string): (r: string)
    ensures r == [] || (!IsSpace(r[0]) && !IsSpace(r[|r| - 1]))
  {
    var l := LStrip(s);
    var r := RStrip(l);
    assert r != [] ==> r[0] == l[0];
    r
  }

  /** `s.lstrip()` removes a run of whitespace from the front. */
  lemma {:induction false} LStripShape(s: string)
    ensures var r := LStrip(s); |r| <= |s| && r == s[|s| - |r|..] && AllSpace(s[..|s| - |r|])
    decreases |s|
  {
    if s != [] && IsSpace(s[0]) {
      LStripShape(s[1..]);
      var r := LStrip(s[1..]);
      assert s[..|s| - |r|] == [s[0]] + s[1..][..|s| - 1 - |r|];
    }
  }

  /** `s.rstrip()` removes a run of whitespace from the back. */
  lemma {:induction false} RStripShape(s: string)
    ensures AllSpace(s[|RStrip(s)|..])
    decreases |s|
  {
    if s != [] && IsSpace(s[|s| - 1]) {
      RStripShape(s[..|s| - 1]);
      var r := RStrip(s[..|s| - 1]);
      assert s[|r|..] == s[..|s| - 1][|r|..] + [s[|s| - 1]];
    }
  }

  /** `s` is some whitespace, then `s.strip()`, then some whitespace. */
  lemma StripShape(s: string)
    ensures exists a {:trigger s[a..]} :: 0 <= a <= |s| - |Strip(s)| && Strip(s) == s[a..a + |Strip(s)|]
                        && AllSpace(s[..a]) && AllSpace(s[a + |Strip(s)|..])
  {
    var l := LStrip(s);
    var r := RStrip(l);
    LStripShape(s);
    RStripShape(l);
    var a := |s| - |l|;
    assert l == s[a..];
    assert r == l[..|r|] == s[a..a + |r|];
    assert s[a + |r|..] == l[|r|..];
  }

  /** A string without whitespace at either end is its own strip. */
  lemma StripKeeps(s: string)
    requires s == [] || (!IsSpace(s[0]) && !IsSpace(s[|s| - 1]))
    ensures Strip(s) == s
  {
    assert LStrip(s) == s;
    assert RStrip(s) == s;
  }

  /** `str.strip()` is idempotent. */
  lemma StripIdempotent(s: string)
    ensures Strip(Strip(s)) == Strip(s)
  {
    StripKeeps(Strip(s));
  }

  /** Leading whitespace makes no difference to `lstrip`. */
  lemma {:induction false} LStripSpaces(x: string, z: string)
    requires AllSpace(x)
    ensures LStrip(x + z) == LStrip(z)
    decreases |x|
  {
    if x != [] {
      assert (x + z)[0] == x[0] && IsSpace(x[0]);
      assert (x + z)[1..] == x[1..] + z;
      var back := x[1..];
      assert AllSpace(back) by {
        forall i | 0 <= i < |back| ensures IsSpace(back[i]) { assert back[i] == x[i + 1]; }
      }
      LStripSpaces(x[1..], z);
    } else {
      assert x + z == z;
    }
  }

  /** Trailing whitespace makes no difference to `rstrip`. */
  lemma {:induction false} RStripSpaces(z: string, y: string)
    requires AllSpace(y)
    ensures RStrip(z + y) == RStrip(z)
    decreases |y|
  {
    if y != [] {
      assert (z + y)[|z + y| - 1] == y[|y| - 1] && IsSpace(y[|y| - 1]);
      assert (z + y)[..|z + y| - 1] == z + y[..|y| - 1];
      var front := y[..|y| - 1];
      assert AllSpace(front) by {
        forall i | 0 <= i < |front| ensures IsSpace(front[i]) { assert front[i] == y[i]; }
      }
      RStripSpaces(z, y[..|y| - 1]);
    } else {
      assert z + y == z;
    }
  }

  /** What `lstrip` leaves of a text with more text after it. */
  lemma {:induction false} LStripAppend(t: string, y: string)
    ensures LStrip(t) != [] ==> LStrip(t + y) == LStrip(t) + y
    ensures LStrip(t) == [] ==> LStrip(t + y) == LStrip(y)
    decreases |t|
  {
    if t != [] {
      assert (t + y)[0] == t[0];
      if IsSpace(t[0]) {
        assert (t + y)[1..] == t[1..] + y;
        LStripAppend(t[1..], y);
      }
    } else {
      assert t + y == y;
    }
  }

  /** Adding whitespace around a text does not change its strip. */
  lemma StripIgnoresSpace(pre: string, t: string, post: string)
    requires AllSpace(pre) && AllSpace(post)
    ensures Strip(pre + t + post) == Strip(t)
  {
    assert pre + t + post == pre + (t + post);
    LStripSpaces(pre, t + post);
    LStripAppend(t, post);
    if LStrip(t) != [] {
      RStripSpaces(LStrip(t), post);
    } else {
      assert post + [] == post;
      LStripSpaces(post, []);
    }
  }

  /** `sub` occurs in `s` starting at index `i`. */
  predicate OccursAt(s: string, sub: string, i: int) {
    0 <= i && i + |sub| <= |s| && s[i..i + |sub|] == sub
  }

  /** Python's `sub in s`. */
  predicate Contains(s: string, sub: string) {
    exists i | 0 <= i <= |s| :: OccursAt(s, sub, i)
  }

  /** The first occurrence of `sub` in `s` at or after `from` (`s.find(sub, from)`). */
  function FindFrom(s: string, sub: string, from: nat): (r: Option<nat>)
    ensures r.Some? ==> from <= r.value && OccursAt(s, sub, r.value)
    ensures r.Some? ==> forall j | from <= j < r.value :: !OccursAt(s, sub, j)
    ensures r.None? ==> forall j | from <= j :: !OccursAt(s, sub, j)
    decreases |s| - from
  {
    if from + |sub| > |s| then None
    else if s[from..from + |sub|] == sub then Some(from)
    else FindFrom(s, sub, from + 1)
  }

  /** The first occurrence of `sub` in `s`, or `None` exactly when `sub in s` is false. */
  function IndexOf(s: string, sub: string): (r: Option<nat>)
    ensures r.Some? ==> OccursAt(s, sub, r.value)
    ensures r.Some? ==> forall j | 0 <= j < r.value :: !OccursAt(s, sub, j)
    ensures r.None? <==> !Contains(s, sub)
  {
    FindFrom(s, sub, 0)
  }

  /** Python's `s.split(sep)` for a non-empty separator: the pieces between the
      non-overlapping occurrences of `sep`, found left to right. */
  function Split(s: string, sep: string): (parts: seq<string>)
    requires sep != []
    ensures |parts| >= 1
    decreases |s|
  {
    match IndexOf(s, sep)
    case None => [s]
    case Some(i) => [s[..i]] + Split(s[i + |sep|..], sep)
  }

  /** One step of `Split`: the piece before the first separator, then the rest. */
  lemma SplitStep(s: string, sep: string, i: nat)
    requires sep != [] && IndexOf(s, sep) == Some(i)
    ensures Split(s, sep) == [s[..i]] + Split(s[i + |sep|..], sep)
  {
  }

  /** Python's `sep.join(parts)`. */
  function Join(parts: seq<string>, sep: string): string
    decreases |parts|
  {
    if parts == [] then ""
    else if |parts| == 1 then parts[0]
    else parts[0] + sep + Join(parts[1..], sep)
  }

  /** Splitting loses nothing: joining the pieces with the separator gives the
      string back. */
  lemma {:induction false} SplitJoin(s: string, sep: string)
    requires sep != []
    ensures Join(Split(s, sep), sep) == s
    decreases |s|
  {
    match IndexOf(s, sep)
    case None =>
    case Some(i) =>
      var rest := s[i + |sep|..];
      var tail := Split(rest, sep);
      SplitJoin(rest, sep);
      SplitStep(s, sep, i);
      assert ([s[..i]] + tail)[1..] == tail;
      assert Join(Split(s, sep), sep) == s[..i] + sep + rest;
      assert s == s[..i] + s[i..i + |sep|] + rest;
  }

  /** No piece of `s.split(sep)` contains `sep`. */
  lemma {:induction false} SplitPiecesAvoidSep(s: string, sep: string)
    requires sep != []
    ensures forall k | 0 <= k < |Split(s, sep)| :: !Contains(Split(s, sep)[k], sep)
    decreases |s|
  {
    match IndexOf(s, sep)
    case None =>
    case Some(i) =>
      var rest := s[i + |sep|..];
      var tail := Split(rest, sep);
      SplitPiecesAvoidSep(rest, sep);
      SplitStep(s, sep, i);
      forall j | 0 <= j <= |s[..i]|
        ensures !OccursAt(s[..i], sep, j)
      {
        OccursInPrefix(s, sep, i, j);
      }
  }

  /** An occurrence inside `s[..i]` is an occurrence in `s` before `i`. */
  lemma OccursInPrefix(s: string, sub: string, i: nat, j: int)
    requires sub != [] && i <= |s|
    ensures OccursAt(s[..i], sub, j) ==> OccursAt(s, sub, j) && j < i
  {
    if OccursAt(s[..i], sub, j) {
      assert s[j..j + |sub|] == s[..i][j..j + |sub|];
    }
  }

  /** Python's `s.split(sep)[-1]`. */
  function AfterLast(s: string, sep: string): string
    requires sep != []
  {
    var parts := Split(s, sep);
    parts[|parts| - 1]
  }

  /** `s.split(mark)[-1]` is the text after the last occurrence of `mark`:
      it is a suffix of `s` that contains no `mark`, it is preceded by `mark`
      when `mark in s`, and it is all of `s` otherwise. */
  lemma AfterLastIsTextAfterLabel(s: string, mark: string)
    requires mark != []
    ensures |AfterLast(s, mark)| <= |s|
    ensures AfterLast(s, mark) == s[|s| - |AfterLast(s, mark)|..]
    ensures !Contains(AfterLast(s, mark), mark)
    ensures Contains(s, mark) ==> OccursAt(s, mark, |s| - |AfterLast(s, mark)| - |mark|)
    ensures !Contains(s, mark) ==> AfterLast(s, mark) == s
  {
    AfterLastSuffix(s, mark);
    SplitPiecesAvoidSep(s, mark);
  }

  /** `r` is a suffix of `s`: all of `s` when `mark` does not occur in it,
      and preceded by `mark` when it does. */
  predicate LastPiece(s: string, mark: string, r: string) {
    |r| <= |s| && r == s[|s| - |r|..]
    && (Contains(s, mark) ==> OccursAt(s, mark, |s| - |r| - |mark|))
    && (!Contains(s, mark) ==> r == s)
  }

  /** The last piece of the split is such a suffix. */
  lemma {:induction false} AfterLastSuffix(s: string, mark: string)
    requires mark != []
    ensures LastPiece(s, mark, AfterLast(s, mark))
    decreases |s|
  {
    match IndexOf(s, mark)
    case None =>
      assert Split(s, mark) == [s];
    case Some(i) =>
      var rest := s[i + |mark|..];
      AfterLastSuffix(rest, mark);
      AfterLastStep(s, mark, i);
      AfterLastShift(s, mark, i, AfterLast(rest, mark));
  }

  /** The recursive case of the lemma above: a last piece of the text after
      the first occurrence at `i` is a last piece of `s`. */
  lemma AfterLastShift(s: string, mark: string, i: nat, r: string)
    requires OccursAt(s, mark, i)
    requires LastPiece(s[i + |mark|..], mark, r)
    ensures LastPiece(s, mark, r)
  {
    var rest := s[i + |mark|..];
    assert s[|s| - |r|..] == rest[|rest| - |r|..];
    assert Contains(s, mark);
    if Contains(rest, mark) {
      OccursShifted(s, mark, i + |mark|, |rest| - |r| - |mark|);
    } else {
      assert |s| - |r| - |mark| == i;
    }
  }

  lemma AfterLastStep(s: string, mark: string, i: nat)
    requires mark != [] && IndexOf(s, mark) == Some(i)
    ensures AfterLast(s, mark) == AfterLast(s[i + |mark|..], mark)
  {
    var rest := s[i + |mark|..];
    var parts := Split(s, mark);
    var tail := Split(rest, mark);
    SplitStep(s, mark, i);
    LastOfCons(parts, s[..i], tail);
    assert AfterLast(s, mark) == parts[|parts| - 1];
    assert AfterLast(rest, mark) == tail[|tail| - 1];
  }

  lemma LastOfCons(parts: seq<string>, head: string, tail: seq<string>)
    requires parts == [head] + tail && tail != []
    ensures parts[|parts| - 1] == tail[|tail| - 1]
  {
  }

  lemma OccursShifted(s: string, sub: string, off: nat, p: int)
    requires off <= |s| && OccursAt(s[off..], sub, p)
    ensures OccursAt(s, sub, off + p)
  {
    assert s[off + p..off + p + |sub|] == s[off..][p..p + |sub|];
  }

  /** The ASCII part of `str.upper()` on one character. */
  function UpperChar(c: char): char {
    if 'a' <= c <= 'z' then (c as int - 32) as char else c
  }

  /** `s.upper()`, for the ASCII letters. */
  function Upper(s: string): (r: string)
    ensures |r| == |s|
    ensures forall i | 0 <= i < |s| :: r[i] == UpperChar(s[i])
  {
    if s == [] then [] else [UpperChar(s[0])] + Upper(s[1..])
  }

  /** No upper-cased string contains a lower-case letter, so a test
      `'SL.No' in s.upper()` is always false. */
  lemma UpperNeverContainsSlNo(s: string)
    ensures !Contains(Upper(s), "SL.No")
  {
    var u := Upper(s);
    forall i | 0 <= i <= |u|
      ensures !OccursAt(u, "SL.No", i)
    {
      if i + 5 <= |u| {
        assert u[i..i + 5][4] == u[i + 4] == UpperChar(s[i + 4]);
        assert UpperChar(s[i + 4]) != 'o';
      }
    }
  }

  predicate IsDigit(c: char) {
    '0' <= c <= '9'
  }

  predicate AllDigits(s: string) {
    forall i | 0 <= i < |s| :: IsDigit(s[i])
  }

  /** The length of the run of decimal digits that starts `s` (what a greedy
      `\d+` consumes). */
  function DigitRun(s: string): (n: nat)
    ensures n <= |s| && AllDigits(s[..n])
    ensures n < |s| ==> !IsDigit(s[n])
  {
    if s != [] && IsDigit(s[0]) then
      var n := 1 + DigitRun(s[1..]);
      assert s[..n] == [s[0]] + s[1..][..n - 1];
      n
    else
      0
  }

  /** A string of digits followed by a non-digit (or nothing) is one digit run. */
  lemma {:induction false} DigitRunOf(d: string, tail: string)
    requires AllDigits(d)
    requires tail == [] || !IsDigit(tail[0])
    ensures DigitRun(d + tail) == |d|
    decreases |d|
  {
    if d != [] {
      assert (d + tail)[1..] == d[1..] + tail;
      DigitRunOf(d[1..], tail);
    } else {
      assert d + tail == tail;
    }
  }

  function DigitValue(c: char): nat
    requires IsDigit(c)
  {
    c as int - '0' as int
  }

  /** `int(d)` for a string of decimal digits. */
  function DigitsValue(d: string): nat
    requires AllDigits(d)
  {
    if d == [] then 0 else DigitsValue(d[..|d| - 1]) * 10 + DigitValue(d[|d| - 1])
  }

  function DigitChar(n: nat): (c: char)
    requires n < 10
    ensures IsDigit(c) && DigitValue(c) == n
  {
    ('0' as int + n) as char
  }

  /** `str(n)` for a natural number. */
  function NatText(n: nat): (t: string)
    ensures t != [] && AllDigits(t)
  {
    if n < 10 then [DigitChar(n)] else NatText(n / 10) + [DigitChar(n % 10)]
  }

  /** `int(str(n)) == n` */
  lemma {:induction false} NatTextValue(n: nat)
    ensures DigitsValue(NatText(n)) == n
  {
    if n >= 10 {
      NatTextValue(n / 10);
      var t := NatText(n);
      assert t[..|t| - 1] == NatText(n / 10);
    }
  }

  /** `str(i)`: an optional minus sign, then the decimal digits. */
  function IntText(i: int): string {
    if i < 0 then "-" + NatText(-i) else NatText(i)
  }

  /** `int(t)` for a string already stripped. */
  function ParseStripped(t: string): Option<int> {
    if t == [] then None
    else if t[0] == '-' || t[0] == '+' then
      var d := t[1..];
      if d != [] && AllDigits(d) then
        var n: int := DigitsValue(d);
        if t[0] == '-' then Some(-n) else Some(n)
      else
        None
    else if AllDigits(t) then Some(DigitsValue(t))
    else None
  }

  /** `int(text)`: after surrounding whitespace, an optional sign and at least
      one decimal digit; anything else raises ValueError (`None`). */
  function ParseInt(text: string): Option<int> {
    ParseStripped(Strip(text))
  }

  /** `int()` ignores whitespace around the number, and so does an explicit
      `strip()` before it. */
  lemma ParseIntIgnoresSpace(pre: string, t: string, post: string)
    requires AllSpace(pre) && AllSpace(post)
    ensures ParseInt(pre + t + post) == ParseInt(t)
    ensures ParseInt(Strip(t)) == ParseInt(t)
  {
    StripIgnoresSpace(pre, t, post);
    StripIdempotent(t);
  }

  /** Writing an integer with `str` and reading it back with `int` (after
      `strip`) gives the same integer. */
  lemma IntTextRoundTrip(i: int)
    ensures ParseInt(IntText(i)) == Some(i)
  {
    var t := IntText(i);
    var d := if i < 0 then -i else i;
    NatTextValue(d);
    StripKeeps(t);
    if i < 0 {
      assert t[1..] == NatText(d);
    }
  }
}
