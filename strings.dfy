/** The JavaScript and Node.js string operations the call-tone code relies on:
    String.prototype.trim, String.prototype.split with a one-character separator,
    the decimal rendering of a non-negative integer, the global parseInt,
    path.extname, and the front end's extension-stripping regular expression. */
module Strings {

  datatype Option<T> = None | Some(value: T)

  /** A JavaScript value that is either a string or undefined is truthy iff it is a
      non-empty string. */
  predicate Truthy(v: Option<string>) {
    v.Some? && v.value != ""
  }

  /** ECMAScript WhiteSpace and LineTerminator code points (what trim and parseInt skip). */
  predicate IsWhitespace(c: char) {
    var k := c as int;
    k == 0x09 || k == 0x0A || k == 0x0B || k == 0x0C || k == 0x0D || k == 0x20 || k == 0xA0
    || k == 0x1680 || (0x2000 <= k <= 0x200A) || k == 0x2028 || k == 0x2029
    || k == 0x202F || k == 0x205F || k == 0x3000 || k == 0xFEFF
  }

  predicate AllWhitespace(s: string) {
    forall i :: 0 <= i < |s| ==> IsWhitespace(s[i])
  }

  predicate StartsWith(s: string, prefix: string) {
    |prefix| <= |s| && s[..|prefix|] == prefix
  }

  // ---------------------------------------------------------------------------
  // trim

  /** Drops leading white space: the result is the suffix of s that starts at its
      first non-white-space character. */
  function TrimStart(s: string): (r: string)
    ensures |r| <= |s| && r == s[|s| - |r|..]
    ensures AllWhitespace(s[..|s| - |r|])
    ensures r == [] || !IsWhitespace(r[0])
  {
    if |s| > 0 && IsWhitespace(s[0]) then
      var r := TrimStart(s[1..]);
      WhitespaceBefore(s, r);
      r
    else
      s
  }

  /** One more white-space character in front of a white-space prefix. */
  lemma WhitespaceBefore(s: string, r: string)
    requires |s| > 0 && IsWhitespace(s[0])
    requires |r| <= |s| - 1 && AllWhitespace(s[1..][..|s| - 1 - |r|])
    ensures AllWhitespace(s[..|s| - |r|])
  {
    forall i | 0 < i < |s| - |r| ensures IsWhitespace(s[i]) {
      assert s[i] == s[1..][..|s| - 1 - |r|][i - 1];
    }
  }

  /** Drops trailing white space: the result is the prefix of s that ends at its
      last non-white-space character. */
  function TrimEnd(s: string): (r: string)
    ensures |r| <= |s| && r == s[..|r|]
    ensures AllWhitespace(s[|r|..])
    ensures r == [] || !IsWhitespace(r[|r| - 1])
  {
    if |s| > 0 && IsWhitespace(s[|s| - 1]) then
      var r := TrimEnd(s[..|s| - 1]);
      assert s[|r|..] == s[..|s| - 1][|r|..] + [s[|s| - 1]];
      r
    else
      s
  }

  /** String.prototype.trim: the part of s left after removing its white-space
      prefix and its white-space suffix (where these are is stated by
      TrimRemovesSurroundingSpace). */
  function Trim(s: string): (r: string)
    ensures |r| <= |s|
    ensures r == [] || (!IsWhitespace(r[0]) && !IsWhitespace(r[|r| - 1]))
    ensures r == [] <==> AllWhitespace(s)
  {
    var t := TrimStart(s);
    var r := TrimEnd(t);
    assert r != [] ==> r[0] == t[0];
    assert t == [] ==> s[..|s| - |t|] == s;
    r
  }

  /** Trim cuts s at k, the length of its leading white space: the result is
      s[k..k + |r|], and everything before k and after it is white space. */
  lemma TrimRemovesSurroundingSpace(s: string)
    ensures TrimmedAt(s, |s| - |TrimStart(s)|, Trim(s))
  {
    TrimPosition(s, TrimStart(s), TrimEnd(TrimStart(s)));
  }

  /** r is the part of s from index k on, with only white space before k and
      after r. */
  predicate TrimmedAt(s: string, k: int, r: string) {
    && 0 <= k && k + |r| <= |s| && r == s[k..k + |r|]
    && AllWhitespace(s[..k]) && AllWhitespace(s[k + |r|..])
  }

  lemma TrimPosition(s: string, t: string, r: string)
    requires |t| <= |s| && t == s[|s| - |t|..] && AllWhitespace(s[..|s| - |t|])
    requires |r| <= |t| && r == t[..|r|] && AllWhitespace(t[|r|..])
    ensures TrimmedAt(s, |s| - |t|, r)
  {
    var k := |s| - |t|;
    forall i | 0 <= i < |r| ensures s[k..k + |r|][i] == r[i] {
      assert s[k + i] == t[i];
    }
    forall i | k + |r| <= i < |s| ensures IsWhitespace(s[i]) {
      assert s[i] == t[|r|..][i - k - |r|];
    }
  }

  /** No white space at either end. */
  predicate IsTrimmed(s: string) {
    s == [] || (!IsWhitespace(s[0]) && !IsWhitespace(s[|s| - 1]))
  }

  /** A string is its own trim exactly when it has no white space at either end. */
  lemma TrimOfTrimmed(s: string)
    ensures Trim(s) == s <==> IsTrimmed(s)
  {
    if IsTrimmed(s) {
      TrimStartOfTrimmed(s);
      TrimEndOfTrimmed(s);
    }
  }

  lemma TrimStartOfTrimmed(s: string)
    requires s == [] || !IsWhitespace(s[0])
    ensures TrimStart(s) == s
  {
  }

  lemma TrimEndOfTrimmed(s: string)
    requires s == [] || !IsWhitespace(s[|s| - 1])
    ensures TrimEnd(s) == s
  {
  }


  // ---------------------------------------------------------------------------
  // split and join with a one-character separator

  /** String.prototype.split(sep) for a one-character separator: the pieces between
      separators, empty pieces kept, at least one piece ("".split(",") is [""]). */
  function Split(s: string, sep: char): (r: seq<string>)
    ensures |r| >= 1
    ensures forall i :: 0 <= i < |r| ==> sep !in r[i]
  {
    if |s| == 0 then [""]
    else
      var rest := Split(s[1..], sep);
      if s[0] == sep then [""] + rest
      else [[s[0]] + rest[0]] + rest[1..]
  }

  /** Array.prototype.join(sep). */
  function Join(parts: seq<string>, sep: char): string {
    if |parts| == 0 then ""
    else if |parts| == 1 then parts[0]
    else parts[0] + [sep] + Join(parts[1..], sep)
  }

  /** Joining the pieces of a split gives back the original string. */
  lemma {:induction false} JoinSplit(s: string, sep: char)
    ensures Join(Split(s, sep), sep) == s
  {
    if |s| > 0 {
      var rest := Split(s[1..], sep);
      JoinSplit(s[1..], sep);
      if s[0] == sep {
        assert ([""] + rest)[1..] == rest;
      } else if |rest| > 1 {
        assert Join(rest, sep) == rest[0] + [sep] + Join(rest[1..], sep);
        assert ([[s[0]] + rest[0]] + rest[1..])[1..] == rest[1..];
      }
    }
  }

  lemma {:induction false} SplitWithoutSeparator(a: string, sep: char)
    requires sep !in a
    ensures Split(a, sep) == [a]
  {
    if |a| > 0 {
      SplitWithoutSeparator(a[1..], sep);
      assert [a[0]] + a[1..] == a;
    }
  }

  lemma {:induction false} SplitAtSeparator(a: string, sep: char, t: string)
    requires sep !in a
    ensures Split(a + [sep] + t, sep) == [a] + Split(t, sep)
  {
    var s := a + [sep] + t;
    if |a| == 0 {
      assert s[1..] == t;
    } else {
      assert s[1..] == a[1..] + [sep] + t;
      SplitAtSeparator(a[1..], sep, t);
      assert [a[0]] + a[1..] == a;
    }
  }

  /** Splitting a join of separator-free pieces gives back exactly those pieces. */
  lemma {:induction false} SplitJoin(parts: seq<string>, sep: char)
    requires |parts| >= 1
    requires forall i :: 0 <= i < |parts| ==> sep !in parts[i]
    ensures Split(Join(parts, sep), sep) == parts
  {
    if |parts| == 1 {
      SplitWithoutSeparator(parts[0], sep);
    } else {
      SplitJoin(parts[1..], sep);
      SplitAtSeparator(parts[0], sep, Join(parts[1..], sep));
      assert [parts[0]] + parts[1..] == parts;
    }
  }

  // ---------------------------------------------------------------------------
  // numbers as text

  /** The value of c as a digit in radix up to 36 ('0'-'9', then 'a'-'z' or
      'A'-'Z' for 10-35), or -1 when c is not alphanumeric. */
  function DigitValue(c: char): int {
    if '0' <= c <= '9' then c as int - '0' as int
    else if 'a' <= c <= 'z' then c as int - 'a' as int + 10
    else if 'A' <= c <= 'Z' then c as int - 'A' as int + 10
    else -1
  }

  predicate IsRadixDigit(c: char, radix: nat) {
    0 <= DigitValue(c) < radix
  }

  predicate AllRadixDigits(s: string, radix: nat) {
    forall i :: 0 <= i < |s| ==> IsRadixDigit(s[i], radix)
  }

  function DigitChar(d: nat): (c: char)
    requires d < 10
    ensures '0' <= c <= '9' && DigitValue(c) == d
  {
    ('0' as int + d) as char
  }

  /** String(n) for a non-negative integer n: its decimal digits, most significant
      first, with no leading zero. */
  function Decimal(n: nat): (r: string)
    ensures |r| >= 1 && AllRadixDigits(r, 10)
    ensures forall i :: 0 <= i < |r| ==> '0' <= r[i] <= '9'
    ensures n > 0 ==> r[0] != '0'
    ensures |r| > 1 <==> n >= 10
  {
    if n < 10 then [DigitChar(n)] else Decimal(n / 10) + [DigitChar(n % 10)]
  }

  /** The number a string of radix digits denotes. */
  function ValueOf(z: string, radix: nat): nat
    requires AllRadixDigits(z, radix)
  {
    if |z| == 0 then 0
    else ValueOf(z[..|z| - 1], radix) * radix + DigitValue(z[|z| - 1])
  }

  /** The longest prefix of s made of radix digits. */
  function DigitRun(s: string, radix: nat): (z: string)
    ensures |z| <= |s| && z == s[..|z|] && AllRadixDigits(z, radix)
    ensures |z| < |s| ==> !IsRadixDigit(s[|z|], radix)
  {
    if |s| > 0 && IsRadixDigit(s[0], radix) then [s[0]] + DigitRun(s[1..], radix) else []
  }

  /** The global parseInt(s) with no radix argument; None stands for NaN. Leading
      white space is skipped, one sign is accepted, a "0x" or "0X" prefix selects
      radix 16, and the longest run of digits that follows is read. */
  function ParseInt(s: string): (r: Option<int>)
    ensures r.Some? ==> StartsWithDigit(AfterSign(TrimStart(s)))
  {
    ParseSigned(TrimStart(s))
  }

  /** The text after one leading '-' or '+', if there is one. */
  function AfterSign(t: string): string {
    if |t| > 0 && (t[0] == '-' || t[0] == '+') then t[1..] else t
  }

  predicate StartsWithDigit(u: string) {
    |u| > 0 && '0' <= u[0] <= '9'
  }

  /** parseInt after the white space: one optional sign, then the number. */
  function ParseSigned(t: string): (r: Option<int>)
    ensures r.Some? ==> StartsWithDigit(AfterSign(t))
  {
    var neg := |t| > 0 && t[0] == '-';
    var m := ParseUnsigned(AfterSign(t));
    if m.None? then None
    else
      var w: int := m.value;
      Some(if neg then -w else w)
  }

  /** parseInt after the sign: "0x" or "0X" selects radix 16, and the longest
      run of digits of the radix is read; no digit at all is NaN. */
  function ParseUnsigned(u: string): (r: Option<nat>)
    ensures r.Some? ==> StartsWithDigit(u)
  {
    var hex := |u| >= 2 && u[0] == '0' && (u[1] == 'x' || u[1] == 'X');
    var radix := if hex then 16 else 10;
    var body := if hex then u[2..] else u;
    var z := DigitRun(body, radix);
    if |z| == 0 then None
    else
      assert body[0] == u[|u| - |body|];
      Some(ValueOf(z, radix))
  }

  /** parseInt(undefined) is NaN. */
  function ParseIntOpt(v: Option<string>): Option<int> {
    match v
    case None => None
    case Some(s) => ParseInt(s)
  }

  lemma {:induction false} DigitRunOfDigits(s: string, radix: nat)
    requires AllRadixDigits(s, radix)
    ensures DigitRun(s, radix) == s
  {
    if |s| > 0 {
      DigitRunOfDigits(s[1..], radix);
      assert [s[0]] + s[1..] == s;
    }
  }

  lemma {:induction false} ValueOfDecimal(n: nat)
    ensures ValueOf(Decimal(n), 10) == n
  {
    var d := Decimal(n);
    if n >= 10 {
      ValueOfDecimal(n / 10);
      assert d[..|d| - 1] == Decimal(n / 10);
    }
  }

  /** parseInt reads back what String(n) wrote. */
  lemma ParseIntDecimal(n: nat)
    ensures ParseInt(Decimal(n)) == Some(n)
  {
    var d := Decimal(n);
    assert !IsWhitespace(d[0]);
    assert TrimStart(d) == d;
    assert d[0] != '-' && d[0] != '+';
    DigitRunOfDigits(d, 10);
    ValueOfDecimal(n);
  }

  /** Different numbers are written differently. */
  lemma DecimalInjective(m: nat, n: nat)
    requires Decimal(m) == Decimal(n)
    ensures m == n
  {
    ValueOfDecimal(m);
    ValueOfDecimal(n);
  }

  /** Leading white space is skipped up to the first other character. */
  lemma {:induction false} TrimStartAfterSpace(ws: string, rest: string)
    requires AllWhitespace(ws) && (rest == [] || !IsWhitespace(rest[0]))
    ensures TrimStart(ws + rest) == rest
  {
    if |ws| == 0 {
      assert ws + rest == rest;
      TrimStartOfTrimmed(rest);
    } else {
      assert (ws + rest)[1..] == ws[1..] + rest;
      TrimStartAfterSpace(ws[1..], rest);
    }
  }

  /** The digit run stops at the first character that is not a digit. */
  lemma {:induction false} DigitRunStopsAt(z: string, tail: string, radix: nat)
    requires AllRadixDigits(z, radix) && (tail == [] || !IsRadixDigit(tail[0], radix))
    ensures DigitRun(z + tail, radix) == z
  {
    if |z| == 0 {
      assert z + tail == tail;
    } else {
      assert (z + tail)[1..] == z[1..] + tail;
      DigitRunStopsAt(z[1..], tail, radix);
      assert [z[0]] + z[1..] == z;
    }
  }

  /** parseInt of a decimal number written after optional white space and
      followed by any text that does not start with a digit (" 5242880",
      "10MB") is that number. A lone "0" followed by 'x' or 'X' is the start of
      a hexadecimal literal and is excluded. */
  lemma ParseIntOfWrittenNumber(ws: string, n: nat, tail: string)
    requires AllWhitespace(ws)
    requires tail == [] || !IsRadixDigit(tail[0], 10)
    requires n > 0 || tail == [] || (tail[0] != 'x' && tail[0] != 'X')
    ensures ParseInt(ws + (Decimal(n) + tail)) == Some(n)
  {
    var u := Decimal(n) + tail;
    ParseUnsignedDecimal(n, tail);
    ParseWithoutSign(u, n);
    ParseIntAfterSpace(ws, u);
  }

  /** The same with a sign between the white space and the digits: '-' negates
      the number, '+' keeps it. */
  lemma ParseIntOfSignedNumber(ws: string, c: char, n: nat, tail: string)
    requires AllWhitespace(ws) && (c == '-' || c == '+')
    requires tail == [] || !IsRadixDigit(tail[0], 10)
    requires n > 0 || tail == [] || (tail[0] != 'x' && tail[0] != 'X')
    ensures var v: int := n; ParseInt(ws + ([c] + (Decimal(n) + tail))) == Some(if c == '-' then -v else v)
  {
    var u := Decimal(n) + tail;
    ParseUnsignedDecimal(n, tail);
    ParseAfterSign(c, u, n);
    ParseIntAfterSpace(ws, [c] + u);
  }

  /** White space in front of a string that does not start with white space is
      skipped. */
  lemma ParseIntAfterSpace(ws: string, t: string)
    requires AllWhitespace(ws) && (t == [] || !IsWhitespace(t[0]))
    ensures ParseInt(ws + t) == ParseSigned(t)
  {
    TrimStartAfterSpace(ws, t);
  }

  /** A number that starts with a digit has no sign to strip. */
  lemma ParseWithoutSign(u: string, v: nat)
    requires ParseUnsigned(u) == Some(v) && '0' <= u[0] <= '9'
    ensures ParseSigned(u) == Some(v)
    ensures !IsWhitespace(u[0])
  {
  }

  /** A sign in front of an unsigned number: '-' negates it, '+' keeps it. */
  lemma ParseAfterSign(c: char, u: string, v: nat)
    requires c == '-' || c == '+'
    requires ParseUnsigned(u) == Some(v)
    ensures var w: int := v; ParseSigned([c] + u) == Some(if c == '-' then -w else w)
  {
    var t := [c] + u;
    assert t[0] == c && t[1..] == u;
  }

  lemma ParseUnsignedDecimal(n: nat, tail: string)
    requires tail == [] || !IsRadixDigit(tail[0], 10)
    requires n > 0 || tail == [] || (tail[0] != 'x' && tail[0] != 'X')
    ensures ParseUnsigned(Decimal(n) + tail) == Some(n)
    ensures '0' <= (Decimal(n) + tail)[0] <= '9'
  {
    var d := Decimal(n);
    var u := d + tail;
    assert u[0] == d[0];
    assert !(|u| >= 2 && u[0] == '0' && (u[1] == 'x' || u[1] == 'X')) by {
      if n == 0 && |u| >= 2 { assert |d| == 1 && u[1] == tail[0]; }
    }
    DigitRunStopsAt(d, tail, 10);
    ValueOfDecimal(n);
  }

  predicate AllZeros(p: string) {
    forall i :: 0 <= i < |p| ==> p[i] == '0'
  }

  /** Zeros in front of a digit string do not change its value. */
  lemma {:induction false} ValueOfZeroPadded(p: string, z: string, radix: nat)
    requires radix >= 2 && AllZeros(p) && AllRadixDigits(z, radix)
    ensures AllRadixDigits(p + z, radix) && ValueOf(p + z, radix) == ValueOf(z, radix)
    decreases |p| + |z|
  {
    var w := p + z;
    assert forall i :: 0 <= i < |w| ==> IsRadixDigit(w[i], radix) by {
      forall i | 0 <= i < |w| ensures IsRadixDigit(w[i], radix) {
        if i < |p| { assert w[i] == p[i]; } else { assert w[i] == z[i - |p|]; }
      }
    }
    if |z| == 0 {
      if |p| > 0 {
        assert w[..|w| - 1] == p[..|p| - 1] + z;
        ValueOfZeroPadded(p[..|p| - 1], z, radix);
      }
    } else {
      assert w[..|w| - 1] == p + z[..|z| - 1];
      ValueOfZeroPadded(p, z[..|z| - 1], radix);
    }
  }

  /** parseInt ignores leading zeros: "007" is 7, and no zero prefix turns
      the text into a hexadecimal literal. */
  lemma ParseIntZeroPadded(zeros: string, n: nat, tail: string)
    requires |zeros| >= 1 && AllZeros(zeros)
    requires tail == [] || !IsRadixDigit(tail[0], 10)
    ensures ParseInt(zeros + Decimal(n) + tail) == Some(n)
  {
    var u := zeros + Decimal(n) + tail;
    ParseUnsignedZeroPadded(zeros, n, tail);
    ParseWithoutSign(u, n);
    assert [] + u == u;
    ParseIntAfterSpace([], u);
  }

  lemma ParseUnsignedZeroPadded(zeros: string, n: nat, tail: string)
    requires |zeros| >= 1 && AllZeros(zeros)
    requires tail == [] || !IsRadixDigit(tail[0], 10)
    ensures ParseUnsigned(zeros + Decimal(n) + tail) == Some(n)
    ensures (zeros + Decimal(n) + tail)[0] == '0'
  {
    var d := Decimal(n);
    var z := zeros + d;
    var u := z + tail;
    ValueOfZeroPadded(zeros, d, 10);
    DigitRunStopsAt(z, tail, 10);
    ValueOfDecimal(n);
    ZeroPrefixIsNotHex(zeros, d, tail);
  }

  lemma ZeroPrefixIsNotHex(zeros: string, d: string, tail: string)
    requires |zeros| >= 1 && AllZeros(zeros) && |d| >= 1 && '0' <= d[0] <= '9'
    ensures var u := zeros + d + tail; u[0] == '0' && u[1] != 'x' && u[1] != 'X'
  {
    var u := zeros + d + tail;
    assert u[0] == zeros[0];
    if |zeros| >= 2 { assert u[1] == zeros[1]; } else { assert u[1] == d[0]; }
  }

  // ---------------------------------------------------------------------------
  // file names

  /** The index of the last c in s, or -1. */
  function LastIndexOf(s: string, c: char): (r: int)
    ensures -1 <= r < |s|
    ensures r >= 0 ==> s[r] == c
    ensures forall j :: r < j < |s| ==> s[j] != c
  {
    if |s| == 0 then -1
    else if s[|s| - 1] == c then |s| - 1
    else LastIndexOf(s[..|s| - 1], c)
  }

  function DropTrailingSlashes(s: string): (r: string)
    ensures |r| <= |s| && r == s[..|r|]
    ensures r == [] || r[|r| - 1] != '/'
  {
    if |s| > 0 && s[|s| - 1] == '/' then DropTrailingSlashes(s[..|s| - 1]) else s
  }

  /** The last component of a '/'-separated path, trailing separators ignored. */
  function LastComponent(path: string): (b: string)
    ensures '/' !in b
  {
    var t := DropTrailingSlashes(path);
    var k := LastIndexOf(t, '/');
    var b := t[k + 1..];
    assert forall j :: 0 <= j < |b| ==> b[j] == t[k + 1 + j];
    b
  }

  /** path.extname on POSIX: from the last '.' of the last path component to its
      end, or "" when that component has no '.', starts with its only leading
      '.', or is "..". */
  function Extname(path: string): (r: string)
    ensures r == [] || (r[0] == '.' && '.' !in r[1..] && '/' !in r)
    ensures var b := LastComponent(path);
      && |r| <= |b| && r == b[|b| - |r|..]
      && (r == [] <==> LastIndexOf(b, '.') <= 0 || b == "..")
  {
    var b := LastComponent(path);
    var d := LastIndexOf(b, '.');
    if d <= 0 || b == ".." then "" else
      assert forall j :: 0 <= j < |b| - d ==> b[d..][j] == b[d + j];
      b[d..]
  }

  /** LastIndexOf finds the one occurrence with none after it. */
  lemma LastIndexOfUnique(s: string, c: char, k: nat)
    requires k < |s| && s[k] == c
    requires forall j :: k < j < |s| ==> s[j] != c
    ensures LastIndexOf(s, c) == k
  {
  }

  lemma LastDotOfPlainName(stem: string, ext: string)
    requires '.' !in ext
    ensures LastIndexOf(stem + "." + ext, '.') == |stem|
  {
    var name := stem + "." + ext;
    LastDotAt(name, |stem|, ext);
  }

  lemma LastDotAt(name: string, k: nat, ext: string)
    requires k < |name| && name[k] == '.' && name[k + 1..] == ext && '.' !in ext
    ensures LastIndexOf(name, '.') == k
  {
    forall j | k < j < |name| ensures name[j] != '.' {
      assert name[j] == ext[j - k - 1];
    }
    LastIndexOfUnique(name, '.', k);
  }

  /** A name without separators is its own last component. */
  lemma LastComponentOfPlainName(name: string)
    requires '/' !in name
    ensures LastComponent(name) == name
  {
    assert name == [] || name[|name| - 1] != '/';
    assert DropTrailingSlashes(name) == name;
    assert LastIndexOf(name, '/') == -1;
  }

  /** The extension of a separator-free name whose last '.' is at k > 0. */
  lemma ExtnameAtLastDot(name: string, k: nat)
    requires '/' !in name && name != ".."
    requires k > 0 && LastIndexOf(name, '.') == k
    ensures Extname(name) == name[k..]
  {
    LastComponentOfPlainName(name);
  }

  lemma PlainNameShape(stem: string, ext: string)
    requires |stem| > 0 && '/' !in stem && '/' !in ext
    requires !(stem == "." && ext == "")
    ensures '/' !in stem + "." + ext
    ensures stem + "." + ext != ".."
  {
    var name := stem + "." + ext;
    assert '/' !in ".";
    if |name| == 2 {
      assert name[..1] == stem;
    }
  }

  /** The extension of a plain file name: Extname("ring.mp3") is ".mp3". */
  lemma ExtnameOfPlainName(stem: string, ext: string)
    requires |stem| > 0 && '/' !in stem && '/' !in ext && '.' !in ext
    requires !(stem == "." && ext == "")
    ensures Extname(stem + "." + ext) == "." + ext
  {
    PlainNameShape(stem, ext);
    LastDotOfPlainName(stem, ext);
    ExtnameAfterStem(stem, ext, stem + "." + ext);
  }

  lemma ExtnameAfterStem(stem: string, ext: string, name: string)
    requires name == stem + "." + ext && |stem| > 0
    requires '/' !in name && name != ".." && LastIndexOf(name, '.') == |stem|
    ensures Extname(name) == name[|stem|..] == "." + ext
  {
    ExtnameAtLastDot(name, |stem|);
    DropStem(stem, ext, name);
  }

  /** What follows the stem of stem + "." + ext. */
  lemma DropStem(stem: string, ext: string, name: string)
    requires name == stem + "." + ext
    ensures name[|stem|..] == "." + ext
  {
    var d := name[|stem|..];
    var e := "." + ext;
    assert |d| == |e|;
    forall j | 0 <= j < |d| ensures d[j] == e[j] {
      assert d[j] == name[|stem| + j];
      if j > 0 {
        assert e[j] == ext[j - 1];
      }
    }
  }

  /** name.replace(/\.[^/.]+$/, ''): removes a final '.' followed by at least one
      character when none of those characters is '/' (or '.'). */
  function StripClientExt(name: string): (r: string)
    ensures |r| <= |name| && r == name[..|r|]
    ensures r != name ==> name[|r|] == '.' && |r| < |name| - 1
                          && '.' !in name[|r| + 1..] && '/' !in name[|r| + 1..]
    ensures forall k :: 0 <= k < |name| - 1 && name[k] == '.' && '.' !in name[k + 1..] && '/' !in name[k + 1..]
                        ==> r == name[..k]
  {
    StripFinalExt(name);
    var d := LastIndexOf(name, '.');
    if 0 <= d < |name| - 1 && '/' !in name[d + 1..] then name[..d] else name
  }

  /** A '.' with no later '.' is the one LastIndexOf finds. */
  lemma StripFinalExt(name: string)
    ensures forall k :: 0 <= k < |name| - 1 && name[k] == '.' && '.' !in name[k + 1..]
                        ==> LastIndexOf(name, '.') == k
  {
    forall k | 0 <= k < |name| - 1 && name[k] == '.' && '.' !in name[k + 1..]
      ensures LastIndexOf(name, '.') == k
    {
      forall j | k < j < |name| ensures name[j] != '.' {
        assert name[j] == name[k + 1..][j - k - 1];
      }
      LastIndexOfUnique(name, '.', k);
    }
  }

  /** For a plain name with a non-empty extension, the client's stripped title is
      the part before the last '.', the part path.extname does not return. */
  lemma StripClientExtOfPlainName(stem: string, ext: string)
    requires |stem| > 0 && '/' !in stem && '/' !in ext && '.' !in ext && ext != ""
    ensures StripClientExt(stem + "." + ext) == stem
  {
    LastDotOfPlainName(stem, ext);
    StripAfterStem(stem, ext, stem + "." + ext);
  }

  lemma StripAfterStem(stem: string, ext: string, name: string)
    requires name == stem + "." + ext && '/' !in ext && ext != ""
    requires LastIndexOf(name, '.') == |stem|
    ensures StripClientExt(name) == stem
  {
    assert name[|stem| + 1..] == ext;
    assert name[..|stem|] == stem;
  }
}
