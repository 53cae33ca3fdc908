/** The Python string operations the configuration parsers rely on:
    `str.strip()`, `str.split(sep)`, `str.upper()`, `str.endswith`,
    `int(str)`, `float(str)` and `str(int)`. */
module PyStr {
  import opened Wrappers

  /** `str.isspace()` for one character: the characters Python's string
      methods treat as whitespace. */
  predicate IsSpace(c: char) {
    || c in {'\t', '\n', '\U{b}', '\U{c}', '\r', '\U{1c}', '\U{1d}', '\U{1e}', '\U{1f}', ' '}
    || c in {'\U{85}', '\U{a0}', '\U{1680}', '\U{2028}', '\U{2029}', '\U{202f}', '\U{205f}', '\U{3000}'}
    || '\U{2000}' <= c <= '\U{200a}'
  }

  // ---------------------------------------------------------------- strip

  /** Drops leading whitespace. */
  function LStrip(s: string): (r: string)
    ensures |r| <= |s|
  {
    if s != [] && IsSpace(s[0]) then LStrip(s[1..]) else s
  }

  /** Drops trailing whitespace. */
  function RStrip(s: string): (r: string)
    ensures |r| <= |s|
  {
    if s != [] && IsSpace(s[|s| - 1]) then RStrip(s[..|s| - 1]) else s
  }

  /** `lstrip()` keeps a suffix and drops only whitespace before it. */
  lemma {:induction false} LStripSpec(s: string)
    ensures var r := LStrip(s);
      && r == s[|s| - |r|..]
      && (forall k :: 0 <= k < |s| - |r| ==> IsSpace(s[k]))
      && (r != [] ==> !IsSpace(r[0]))
  {
    if s != [] && IsSpace(s[0]) {
      var t := s[1..];
      LStripSpec(t);
      var r := LStrip(t);
      assert t[|t| - |r|..] == s[|s| - |r|..];
      forall k | 0 <= k < |s| - |r| ensures IsSpace(s[k]) {
        if k > 0 {
          assert s[k] == t[k - 1];
        }
      }
    }
  }

  /** `rstrip()` keeps a prefix and drops only whitespace after it. */
  lemma {:induction false} RStripSpec(s: string)
    ensures var r := RStrip(s);
      && r == s[..|r|]
      && (forall k :: |r| <= k < |s| ==> IsSpace(s[k]))
      && (r != [] ==> !IsSpace(r[|r| - 1]))
  {
    if s != [] && IsSpace(s[|s| - 1]) {
      var t := s[..|s| - 1];
      RStripSpec(t);
      var r := RStrip(t);
      assert t[..|r|] == s[..|r|];
      forall k | |r| <= k < |s| ensures IsSpace(s[k]) {
        if k < |s| - 1 {
          assert s[k] == t[k];
        }
      }
    }
  }

  /** `s.strip()`: the infix of `s` left once the whitespace at both ends
      is gone. */
  function Strip(s: string): (r: string)
    ensures r != [] ==> !IsSpace(r[0]) && !IsSpace(r[|r| - 1])
  {
    LStripSpec(s);
    RStripSpec(LStrip(s));
    StripEnds(LStrip(s), RStrip(LStrip(s)));
    RStrip(LStrip(s))
  }

  lemma StripEnds(l: string, r: string)
    requires |r| <= |l| && r == l[..|r|] && (l != [] ==> !IsSpace(l[0]))
    requires r != [] ==> !IsSpace(r[|r| - 1])
    ensures r != [] ==> !IsSpace(r[0]) && !IsSpace(r[|r| - 1])
  {
    if r != [] {
      assert r[0] == l[0];
    }
  }

  /** `strip()` keeps an infix and removes only whitespace around it. */
  lemma StripInfix(s: string)
    ensures var r, i := Strip(s), |s| - |LStrip(s)|;
      && 0 <= i <= |s| - |r| && r == s[i..i + |r|]
      && (forall k :: 0 <= k < i ==> IsSpace(s[k]))
      && (forall k :: i + |r| <= k < |s| ==> IsSpace(s[k]))
  {
    LStripSpec(s);
    RStripSpec(LStrip(s));
    InfixOf(s, LStrip(s), Strip(s));
  }

  /** Peeling whitespace off the front, then off the back, leaves an infix. */
  lemma InfixOf(s: string, l: string, r: string)
    requires |l| <= |s| && l == s[|s| - |l|..]
    requires forall k :: 0 <= k < |s| - |l| ==> IsSpace(s[k])
    requires |r| <= |l| && r == l[..|r|]
    requires forall k :: |r| <= k < |l| ==> IsSpace(l[k])
    ensures var i := |s| - |l|;
      && 0 <= i <= |s| - |r| && r == s[i..i + |r|]
      && (forall k :: 0 <= k < i ==> IsSpace(s[k]))
      && (forall k :: i + |r| <= k < |s| ==> IsSpace(s[k]))
  {
    var i := |s| - |l|;
    SliceOfSlice(s, l, r, i);
    TrailingSpace(s, l, r, i);
  }

  lemma SliceOfSlice(s: string, l: string, r: string, i: int)
    requires 0 <= i <= |s| && l == s[i..] && |r| <= |l| && r == l[..|r|]
    ensures r == s[i..i + |r|]
  {
  }

  lemma TrailingSpace(s: string, l: string, r: string, i: int)
    requires 0 <= i <= |s| && l == s[i..] && |r| <= |l|
    requires forall k :: |r| <= k < |l| ==> IsSpace(l[k])
    ensures forall k :: i + |r| <= k < |s| ==> IsSpace(s[k])
  {
    forall k | i + |r| <= k < |s| ensures IsSpace(s[k]) {
      assert s[k] == l[k - i];
    }
  }

  /** A string without whitespace at its ends is its own `strip()`. */
  lemma StripTrimmed(s: string)
    requires s != [] ==> !IsSpace(s[0]) && !IsSpace(s[|s| - 1])
    ensures Strip(s) == s
  {
  }

  /** `strip()` is idempotent. */
  lemma StripIdempotent(s: string)
    ensures Strip(Strip(s)) == Strip(s)
  {
    StripTrimmed(Strip(s));
  }

  // ---------------------------------------------------------------- split

  /** `s.split(sep)` with an explicit one-character separator: the pieces
      between separators, empty ones included; never an empty list. */
  function Split(s: string, sep: char): (r: seq<string>)
    ensures |r| >= 1
    decreases |s|
  {
    var i := Find(s, sep, sep);
    if i == |s| then [s] else [s[..i]] + Split(s[i + 1..], sep)
  }

  /** `sep.join(parts)` */
  function Join(parts: seq<string>, sep: char): string
    requires |parts| >= 1
  {
    if |parts| == 1 then parts[0] else parts[0] + [sep] + Join(parts[1..], sep)
  }

  /** Joining the pieces of a split gives back the string. */
  lemma {:induction false} SplitJoin(s: string, sep: char)
    ensures Join(Split(s, sep), sep) == s
    decreases |s|
  {
    var i := Find(s, sep, sep);
    if i < |s| {
      var tail := s[i + 1..];
      SplitJoin(tail, sep);
      SplitAt(s, sep, i);
      JoinCons(s[..i], Split(tail, sep), sep);
      Reassemble(s, i);
    }
  }

  /** No piece of a split holds the separator. */
  lemma {:induction false} SplitPieces(s: string, sep: char)
    ensures forall k :: 0 <= k < |Split(s, sep)| ==> sep !in Split(s, sep)[k]
    decreases |s|
  {
    var i := Find(s, sep, sep);
    if i < |s| {
      var tail := s[i + 1..];
      SplitPieces(tail, sep);
      SplitAt(s, sep, i);
      PiecesCons(s[..i], Split(tail, sep), sep);
    }
  }

  /** Splitting a join of separator-free pieces gives back the pieces. */
  lemma {:induction false} JoinSplit(parts: seq<string>, sep: char)
    requires |parts| >= 1
    requires forall k :: 0 <= k < |parts| ==> sep !in parts[k]
    ensures Split(Join(parts, sep), sep) == parts
  {
    var p := parts[0];
    if |parts| == 1 {
      FindAbsent(p, sep);
    } else {
      JoinSplit(parts[1..], sep);
      JoinCons(p, parts[1..], sep);
      assert [p] + parts[1..] == parts;
      SplitAfter(p, Join(parts[1..], sep), sep);
    }
  }

  /** The first character of a join is that of the first piece. */
  lemma JoinFirst(parts: seq<string>, sep: char)
    requires |parts| >= 1 && parts[0] != []
    ensures Join(parts, sep) != [] && Join(parts, sep)[0] == parts[0][0]
  {
  }

  /** The last character of a join is that of the last piece. */
  lemma {:induction false} JoinLast(parts: seq<string>, sep: char)
    requires |parts| >= 1 && parts[|parts| - 1] != []
    ensures var j, last := Join(parts, sep), parts[|parts| - 1];
      j != [] && j[|j| - 1] == last[|last| - 1]
  {
    if |parts| > 1 {
      JoinLast(parts[1..], sep);
    }
  }

  lemma JoinCons(p: string, rest: seq<string>, sep: char)
    requires |rest| >= 1
    ensures Join([p] + rest, sep) == p + [sep] + Join(rest, sep)
  {
    var q := [p] + rest;
    assert q[0] == p && q[1..] == rest;
  }

  lemma SplitAt(s: string, sep: char, i: nat)
    requires i == Find(s, sep, sep) < |s|
    ensures Split(s, sep) == [s[..i]] + Split(s[i + 1..], sep)
  {
  }

  lemma Reassemble(s: string, i: int)
    requires 0 <= i < |s|
    ensures s == s[..i] + [s[i]] + s[i + 1..]
  {
  }

  lemma PiecesCons(p: string, rest: seq<string>, sep: char)
    requires sep !in p && forall k :: 0 <= k < |rest| ==> sep !in rest[k]
    ensures forall k :: 0 <= k < |[p] + rest| ==> sep !in ([p] + rest)[k]
  {
    var q := [p] + rest;
    forall k | 0 <= k < |q| ensures sep !in q[k] {
      if k > 0 {
        assert q[k] == rest[k - 1];
      }
    }
  }

  /** A separator-free piece followed by the separator splits off first. */
  lemma SplitAfter(p: string, rest: string, sep: char)
    requires sep !in p
    ensures Split(p + [sep] + rest, sep) == [p] + Split(rest, sep)
  {
    var s := p + [sep] + rest;
    assert s == p + ([sep] + rest);
    FindPrefix(p, [sep] + rest, sep);
    assert s[..|p|] == p;
    assert s[|p| + 1..] == rest;
  }

  lemma FindAbsent(p: string, sep: char)
    requires sep !in p
    ensures Find(p, sep, sep) == |p|
  {
  }

  lemma {:induction false} FindPrefix(p: string, rest: string, sep: char)
    requires sep !in p && rest != [] && rest[0] == sep
    ensures Find(p + rest, sep, sep) == |p|
  {
    if p != [] {
      FindPrefix(p[1..], rest, sep);
      assert (p + rest)[1..] == p[1..] + rest;
    }
  }

  // ---------------------------------------------------------------- case

  /** `str.upper()` on ASCII letters. */
  function UpperChar(c: char): (r: char)
    ensures 'a' <= c <= 'z' ==> r as int == c as int - 32
    ensures !('a' <= c <= 'z') ==> r == c
  {
    if 'a' <= c <= 'z' then (c as int - 32) as char else c
  }

  /** `str.lower()` on ASCII letters. */
  function LowerChar(c: char): (r: char)
    ensures 'A' <= c <= 'Z' ==> r as int == c as int + 32
    ensures !('A' <= c <= 'Z') ==> r == c
  {
    if 'A' <= c <= 'Z' then (c as int + 32) as char else c
  }

  function Upper(s: string): (r: string)
    ensures |r| == |s| && forall i :: 0 <= i < |s| ==> r[i] == UpperChar(s[i])
  {
    seq(|s|, i requires 0 <= i < |s| => UpperChar(s[i]))
  }

  /** `s.lower() == word` for a lower-case ASCII `word`. */
  predicate IsWord(s: string, word: string) {
    |s| == |word| && forall i :: 0 <= i < |s| ==> LowerChar(s[i]) == word[i]
  }

  /** No ASCII lower-case letter. */
  predicate IsUpper(s: string) {
    forall i :: 0 <= i < |s| ==> !('a' <= s[i] <= 'z')
  }

  /** Upper-casing gives an upper-case string, and leaves an upper-case one
      as it is. */
  lemma UpperSpec(s: string)
    ensures IsUpper(Upper(s))
    ensures IsUpper(s) ==> Upper(s) == s
  {
  }

  /** `s.endswith(suffix)` */
  predicate EndsWith(s: string, suffix: string) {
    |suffix| <= |s| && s[|s| - |suffix|..] == suffix
  }

  /** `s.startswith(prefix)` */
  predicate StartsWith(s: string, prefix: string) {
    |prefix| <= |s| && s[..|prefix|] == prefix
  }

  // ---------------------------------------------------------------- numbers

  predicate IsDigit(c: char) { '0' <= c <= '9' }

  predicate AllDigits(s: string) {
    forall i :: 0 <= i < |s| ==> IsDigit(s[i])
  }

  /** The value of a string of decimal digits. */
  function DigitsValue(s: string): (r: nat)
    requires AllDigits(s)
  {
    if s == [] then 0
    else DigitsValue(s[..|s| - 1]) * 10 + (s[|s| - 1] as int - '0' as int)
  }

  /** `str(n)` for `n >= 0`. */
  function NatToString(n: nat): (r: string)
    ensures r != [] && AllDigits(r) && DigitsValue(r) == n
  {
    var d := ['0' + (n % 10) as char];
    if n < 10 then d
    else
      var r := NatToString(n / 10) + d;
      assert r[..|r| - 1] == NatToString(n / 10);
      r
  }

  /** `str(n)` */
  function IntToString(n: int): (r: string)
    ensures r != [] && r[|r| - 1] != '-' && !IsSpace(r[0]) && !IsSpace(r[|r| - 1])
  {
    if n < 0 then "-" + NatToString(-n) else NatToString(n)
  }

  /** `str(n)` is made of digits and a minus sign. */
  lemma IntToStringChars(n: int)
    ensures forall c :: c in IntToString(n) ==> IsDigit(c) || c == '-'
  {
    var d := NatToString(if n < 0 then -n else n);
    assert forall c :: c in d ==> IsDigit(c);
  }

  /** `str(n)` holds no character other than digits and `-`. */
  lemma IntToStringLacks(n: int, c: char)
    requires !IsDigit(c) && c != '-'
    ensures c !in IntToString(n)
  {
    IntToStringChars(n);
  }

  /** An optional sign followed by at least one digit, with no whitespace. */
  function SignedDigits(t: string): (r: Option<int>)
    ensures r.Some? ==> t != []
  {
    var neg := t != [] && t[0] == '-';
    var body := if t != [] && (t[0] == '-' || t[0] == '+') then t[1..] else t;
    if body != [] && AllDigits(body) then
      var v: int := DigitsValue(body);
      Some(if neg then -v else v)
    else None
  }

  /** `int(s)`: surrounding whitespace, an optional sign and at least one
      digit; `None` where Python raises `ValueError`. */
  function ParseInt(s: string): Option<int> {
    SignedDigits(Strip(s))
  }

  /** `int(str(n)) == n`. */
  lemma ParseIntToString(n: int)
    ensures ParseInt(IntToString(n)) == Some(n)
  {
    var t := IntToString(n);
    StripTrimmed(t);
    if n < 0 {
      assert t[1..] == NatToString(-n);
    } else {
      assert t[0] != '-' && t[0] != '+';
    }
  }

  /** A string `int` accepts holds a digit and nothing but a sign, digits
      and surrounding whitespace. */
  lemma ParseIntShape(s: string)
    requires ParseInt(s).Some?
    ensures exists i :: 0 <= i < |Strip(s)| && IsDigit(Strip(s)[i])
    ensures forall i :: 0 <= i < |Strip(s)| ==>
      IsDigit(Strip(s)[i]) || (i == 0 && Strip(s)[i] in {'+', '-'})
  {
    var t := Strip(s);
    if t[0] == '-' || t[0] == '+' {
      assert IsDigit(t[1..][0]) && IsDigit(t[1]);
      forall i | 1 <= i < |t| ensures IsDigit(t[i]) {
        assert t[i] == t[1..][i - 1];
      }
    } else {
      assert IsDigit(t[0]);
    }
  }

  /** Python floats as `float(s)` produces them. */
  datatype PyFloat = Finite(value: real) | Infinity(negative: bool) | NaN

  function Pow10(e: nat): (r: real)
    ensures r >= 1.0
  {
    if e == 0 then 1.0 else 10.0 * Pow10(e - 1)
  }

  /** `10 ** e` for any integer exponent. */
  function Scale(e: int): (r: real)
    ensures r > 0.0
  {
    if e >= 0 then Pow10(e) else 1.0 / Pow10(-e)
  }

  /** The first index of `a` or `b` in `s`, or `|s|`. */
  function Find(s: string, a: char, b: char): (r: nat)
    ensures r <= |s| && (r < |s| ==> s[r] == a || s[r] == b)
    ensures forall i :: 0 <= i < r ==> s[i] != a && s[i] != b
  {
    if s == [] || s[0] == a || s[0] == b then 0
    else 1 + Find(s[1..], a, b)
  }

  /** Digits with at most one `.`, at least one digit in all: `12`, `1.5`,
      `.5`, `5.`. */
  function Mantissa(m: string): Option<real> {
    var p := Find(m, '.', '.');
    var whole, frac := m[..p], if p < |m| then m[p + 1..] else [];
    if (whole == [] && frac == []) || !AllDigits(whole) || !AllDigits(frac) then None
    else Some(DigitsValue(whole) as real + DigitsValue(frac) as real / Pow10(|frac|))
  }

  /** A decimal literal without sign: a mantissa and an optional exponent
      `e`/`E`, optional sign, digits. */
  function Decimal(t: string): Option<real> {
    var e := Find(t, 'e', 'E');
    var m := Mantissa(t[..e]);
    if m.None? then None
    else if e == |t| then m
    else
      var x := t[e + 1..];
      var body := if x != [] && (x[0] == '-' || x[0] == '+') then x[1..] else x;
      if body == [] || !AllDigits(body) then None
      else
        var v: int := DigitsValue(body);
        Some(m.value * Scale(if x[0] == '-' then -v else v))
  }

  /** `float(s)`: surrounding whitespace and an optional sign around a
      decimal literal, `inf`, `infinity` or `nan` in any case; `None` where
      Python raises `ValueError`. */
  function ParseFloat(s: string): Option<PyFloat> {
    SignedFloat(Strip(s))
  }

  /** An optional sign followed by a decimal literal or one of the words. */
  function SignedFloat(t: string): (r: Option<PyFloat>)
    ensures r.Some? ==> t != []
  {
    var neg := t != [] && t[0] == '-';
    var body := if t != [] && (t[0] == '-' || t[0] == '+') then t[1..] else t;
    if IsWord(body, "inf") || IsWord(body, "infinity") then Some(Infinity(neg))
    else if IsWord(body, "nan") then Some(NaN)
    else
      var d := Decimal(body);
      if d.None? then None else Some(Finite(if neg then -d.value else d.value))
  }

  /** `float(str(n)) == n` for an integer `n`. */
  lemma ParseFloatToString(n: int)
    ensures ParseFloat(IntToString(n)) == Some(Finite(n as real))
  {
    if n < 0 {
      ParseFloatDigits(NatToString(-n), true);
    } else {
      ParseFloatDigits(NatToString(n), false);
    }
  }

  /** `float` of an optionally negated digit string is its value. */
  lemma ParseFloatDigits(body: string, neg: bool)
    requires body != [] && AllDigits(body)
    ensures var v := DigitsValue(body) as real;
      ParseFloat(if neg then "-" + body else body) == Some(Finite(if neg then -v else v))
  {
    if neg {
      NegativeDigits("-" + body, body);
      StripTrimmed("-" + body);
    } else {
      PositiveDigits(body);
      StripTrimmed(body);
    }
  }

  lemma PositiveDigits(body: string)
    requires body != [] && AllDigits(body)
    ensures SignedFloat(body) == Some(Finite(DigitsValue(body) as real))
  {
    assert body[0] != '-' && body[0] != '+';
    DigitsNotWord(body);
    DigitsDecimal(body);
  }

  lemma NegativeDigits(t: string, body: string)
    requires t == "-" + body && body != [] && AllDigits(body)
    ensures SignedFloat(t) == Some(Finite(-(DigitsValue(body) as real)))
  {
    var v := DigitsValue(body) as real;
    assert PlainDecimal(body, v) by {
      DigitsNotWord(body);
      DigitsDecimal(body);
    }
    SignedNegative(t, body, v);
  }

  /** `s` is a decimal literal of value `v` and not one of the words. */
  predicate PlainDecimal(s: string, v: real) {
    !IsWord(s, "inf") && !IsWord(s, "infinity") && !IsWord(s, "nan") && Decimal(s) == Some(v)
  }

  /** A leading `-` negates a decimal literal that is not one of the words. */
  lemma SignedNegative(t: string, body: string, v: real)
    requires t == "-" + body
    requires PlainDecimal(body, v)
    ensures SignedFloat(t) == Some(Finite(-v))
  {
    assert t != [] && t[0] == '-' && t[1..] == body;
  }

  /** A digit string is none of the words `inf`, `infinity`, `nan`. */
  lemma DigitsNotWord(s: string)
    requires s != [] && AllDigits(s)
    ensures !IsWord(s, "inf") && !IsWord(s, "infinity") && !IsWord(s, "nan")
  {
    assert LowerChar(s[0]) == s[0];
  }

  /** A digit string is a decimal literal of its own value. */
  lemma DigitsDecimal(s: string)
    requires s != [] && AllDigits(s)
    ensures Decimal(s) == Some(DigitsValue(s) as real)
  {
    DigitsFind(s, 'e', 'E');
    assert s[..|s|] == s;
    DigitsMantissa(s);
  }

  lemma DigitsMantissa(s: string)
    requires s != [] && AllDigits(s)
    ensures Mantissa(s) == Some(DigitsValue(s) as real)
  {
    DigitsFind(s, '.', '.');
    assert s[..|s|] == s;
    assert DigitsValue([]) == 0;
  }

  lemma DigitsFind(s: string, a: char, b: char)
    requires !IsDigit(a) && !IsDigit(b) && AllDigits(s)
    ensures Find(s, a, b) == |s|
  {
  }
}
