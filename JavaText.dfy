/**
 * The parts of java.lang.String and java.lang.Integer that the services rely on:
 * trim(), isEmpty(), split() with a one-character delimiter, ASCII case mapping,
 * Integer.parseInt, Double.parseDouble on decimal text and the (int) narrowing of a long.
 */
module JavaText {
  import opened Wrappers

  const MinInt32: int := -0x8000_0000
  const MaxInt32: int := 0x7fff_ffff

  // ---------------------------------------------------------------- trim

  /** The characters String.trim() strips from both ends: every code point up to U+0020. */
  predicate IsTrimmable(c: char) { c <= ' ' }

  /** String.trim(): s without its leading and trailing trimmable characters. */
  function Trim(s: string): (r: string)
    ensures |r| <= |s|
    decreases |s|
  {
    if s == [] then []
    else if IsTrimmable(s[0]) then Trim(s[1..])
    else if IsTrimmable(s[|s| - 1]) then Trim(s[..|s| - 1])
    else s
  }

  /** `s.trim().isEmpty()`. */
  predicate IsBlank(s: string) { Trim(s) == [] }

  /** A string is blank exactly when it holds nothing but trimmable characters. */
  lemma {:induction false} BlankIff(s: string)
    ensures IsBlank(s) <==> forall k :: 0 <= k < |s| ==> IsTrimmable(s[k])
    decreases |s|
  {
    if s == [] {
    } else if IsTrimmable(s[0]) {
      BlankIff(s[1..]);
      assert forall k :: 1 <= k < |s| ==> s[k] == s[1..][k - 1];
    } else if IsTrimmable(s[|s| - 1]) {
      BlankIff(s[..|s| - 1]);
      assert s[..|s| - 1][0] == s[0];
    }
  }

  /** The trimmed text is empty or neither starts nor ends with a trimmable character. */
  lemma {:induction false} TrimEnds(s: string)
    ensures Trim(s) == [] || (!IsTrimmable(Trim(s)[0]) && !IsTrimmable(Trim(s)[|Trim(s)| - 1]))
    decreases |s|
  {
    if s != [] {
      if IsTrimmable(s[0]) {
        TrimEnds(s[1..]);
      } else if IsTrimmable(s[|s| - 1]) {
        TrimEnds(s[..|s| - 1]);
      }
    }
  }

  /** Trimming twice changes nothing more than trimming once. */
  lemma TrimIdempotent(s: string)
    ensures Trim(Trim(s)) == Trim(s)
  {
    TrimEnds(s);
  }

  /** Trimming removes exactly the padding around a text that neither starts nor ends with padding. */
  lemma {:induction false} TrimPadded(a: string, t: string, b: string)
    requires forall k :: 0 <= k < |a| ==> IsTrimmable(a[k])
    requires forall k :: 0 <= k < |b| ==> IsTrimmable(b[k])
    requires t != [] && !IsTrimmable(t[0]) && !IsTrimmable(t[|t| - 1])
    ensures Trim(a + t + b) == t
    decreases |a| + |b|
  {
    if a != [] {
      assert (a + t + b)[0] == a[0];
      assert (a + t + b)[1..] == a[1..] + t + b;
      TrimPadded(a[1..], t, b);
    } else if b != [] {
      assert a + t + b == t + b;
      assert (t + b)[|t + b| - 1] == b[|b| - 1];
      assert (t + b)[..|t + b| - 1] == [] + t + b[..|b| - 1];
      TrimPadded([], t, b[..|b| - 1]);
    } else {
      assert a + t + b == t;
    }
  }

  // ---------------------------------------------------------------- case

  /** Character.toLowerCase restricted to ASCII letters. */
  function LowerChar(c: char): char
  {
    if 'A' <= c <= 'Z' then (c as int - 'A' as int + 'a' as int) as char else c
  }

  /** String.toLowerCase restricted to ASCII letters. */
  function ToLower(s: string): string
  {
    seq(|s|, k requires 0 <= k < |s| => LowerChar(s[k]))
  }

  /** String.equalsIgnoreCase on ASCII text. */
  predicate EqualsIgnoreCase(a: string, b: string)
  {
    |a| == |b| && forall k :: 0 <= k < |a| ==> LowerChar(a[k]) == LowerChar(b[k])
  }

  // ---------------------------------------------------------------- split

  /**
   * Every piece of s between occurrences of the delimiter d, empty ones included:
   * what String.split(d) computes before it drops trailing empty strings.
   */
  function Pieces(s: string, d: char): (r: seq<string>)
    ensures |r| >= 1
  {
    if s == [] then [[]]
    else
      var rest := Pieces(s[1..], d);
      if s[0] == d then [[]] + rest else [[s[0]] + rest[0]] + rest[1..]
  }

  /** No piece contains the delimiter. */
  lemma {:induction false} PiecesAvoidDelimiter(s: string, d: char)
    ensures forall k :: 0 <= k < |Pieces(s, d)| ==> d !in Pieces(s, d)[k]
  {
    if s != [] {
      PiecesAvoidDelimiter(s[1..], d);
      var rest := Pieces(s[1..], d);
      if s[0] != d {
        assert d !in [s[0]] + rest[0];
      }
    }
  }

  /** The pieces glued back together with the delimiter between neighbours. */
  function Join(p: seq<string>, d: char): string
    requires |p| >= 1
  {
    if |p| == 1 then p[0] else p[0] + [d] + Join(p[1..], d)
  }

  /** A delimiter in front starts an empty first piece. */
  lemma PiecesConsDelimiter(s: string, d: char)
    ensures Pieces([d] + s, d) == [[]] + Pieces(s, d)
  {
    assert ([d] + s)[1..] == s;
  }

  /** Any other character in front joins the first piece. */
  lemma PiecesConsOther(c: char, s: string, d: char)
    requires c != d
    ensures Pieces([c] + s, d) == [[c] + Pieces(s, d)[0]] + Pieces(s, d)[1..]
  {
    assert ([c] + s)[1..] == s;
  }

  /** Growing the first piece by one character grows the joined string in front. */
  lemma JoinGrowFirst(c: char, p: seq<string>, d: char)
    requires |p| >= 1
    ensures Join([[c] + p[0]] + p[1..], d) == [c] + Join(p, d)
  {
    var q := [[c] + p[0]] + p[1..];
    if |p| > 1 {
      assert q[1..] == p[1..];
      assert Join(q, d) == ([c] + p[0]) + [d] + Join(p[1..], d);
    }
  }

  /** Splitting and joining on the same delimiter gives the original string back. */
  lemma {:induction false} JoinPieces(s: string, d: char)
    ensures Join(Pieces(s, d), d) == s
  {
    if s != [] {
      var rest := Pieces(s[1..], d);
      JoinPieces(s[1..], d);
      assert [s[0]] + s[1..] == s;
      if s[0] == d {
        PiecesConsDelimiter(s[1..], d);
        assert ([[]] + rest)[1..] == rest;
      } else {
        PiecesConsOther(s[0], s[1..], d);
        JoinGrowFirst(s[0], rest, d);
      }
    }
  }

  /** A string without the delimiter is a single piece. */
  lemma PiecesWithoutDelimiter(s: string, d: char)
    requires d !in s
    ensures Pieces(s, d) == [s]
  {
    if s != [] {
      PiecesWithoutDelimiter(s[1..], d);
      assert [s[0]] + s[1..] == s;
    }
  }

  /** p without its trailing empty strings. */
  function DropTrailingEmpty(p: seq<string>): (r: seq<string>)
    ensures |r| <= |p|
  {
    if p != [] && p[|p| - 1] == [] then DropTrailingEmpty(p[..|p| - 1]) else p
  }

  /** What is dropped is a run of empty strings at the end, and what is kept does not end in one. */
  lemma {:induction false} DropTrailingEmptySpec(p: seq<string>)
    ensures var r := DropTrailingEmpty(p);
            |r| <= |p| && r == p[..|r|] && (r == [] || r[|r| - 1] != []) &&
            forall k :: |r| <= k < |p| ==> p[k] == []
  {
    if p != [] && p[|p| - 1] == [] {
      DropTrailingEmptySpec(p[..|p| - 1]);
    }
  }

  /**
   * String.split with a one-character, non-regex delimiter and no limit: the whole
   * string when the delimiter does not occur, otherwise the pieces with the trailing
   * empty ones dropped (so "a,b,,," gives two fields and "" gives one).
   */
  function JavaSplit(s: string, d: char): (r: seq<string>)
    ensures 1 <= |Pieces(s, d)| && |r| <= |Pieces(s, d)|
  {
    if d !in s then [s] else DropTrailingEmpty(Pieces(s, d))
  }

  /**
   * The fields split returns are the leading pieces, none containing the delimiter;
   * every piece after them is empty.
   */
  lemma JavaSplitPieces(s: string, d: char)
    ensures |JavaSplit(s, d)| <= |Pieces(s, d)|
    ensures JavaSplit(s, d) == Pieces(s, d)[..|JavaSplit(s, d)|]
    ensures forall k :: |JavaSplit(s, d)| <= k < |Pieces(s, d)| ==> Pieces(s, d)[k] == []
    ensures forall k :: 0 <= k < |JavaSplit(s, d)| ==> d !in JavaSplit(s, d)[k]
  {
    PiecesAvoidDelimiter(s, d);
    DropTrailingEmptySpec(Pieces(s, d));
    if d !in s {
      PiecesWithoutDelimiter(s, d);
    }
  }

  /** No field split returns contains the delimiter. */
  lemma JavaSplitAvoidsDelimiter(s: string, d: char)
    ensures forall k :: 0 <= k < |JavaSplit(s, d)| ==> d !in JavaSplit(s, d)[k]
  {
    JavaSplitPieces(s, d);
  }

  /** `m` copies of character c. */
  function Chars(c: char, m: nat): string
  {
    seq(m, _ => c)
  }

  /** Joining pieces followed by m empty pieces appends m delimiters. */
  lemma {:induction false} JoinTrailingEmpty(q: seq<string>, m: nat, d: char)
    requires |q| >= 1
    ensures Join(q + seq(m, _ => []), d) == Join(q, d) + Chars(d, m)
    decreases |q| + m
  {
    var e: seq<string> := seq(m, _ => []);
    if |q| == 1 {
      if m > 0 {
        var e': seq<string> := seq(m - 1, _ => []);
        assert (q + e)[1..] == [[]] + e';
        JoinTrailingEmpty([[]], m - 1, d);
        assert Join([[]] + e', d) == Chars(d, m - 1);
        assert Join(q + e, d) == q[0] + [d] + Join([[]] + e', d);
      } else {
        assert q + e == q;
      }
    } else {
      assert (q + e)[1..] == q[1..] + e;
      JoinTrailingEmpty(q[1..], m, d);
    }
  }

  /**
   * What split throws away is only delimiters: joining the fields back and appending
   * the dropped trailing delimiters gives the original string.
   */
  lemma JavaSplitRoundTrip(s: string, d: char)
    ensures var r := JavaSplit(s, d);
            var p := Pieces(s, d);
            (r != [] ==> s == Join(r, d) + Chars(d, |p| - |r|)) &&
            (r == [] ==> s == Chars(d, |p| - 1))
  {
    var r := JavaSplit(s, d);
    var p := Pieces(s, d);
    JavaSplitPieces(s, d);
    JoinPieces(s, d);
    if r != [] {
      assert p == r + seq(|p| - |r|, _ => []);
      JoinTrailingEmpty(r, |p| - |r|, d);
    } else {
      assert p == [[]] + seq(|p| - 1, _ => []);
      JoinTrailingEmpty([[]], |p| - 1, d);
    }
  }

  /** "a,b,,,," shape: two fields and four trailing delimiters give six pieces. */
  lemma PiecesOfTrailingDelimiters(a: char, b: char, d: char)
    requires a != d && b != d
    ensures Pieces([a, d, b, d, d, d, d], d) == [[a], [b], [], [], [], []]
  {
    var e: string := [];
    PiecesConsDelimiter(e, d);
    assert [d] + e == [d];
    PiecesConsDelimiter([d], d);
    assert [d] + [d] == [d, d];
    PiecesConsDelimiter([d, d], d);
    assert [d] + [d, d] == [d, d, d];
    PiecesConsDelimiter([d, d, d], d);
    assert [d] + [d, d, d] == [d, d, d, d];
    PiecesConsOther(b, [d, d, d, d], d);
    assert [b] + [d, d, d, d] == [b, d, d, d, d] && [b] + e == [b];
    PiecesConsDelimiter([b, d, d, d, d], d);
    assert [d] + [b, d, d, d, d] == [d, b, d, d, d, d];
    PiecesConsOther(a, [d, b, d, d, d, d], d);
    assert [a] + [d, b, d, d, d, d] == [a, d, b, d, d, d, d] && [a] + e == [a];
  }

  /** Java's `split` drops trailing empty fields: `"a,b,,,,"` has two fields. */
  lemma SplitDropsTrailingEmptyFields(a: char, b: char, d: char)
    requires a != d && b != d
    ensures JavaSplit([a, d, b, d, d, d, d], d) == [[a], [b]]
  {
    var s := [a, d, b, d, d, d, d];
    PiecesOfTrailingDelimiters(a, b, d);
    assert s[1] == d;
    var p: seq<string> := [[a], [b], [], [], [], []];
    assert p[..5] == [[a], [b], [], [], []] && p[..4] == [[a], [b], [], []];
    assert p[..3] == [[a], [b], []] && p[..2] == [[a], [b]];
    assert p[..5][..4] == p[..4] && p[..4][..3] == p[..3] && p[..3][..2] == p[..2];
    assert DropTrailingEmpty(p[..2]) == [[a], [b]];
    assert DropTrailingEmpty(p[..3]) == [[a], [b]];
    assert DropTrailingEmpty(p[..4]) == [[a], [b]];
    assert DropTrailingEmpty(p[..5]) == [[a], [b]];
    assert DropTrailingEmpty(p) == [[a], [b]];
  }

  // ---------------------------------------------------------------- integers

  predicate IsDigit(c: char) { '0' <= c <= '9' }

  predicate AllDigits(s: string)
  {
    s == [] || (IsDigit(s[|s| - 1]) && AllDigits(s[..|s| - 1]))
  }

  /** A run of digits holds a digit at every position. */
  lemma {:induction false} AllDigitsIndex(s: string)
    ensures AllDigits(s) <==> forall k :: 0 <= k < |s| ==> IsDigit(s[k])
  {
    if s != [] {
      AllDigitsIndex(s[..|s| - 1]);
    }
  }

  /** The value of a run of decimal digits, most significant first. */
  function DigitsValue(ds: string): nat
    requires AllDigits(ds)
  {
    if ds == [] then 0 else 10 * DigitsValue(ds[..|ds| - 1]) + (ds[|ds| - 1] as int - '0' as int)
  }

  /** The shortest decimal digits of n (Integer.toString of a non-negative value). */
  function NatToDigits(n: nat): (ds: string)
    ensures |ds| >= 1 && AllDigits(ds)
  {
    if n < 10 then [('0' as int + n) as char]
    else NatToDigits(n / 10) + [('0' as int + n % 10) as char]
  }

  lemma {:induction false} DigitsRoundTrip(n: nat)
    ensures DigitsValue(NatToDigits(n)) == n
  {
    var ds := NatToDigits(n);
    if n >= 10 {
      DigitsRoundTrip(n / 10);
      assert ds[..|ds| - 1] == NatToDigits(n / 10);
    }
  }

  /** Integer.toString. */
  function IntToString(v: int): string
  {
    if v < 0 then "-" + NatToDigits(-v) else NatToDigits(v)
  }

  /**
   * Integer.parseInt(s, 10): an optional '+' or '-', then at least one digit, and a
   * value that fits in 32 bits; anything else is a NumberFormatException (None).
   */
  function ParseInt32(s: string): (r: Option<int>)
    ensures r.Some? ==> MinInt32 <= r.value <= MaxInt32
  {
    if s == [] then None
    else
      var signed := s[0] == '-' || s[0] == '+';
      var body := if signed then s[1..] else s;
      if body == [] || !AllDigits(body) then None
      else
        var v: int := if s[0] == '-' then -(DigitsValue(body) as int) else DigitsValue(body);
        if MinInt32 <= v <= MaxInt32 then Some(v) else None
  }

  /** A printed int is a '-' for a negative value, then digits; it ends in a digit. */
  lemma IntToStringShape(v: int)
    ensures var s := IntToString(v);
            |s| >= 1 && IsDigit(s[|s| - 1]) &&
            (v < 0 ==> s[0] == '-' && s[1..] == NatToDigits(-v)) &&
            (v >= 0 ==> IsDigit(s[0]) && s == NatToDigits(v))
  {
    var ds := NatToDigits(if v < 0 then -v else v);
    AllDigitsIndex(ds);
    if v < 0 {
      var s := IntToString(v);
      assert s[1..] == ds;
      assert s[|s| - 1] == ds[|ds| - 1];
    }
  }

  /** Every 32-bit value survives printing and parsing back. */
  lemma ParseIntRoundTrip(v: int)
    requires MinInt32 <= v <= MaxInt32
    ensures ParseInt32(IntToString(v)) == Some(v)
  {
    IntToStringShape(v);
    DigitsRoundTrip(if v < 0 then -v else v);
  }

  /** A value out of the 32-bit range is refused, however it is written. */
  lemma ParseIntRejectsOverflow(v: int)
    requires v < MinInt32 || v > MaxInt32
    ensures ParseInt32(IntToString(v)) == None
  {
    IntToStringShape(v);
    DigitsRoundTrip(if v < 0 then -v else v);
  }

  // ---------------------------------------------------------------- decimals

  function Pow10(e: nat): (p: nat)
    ensures p >= 1
  {
    if e == 0 then 1 else 10 * Pow10(e - 1)
  }

  /** x times ten to the power e, for a negative e too. */
  function Scale(x: real, e: int): real
  {
    if e >= 0 then x * Pow10(e) as real else x / Pow10(-e) as real
  }

  function DigitOf(c: char): nat
    requires IsDigit(c)
  {
    c as int - '0' as int
  }

  /**
   * Where a scan of decimal text stands in the grammar Double.parseDouble accepts:
   * [sign] digits [. digits] [(e|E) [sign] digits] [d|D|f|F], with at least one
   * mantissa digit on either side of the point.
   */
  datatype Phase = Start | AfterSign | Whole | Fraction | ExponentStart | ExponentSign | ExponentDigits | Suffix

  /**
   * A scan in progress: the phase, the sign, the mantissa digits read as one integer,
   * how many there are and how many follow the point, and the exponent read so far.
   */
  datatype NumberScan = NumberScan(phase: Phase, negative: bool, mantissa: nat, digits: nat,
                                   scale: nat, expNegative: bool, exponent: nat)

  const NumberStart := NumberScan(Start, false, 0, 0, 0, false, 0)

  predicate IsSuffix(c: char) { c == 'd' || c == 'D' || c == 'f' || c == 'F' }

  /** The scan after one more character, or None when that character cannot continue the number. */
  function ScanChar(st: NumberScan, c: char): Option<NumberScan>
  {
    match st.phase
    case Start | AfterSign | Whole =>
      if IsDigit(c) then Some(st.(phase := Whole, mantissa := 10 * st.mantissa + DigitOf(c), digits := st.digits + 1))
      else if st.phase == Start && (c == '-' || c == '+') then Some(st.(phase := AfterSign, negative := c == '-'))
      else if c == '.' then Some(st.(phase := Fraction))
      else if st.digits > 0 && (c == 'e' || c == 'E') then Some(st.(phase := ExponentStart))
      else if st.digits > 0 && IsSuffix(c) then Some(st.(phase := Suffix))
      else None
    case Fraction =>
      if IsDigit(c) then
        Some(st.(mantissa := 10 * st.mantissa + DigitOf(c), digits := st.digits + 1, scale := st.scale + 1))
      else if st.digits > 0 && (c == 'e' || c == 'E') then Some(st.(phase := ExponentStart))
      else if st.digits > 0 && IsSuffix(c) then Some(st.(phase := Suffix))
      else None
    case ExponentStart =>
      if IsDigit(c) then Some(st.(phase := ExponentDigits, exponent := DigitOf(c)))
      else if c == '-' || c == '+' then Some(st.(phase := ExponentSign, expNegative := c == '-'))
      else None
    case ExponentSign | ExponentDigits =>
      if IsDigit(c) then Some(st.(phase := ExponentDigits, exponent := 10 * st.exponent + DigitOf(c)))
      else if st.phase == ExponentDigits && IsSuffix(c) then Some(st.(phase := Suffix))
      else None
    case Suffix => None
  }

  /** The value of a finished scan; None when the text stopped short of a number. */
  function Finish(st: NumberScan): Option<real>
  {
    if st.digits == 0 || !(st.phase == Whole || st.phase == Fraction || st.phase == ExponentDigits || st.phase == Suffix) then None
    else
      var v := Scale(st.mantissa as real / Pow10(st.scale) as real,
                     if st.expNegative then -(st.exponent as int) else st.exponent);
      Some(if st.negative then -v else v)
  }

  /** The scan after reading s from st on, one character at a time; None when a character does not fit. */
  function ScanText(s: string, st: NumberScan): Option<NumberScan>
  {
    if s == [] then Some(st)
    else
      match ScanChar(st, s[0])
      case None => None
      case Some(next) => ScanText(s[1..], next)
  }

  /**
   * Double.parseDouble on decimal text (the caller has trimmed it); None stands for
   * the NumberFormatException Java throws on anything else.
   */
  function ParseDouble(s: string): Option<real>
  {
    match ScanText(s, NumberStart)
    case None => None
    case Some(st) => Finish(st)
  }

  /** The first digit of a run is worth its place value. */
  lemma {:induction false} DigitsValueFront(ds: string)
    requires ds != [] && AllDigits(ds)
    ensures AllDigits(ds[1..]) && IsDigit(ds[0])
    ensures DigitsValue(ds) == DigitOf(ds[0]) * Pow10(|ds| - 1) + DigitsValue(ds[1..])
  {
    AllDigitsIndex(ds);
    AllDigitsIndex(ds[1..]);
    if |ds| > 1 {
      var pre := ds[..|ds| - 1];
      DigitsValueFront(pre);
      assert ds[1..][..|ds| - 2] == pre[1..];
      var d0, p := DigitOf(ds[0]), Pow10(|pre| - 1);
      assert DigitsValue(ds) == 10 * (d0 * p + DigitsValue(pre[1..])) + DigitOf(ds[|ds| - 1]);
      assert 10 * (d0 * p) == d0 * (10 * p) by { TimesTen(d0, p); }
    }
  }

  /** Appending a digit to m and then shifting by p is shifting m by ten p and adding the digit's place. */
  lemma ShiftDigit(m: int, d: int, p: int)
    ensures (10 * m + d) * p == m * (10 * p) + d * p
  {
  }

  lemma TimesTen(a: int, b: int)
    ensures 10 * (a * b) == a * (10 * b)
  {
  }

  /** Scanning a run of digits in the integer part appends them to the mantissa. */
  lemma {:induction false} ScanDigits(ds: string, st: NumberScan)
    requires AllDigits(ds)
    requires st.phase == Start || st.phase == AfterSign || st.phase == Whole
    ensures ScanText(ds, st) ==
              Some(st.(phase := if ds == [] then st.phase else Whole,
                       mantissa := st.mantissa * Pow10(|ds|) + DigitsValue(ds),
                       digits := st.digits + |ds|))
  {
    if ds != [] {
      DigitsValueFront(ds);
      var d, rest := DigitOf(ds[0]), ds[1..];
      var next := st.(phase := Whole, mantissa := 10 * st.mantissa + d, digits := st.digits + 1);
      assert ScanChar(st, ds[0]) == Some(next);
      assert ScanText(ds, st) == ScanText(rest, next);
      ScanDigits(rest, next);
      var p := Pow10(|rest|);
      assert Pow10(|ds|) == 10 * p;
      ShiftDigit(st.mantissa, d, p);
      assert next.mantissa * p + DigitsValue(rest) == st.mantissa * Pow10(|ds|) + DigitsValue(ds);
      assert next.(phase := Whole, mantissa := next.mantissa * p + DigitsValue(rest), digits := next.digits + |rest|)
          == st.(phase := Whole, mantissa := st.mantissa * Pow10(|ds|) + DigitsValue(ds), digits := st.digits + |ds|);
    }
  }

  /** A scan that ended in the integer part is worth its mantissa, with its sign. */
  lemma FinishWhole(st: NumberScan)
    requires st.phase == Whole && st.digits > 0 && st.scale == 0 && !st.expNegative && st.exponent == 0
    ensures Finish(st) == Some(if st.negative then -(st.mantissa as real) else st.mantissa as real)
  {
    assert Pow10(0) == 1;
    assert Scale(st.mantissa as real / 1 as real, 0) == st.mantissa as real;
  }

  /** Scanning a printed whole number ends in the integer part with its sign and magnitude. */
  lemma ScanInteger(v: int)
    ensures var n := if v < 0 then -v else v;
            ScanText(IntToString(v), NumberStart) ==
              Some(NumberScan(Whole, v < 0, n, |NatToDigits(n)|, 0, false, 0))
  {
    var n: nat := if v < 0 then -v else v;
    var ds := NatToDigits(n);
    IntToStringShape(v);
    DigitsRoundTrip(n);
    var start := NumberScan(if v < 0 then AfterSign else Start, v < 0, 0, 0, 0, false, 0);
    ScanDigits(ds, start);
    if v < 0 {
      assert ScanChar(NumberStart, '-') == Some(start);
      assert IntToString(v)[1..] == ds;
    }
  }

  /** A printed whole number parses back to its value. */
  lemma ParseDoubleOfInteger(v: int)
    ensures ParseDouble(IntToString(v)) == Some(v as real)
  {
    var n: nat := if v < 0 then -v else v;
    ScanInteger(v);
    FinishWhole(NumberScan(Whole, v < 0, n, |NatToDigits(n)|, 0, false, 0));
  }

  /** A decimal point and a negative exponent, as Java reads them. */
  lemma ParseDoubleExample()
    ensures ParseDouble("3.2e-1") == Some(0.32)
  {
    var st := NumberScan(ExponentDigits, false, 32, 2, 1, true, 1);
    assert ScanText("1", NumberScan(ExponentSign, false, 32, 2, 1, true, 0)) == Some(st);
    assert ScanText("-1", NumberScan(ExponentStart, false, 32, 2, 1, false, 0)) == Some(st);
    assert ScanText("e-1", NumberScan(Fraction, false, 32, 2, 1, false, 0)) == Some(st);
    assert ScanText("2e-1", NumberScan(Fraction, false, 3, 1, 0, false, 0)) == Some(st);
    assert ScanText(".2e-1", NumberScan(Whole, false, 3, 1, 0, false, 0)) == Some(st);
    assert ScanText("3.2e-1", NumberStart) == Some(st);
    assert Finish(st) == Some(Scale(32.0 / 10.0, -1));
  }

  /** Two decimal points, a bare point and an exponent without digits are NumberFormatExceptions. */
  lemma ParseDoubleRejects()
    ensures ParseDouble("1.2.3") == None
    ensures ParseDouble(".") == None
    ensures ParseDouble("1e") == None
  {
  }

  /** The Java narrowing cast `(int) x` of a long: the 32-bit value congruent to x. */
  function WrapInt32(x: int): (r: int)
    ensures MinInt32 <= r <= MaxInt32
    ensures (x - r) % 0x1_0000_0000 == 0
    ensures MinInt32 <= x <= MaxInt32 ==> r == x
  {
    var m := x % 0x1_0000_0000;
    if m > MaxInt32 then m - 0x1_0000_0000 else m
  }
}
