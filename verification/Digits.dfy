/** Printing integers in a base and reading them back: digits are produced last first into a
    buffer, turned round in place, and read from the right with 32-bit arithmetic. */
module Digits {
  import opened Common

  const WORD := 0x1_0000_0000
  const HALF := 0x8000_0000

  // ---------------------------------------------------------------- 32-bit arithmetic

  /** The value a 32-bit signed integer keeps of x. */
  function Wrap32(x: int): (r: int)
    ensures -HALF <= r < HALF
    ensures r == x <==> -HALF <= x < HALF
  {
    var m := x % WORD;
    if m >= HALF then m - WORD else m
  }

  lemma WrapShift(x: int, q: int)
    ensures Wrap32(x + q * WORD) == Wrap32(x)
  {
    assert x + q * WORD == (x / WORD + q) * WORD + x % WORD;
    assert (x + q * WORD) % WORD == x % WORD;
  }

  function Lost(x: int): (q: int)
    ensures Wrap32(x) == x - q * WORD
  {
    if x % WORD >= HALF then x / WORD + 1 else x / WORD
  }

  /** Wrapping in between does not change what is kept in the end. */
  lemma WrapAdd(a: int, b: int)
    ensures Wrap32(Wrap32(a) + Wrap32(b)) == Wrap32(a + b)
  {
    WrapShift(a + b, -Lost(a) - Lost(b));
  }

  lemma WrapTimes(a: int, b: int)
    ensures Wrap32(Wrap32(a) * b) == Wrap32(a * b)
  {
    var q := Lost(a);
    calc {
      Wrap32(a) * b;
      (a - q * WORD) * b;
      a * b - (q * WORD) * b;
      { assert (q * WORD) * b == (q * b) * WORD; }
      a * b + (-(q * b)) * WORD;
    }
    WrapShift(a * b, -(q * b));
  }

  lemma Signed(v: int, m: int)
    requires m == 1 || m == -1
    ensures Wrap32(Wrap32(v) * m) == Wrap32(if m == 1 then v else -v)
  {
    WrapTimes(v, m);
  }

  // ---------------------------------------------------------------- characters

  /** The digit for a remainder: 0 to 9, then A to Z. */
  function DigitChar(d: nat): char
    requires d < 36
  {
    if d < 10 then d as char + '0' else (d + 55) as char
  }

  function LastDigit(v: nat, base: nat): char
    requires 2 <= base <= 36
  {
    DigitChar(v % base)
  }

  function Quotient(v: nat, base: nat): nat
    requires 2 <= base
  {
    v / base
  }

  function ToLower(c: char): char {
    if 'A' <= c <= 'Z' then (c as int + 32) as char else c
  }

  predicate IsDigit(c: char) {
    '0' <= c <= '9'
  }

  predicate IsHexLetter(c: char) {
    'a' <= ToLower(c) <= 'f'
  }

  /** hexCharToDec */
  function HexCharToDec(c: char): (r: int)
    ensures -1 <= r < 16
    ensures r >= 0 <==> IsDigit(c) || IsHexLetter(c)
  {
    var l := ToLower(c);
    if IsDigit(l) then l as int - 48 else if 'a' <= l <= 'f' then l as int - 97 + 10 else -1
  }

  lemma DigitReadsBack(d: nat)
    requires d < 16
    ensures HexCharToDec(DigitChar(d)) == d
    ensures IsDigit(DigitChar(d)) <==> d < 10
    ensures DigitChar(d) != '-' && DigitChar(d) != 'x'
  {
  }

  /** Letters read the same in either case, and everything but the sixteen digits is turned down. */
  lemma HexDigits(c: char)
    ensures forall d | 0 <= d < 10 :: c == "0123456789"[d] ==> HexCharToDec(c) == d
    ensures forall d | 0 <= d < 6 :: c == "abcdef"[d] || c == "ABCDEF"[d] ==> HexCharToDec(c) == 10 + d
    ensures c !in "0123456789abcdefABCDEF" ==> HexCharToDec(c) == -1
  {
    if '0' <= c <= '9' { assert "0123456789"[c as int - '0' as int] == c; }
    if 'a' <= c <= 'f' { assert "abcdef"[c as int - 'a' as int] == c; }
    if 'A' <= c <= 'F' { assert "ABCDEF"[c as int - 'A' as int] == c; }
  }

  // ---------------------------------------------------------------- numerals

  function Numeral(value: nat, base: nat): (s: string)
    requires 2 <= base <= 36
    ensures |s| >= 1
  {
    if value < base then [DigitChar(value)] else Numeral(value / base, base) + [LastDigit(value, base)]
  }

  function Reversed(s: string): (r: string)
    ensures |r| == |s|
  {
    if s == [] then [] else Reversed(s[1..]) + [s[0]]
  }

  function Power(base: nat, k: nat): nat {
    if k == 0 then 1 else base * Power(base, k - 1)
  }

  /** The number a string of digits stands for, most significant first. */
  function Value(s: string, base: nat): int {
    if s == [] then 0 else Value(s[..|s| - 1], base) * base + HexCharToDec(s[|s| - 1])
  }

  predicate Accepts(base: nat, c: char) {
    IsDigit(c) || (base == 16 && IsHexLetter(c))
  }

  /** The longest run of digits at the end of s. */
  function DigitTail(s: string, base: nat): string
  {
    if s == [] || !Accepts(base, s[|s| - 1]) then []
    else DigitTail(s[..|s| - 1], base) + [s[|s| - 1]]
  }

  predicate Negative(s: string) {
    s != [] && s[0] == '-'
  }

  function Unsigned(s: string): string {
    if Negative(s) then s[1..] else s
  }

  predicate HasPrefix(s: string) {
    |s| >= 2 && s[0] == '0' && s[1] == 'x'
  }

  /** What strToInt makes of a string: the digits at its end, in the base of its prefix, with its
      sign, as far as 32 bits hold it. */
  function Meaning(s: string): int {
    var u := Unsigned(s);
    var value := if HasPrefix(u) then Value(DigitTail(u[2..], 16), 16) else Value(DigitTail(u, 10), 10);
    Wrap32(if Negative(s) then -value else value)
  }

  // ---------------------------------------------------------------- round trips

  lemma {:induction false} NumeralValue(value: nat, base: nat)
    requires base == 10 || base == 16
    ensures Value(Numeral(value, base), base) == value
    ensures forall i | 0 <= i < |Numeral(value, base)| :: Accepts(base, Numeral(value, base)[i])
    ensures forall i | 0 <= i < |Numeral(value, base)| :: Numeral(value, base)[i] != '-' && Numeral(value, base)[i] != 'x'
    decreases value
  {
    DigitReadsBack(value % base);
    var s := Numeral(value, base);
    if value < base {
      assert s[..0] == [];
    } else {
      NumeralValue(value / base, base);
      assert s[..|s| - 1] == Numeral(value / base, base);
    }
  }

  function Positional(ds: seq<nat>, base: nat): nat {
    if ds == [] then 0 else Positional(ds[..|ds| - 1], base) * base + ds[|ds| - 1]
  }

  /** s writes the digits ds: figures, then capital letters. */
  predicate Writes(s: string, ds: seq<nat>, base: nat) {
    |ds| == |s| && forall i | 0 <= i < |ds| :: ds[i] < base && ds[i] < 36 && s[i] == "0123456789ABCDEFGHIJKLMNOPQRSTUVWXYZ"[ds[i]]
  }

  lemma WritesNext(s: string, ds: seq<nat>, base: nat, d: nat)
    requires Writes(s, ds, base) && d < base && d < 36
    ensures Writes(s + [DigitChar(d)], ds + [d], base) && Positional(ds + [d], base) == Positional(ds, base) * base + d
  {
    hide DigitChar;
    DigitIs(d);
    assert (ds + [d])[..|ds|] == ds;
  }

  /** In every base a numeral is the positional notation of its value, without leading zeros. */
  lemma {:induction false} PositionalNotation(value: nat, base: nat) returns (ds: seq<nat>)
    requires 2 <= base <= 36
    ensures Writes(Numeral(value, base), ds, base) && Positional(ds, base) == value
    ensures ds != [] && (ds[0] == 0 ==> |ds| == 1)
    decreases value
  {
    hide DigitChar, Writes, Positional, Numeral;
    Divided(value, base);
    Splits(value, base);
    if value < base {
      ds := [value];
      assert [] + [value] == ds && [] + [DigitChar(value)] == Numeral(value, base);
      NothingWritten(base);
      WritesNext([], [], base, value);
    } else {
      var front := PositionalNotation(value / base, base);
      ds := front + [value % base];
      WritesNext(Numeral(value / base, base), front, base, value % base);
      if ds[0] == 0 {
        NotZero(front, base);
      }
    }
  }

  lemma Splits(value: nat, base: nat)
    requires 2 <= base <= 36
    ensures value == value / base * base + value % base && value % base < base
    ensures Numeral(value, base)
            == if value < base then [DigitChar(value)] else Numeral(value / base, base) + [DigitChar(value % base)]
  {
  }

  lemma NothingWritten(base: nat)
    ensures Writes([], [], base) && Positional([], base) == 0
  {
  }

  /** A single zero is worth nothing. */
  lemma NotZero(ds: seq<nat>, base: nat)
    requires |ds| >= 1 && ds[0] == 0
    ensures |ds| == 1 ==> Positional(ds, base) == 0
  {
    if |ds| == 1 { assert ds[..0] == []; }
  }

  lemma DigitIs(d: nat)
    requires d < 36
    ensures DigitChar(d) == "0123456789ABCDEFGHIJKLMNOPQRSTUVWXYZ"[d]
  {
  }

  lemma {:induction false} AllDigits(s: string, base: nat)
    requires forall i | 0 <= i < |s| :: Accepts(base, s[i])
    ensures DigitTail(s, base) == s
  {
    if s != [] { AllDigits(s[..|s| - 1], base); }
  }

  /** What intToBase prints. */
  function Printed(value: int, base: nat): string
    requires 2 <= base <= 36
  {
    if value < 0 then "-" + Numeral(-value, base) else Numeral(value, base)
  }

  lemma DecimalMeaning(d: string)
    requires d != [] && (forall i | 0 <= i < |d| :: IsDigit(d[i]))
    ensures Meaning(d) == Wrap32(Value(d, 10)) && Meaning("-" + d) == Wrap32(-Value(d, 10))
  {
    hide Value, DigitTail, Wrap32;
    AllDigits(d, 10);
    assert !HasPrefix(d) && Unsigned(d) == d;
    var s := "-" + d;
    assert s[1..] == d;
    assert Unsigned(s) == d && d != s;
  }

  /** A printed decimal reads back exactly when 32 bits hold the number. */
  lemma DecimalRoundTrip(n: int)
    ensures Meaning(Printed(n, 10)) == Wrap32(n)
    ensures Meaning(Printed(n, 10)) == n <==> -HALF <= n < HALF
  {
    hide Value, HexCharToDec, Wrap32, Numeral, Meaning;
    var m := if n < 0 then -n else n;
    NumeralValue(m, 10);
    DecimalMeaning(Numeral(m, 10));
  }

  /** A hexadecimal after "0x" reads back exactly when 31 bits hold the number. */
  lemma HexRoundTrip(n: nat)
    ensures Meaning("0x" + Numeral(n, 16)) == Wrap32(n)
    ensures Meaning("0x" + Numeral(n, 16)) == n <==> n < HALF
  {
    hide Value, DigitTail, HexCharToDec, Wrap32, Numeral;
    NumeralValue(n, 16);
    AllDigits(Numeral(n, 16), 16);
    var s := "0x" + Numeral(n, 16);
    assert Unsigned(s) == s && HasPrefix(s);
    assert s[2..] == Numeral(n, 16);
  }

  // ---------------------------------------------------------------- reading from the right

  lemma {:induction false} ValueFront(c: char, t: string, base: nat)
    ensures Value([c] + t, base) == HexCharToDec(c) * Power(base, |t|) + Value(t, base)
    decreases |t|
  {
    hide HexCharToDec;
    if t == [] {
      assert [c] + t == [c] && [c][..0] == [];
    } else {
      var m := |t| - 1;
      var front, x := t[..m], t[m];
      ValueFront(c, front, base);
      var s := [c] + t;
      assert s[..|s| - 1] == [c] + front && s[|s| - 1] == x;
      Distribute(HexCharToDec(c), Power(base, m), Value(front, base), base);
    }
  }

  lemma Distribute(d: int, p: int, v: int, base: int)
    ensures (d * p + v) * base == d * (base * p) + v * base
  {
  }

  /** One more digit read, in 32 bits. */
  lemma OneMoreDigit(c: char, t: string, base: nat, n: int, k: int)
    requires n == Wrap32(Value(t, base)) && k == Wrap32(Power(base, |t|))
    ensures Wrap32(n + Wrap32(HexCharToDec(c) * k)) == Wrap32(Value([c] + t, base))
    ensures Wrap32(k * base) == Wrap32(Power(base, |[c] + t|))
  {
    hide Wrap32, Value, HexCharToDec;
    ValueFront(c, t, base);
    var d, p := HexCharToDec(c), Power(base, |t|);
    WrapTimes(p, d);
    assert d * k == k * d && d * p == p * d;
    WrapAdd(Value(t, base), d * p);
    WrapTimes(p, base);
    assert p * base == base * p;
  }

  lemma {:induction false} ReversedSnoc(s: string, c: char)
    ensures Reversed(s + [c]) == [c] + Reversed(s)
  {
    if s == [] {
      assert s + [c] == [c] && [c][1..] == [];
    } else {
      ReversedSnoc(s[1..], c);
      assert (s + [c])[1..] == s[1..] + [c];
    }
  }

  lemma {:induction false} ReversedAt(s: string, i: nat)
    requires i < |s|
    ensures Reversed(s)[i] == s[|s| - 1 - i]
  {
    if i < |s| - 1 { ReversedAt(s[1..], i); }
  }

  /** The loop of strToInt: the value of the digits at the end of s, not going before `start`. */
  method ReadDigits(s: string, start: nat, base: nat) returns (n: int)
    requires start <= |s|
    ensures n == Wrap32(Value(DigitTail(s[start..], base), base))
  {
    hide Value, DigitTail, HexCharToDec, Wrap32, Power, Accepts;
    var j, k := |s| - 1, 1;
    n := 0;
    ghost var t: string := [];
    NothingRead(base);
    while j >= start && Accepts(base, s[j])
      invariant start - 1 <= j < |s|
      invariant t == s[j + 1..]
      invariant forall i | 0 <= i < |t| :: Accepts(base, t[i])
      invariant n == Wrap32(Value(t, base)) && k == Wrap32(Power(base, |t|))
    {
      OneMoreDigit(s[j], t, base, n, k);
      n := Wrap32(n + Wrap32(HexCharToDec(s[j]) * k));
      t := [s[j]] + t;
      j := j - 1;
      k := Wrap32(k * base);
    }
    SuffixOfSuffix(s, start, j + 1);
    TailIs(s[start..], t, base);
  }

  lemma SuffixOfSuffix(s: string, i: nat, j: nat)
    requires i <= j <= |s|
    ensures s[i..][j - i..] == s[j..] && (i < j ==> s[i..][j - i - 1] == s[j - 1])
  {
  }

  /** strToInt */
  method StrToInt(s: string) returns (r: int)
    ensures r == Meaning(s)
  {
    hide Value, DigitTail, Wrap32, Accepts, Meaning;
    var base, multiplier, start := 10, 1, 0;
    if start < |s| && s[start] == '-' {
      multiplier := -1;
      start := start + 1;
    }
    ghost var first := start;
    if start + 1 < |s| && s[start] == '0' && s[start + 1] == 'x' {
      base := 16;
      start := start + 2;
    }
    var n := ReadDigits(s, start, base);
    MeaningFrom(s, first, base == 16, multiplier);
    r := Wrap32(n * multiplier);
  }

  lemma MeaningFrom(s: string, first: nat, prefix: bool, multiplier: int)
    requires first <= |s| && first == (if Negative(s) then 1 else 0)
    requires prefix <==> first + 1 < |s| && s[first] == '0' && s[first + 1] == 'x'
    requires multiplier == if Negative(s) then -1 else 1
    ensures var (start, base) := if prefix then (first + 2, 16) else (first, 10);
            Wrap32(Wrap32(Value(DigitTail(s[start..], base), base)) * multiplier) == Meaning(s)
  {
    hide Value, DigitTail, Wrap32, Accepts;
    BodyFrom(s, first, prefix);
    if prefix {
      Signed(Value(DigitTail(s[first + 2..], 16), 16), multiplier);
    } else {
      Signed(Value(DigitTail(s[first..], 10), 10), multiplier);
    }
  }

  lemma BodyFrom(s: string, first: nat, prefix: bool)
    requires first <= |s| && first == (if Negative(s) then 1 else 0)
    requires prefix <==> first + 1 < |s| && s[first] == '0' && s[first + 1] == 'x'
    ensures Unsigned(s) == s[first..] && (prefix <==> HasPrefix(s[first..]))
    ensures prefix ==> s[first..][2..] == s[first + 2..]
  {
  }

  /** What strToInt reads, piece by piece: a "-" or nothing, a "0x" or nothing, anything that ends in
      no digit, and the digits that count. */
  lemma MeaningOfPieces(negative: bool, hex: bool, junk: string, digits: string)
    requires var base := if hex then 16 else 10;
             && (forall i | 0 <= i < |digits| :: Accepts(base, digits[i]))
             && (junk != [] ==> !Accepts(base, junk[|junk| - 1]))
    requires negative || !Negative((if hex then "0x" else "") + (junk + digits))
    requires hex || !HasPrefix(junk + digits)
    ensures var s := (if negative then "-" else "") + ((if hex then "0x" else "") + (junk + digits));
            var value := Value(digits, if hex then 16 else 10);
            Meaning(s) == Wrap32(if negative then -value else value)
  {
    hide Value, DigitTail, Wrap32, Accepts, HasPrefix, Negative, Unsigned;
    var base, tail := if hex then 16 else 10, junk + digits;
    var u := (if hex then "0x" else "") + tail;
    SignSplit(negative, u);
    PrefixSplit(hex, tail);
    LastPiece(junk, digits, base);
  }

  lemma LastPiece(junk: string, digits: string, base: nat)
    requires forall i | 0 <= i < |digits| :: Accepts(base, digits[i])
    requires junk != [] ==> !Accepts(base, junk[|junk| - 1])
    ensures DigitTail(junk + digits, base) == digits
  {
    hide Accepts, DigitTail;
    var tail := junk + digits;
    assert tail[|tail| - |digits|..] == digits;
    TailIs(tail, digits, base);
  }

  lemma SignSplit(negative: bool, u: string)
    requires negative || !Negative(u)
    ensures var s := (if negative then "-" else "") + u; Unsigned(s) == u && (Negative(s) <==> negative)
  {
    assert "" + u == u;
  }

  lemma PrefixSplit(hex: bool, tail: string)
    requires hex || !HasPrefix(tail)
    ensures var u := (if hex then "0x" else "") + tail;
            (HasPrefix(u) <==> hex) && (if hex then u[2..] == tail else u == tail)
  {
    assert "" + tail == tail;
  }

  lemma NothingRead(base: nat)
    ensures Wrap32(Value([], base)) == 0 && Wrap32(Power(base, 0)) == 1
  {
  }

  lemma {:induction false} TailIs(s: string, t: string, base: nat)
    requires |t| <= |s| && s[|s| - |t|..] == t && (forall i | 0 <= i < |t| :: Accepts(base, t[i]))
    requires |t| < |s| ==> !Accepts(base, s[|s| - |t| - 1])
    ensures DigitTail(s, base) == t
    decreases |t|
  {
    if t != [] {
      var m := |t| - 1;
      assert s[|s| - 1] == t[m];
      TailIs(s[..|s| - 1], t[..m], base);
    }
  }

  // ---------------------------------------------------------------- printing

  /** `now` is `was` with `done` written over it from `at` on. */
  ghost predicate Filled(now: seq<char>, was: seq<char>, at: nat, done: string) {
    at + |done| <= |was| && now == was[..at] + done + was[at + |done|..]
  }

  lemma FillsNext(now: seq<char>, was: seq<char>, at: nat, done: string, c: char)
    requires Filled(now, was, at, done) && at + |done| < |was|
    ensures |now| == |was| && Filled(now[at + |done| := c], was, at, done + [c])
  {
    PutNext(was, at, done, c);
  }

  /** The first loop of uintToBase: the digits, last first. */
  method DigitsBackwards(value: nat, buffer: array<char>, at: nat, base: nat) returns (digits: nat)
    requires 2 <= base <= 36 && at + |Numeral(value, base)| < buffer.Length
    modifies buffer
    ensures digits == |Numeral(value, base)|
    ensures var done := buffer[at..at + digits];
            Reversed(done) == Numeral(value, base) && buffer[..] == old(buffer[..at]) + done + old(buffer[at + digits..])
  {
    hide Numeral, Reversed, Left, LastDigit, Quotient, Filled;
    ghost var was := buffer[..];
    digits := 0;
    var v: nat := value;
    ghost var done: string := [];
    LeftEnds(value, base, done);
    NothingFilled(was, at);
    while digits == 0 || v != 0
      invariant digits == |done| && at + digits < buffer.Length
      invariant Left(v, base, done, digits == 0 || v != 0) == Numeral(value, base)
      invariant Filled(buffer[..], was, at, done)
      decreases v, digits == 0
    {
      var c := LastDigit(v, base);
      LeftStep(v, base, done);
      FillsNext(buffer[..], was, at, done, c);
      buffer[at + digits] := c;
      done := done + [c];
      digits := digits + 1;
      v := Quotient(v, base);
    }
    LeftEnds(v, base, done);
    FilledIs(buffer[..], was, at, done);
    assert buffer[at..at + digits] == buffer[..][at..at + digits];
  }

  lemma NothingFilled(was: seq<char>, at: nat)
    requires at <= |was|
    ensures Filled(was, was, at, [])
  {
  }

  lemma FilledIs(now: seq<char>, was: seq<char>, at: nat, done: string)
    requires Filled(now, was, at, done)
    ensures at + |done| <= |was| == |now| && now[at..at + |done|] == done && now == was[..at] + done + was[at + |done|..]
  {
    Middle(was[..at], done, was[at + |done|..]);
  }

  lemma Middle(a: seq<char>, b: seq<char>, c: seq<char>)
    ensures (a + b + c)[|a|..|a| + |b|] == b
  {
  }

  /** uintToBase, writing from buffer[at] on. */
  method UintToBase(value: nat, buffer: array<char>, at: nat, base: nat) returns (digits: nat)
    requires 2 <= base <= 36 && at + |Numeral(value, base)| < buffer.Length
    modifies buffer
    ensures digits == |Numeral(value, base)|
    ensures buffer[..] == old(buffer[..at]) + Numeral(value, base) + ['\0'] + old(buffer[at + digits + 1..])
  {
    hide Numeral, Reversed;
    ghost var was := buffer[..];
    digits := DigitsBackwards(value, buffer, at, base);
    ghost var done := buffer[at..at + digits];
    PutNext(was, at, done, '\0');
    buffer[at + digits] := '\0';
    Terminated(buffer[..], was, at, done);
    ReverseInPlace(buffer, at, digits);
  }

  lemma Terminated(now: seq<char>, was: seq<char>, at: nat, done: string)
    requires at + |done| < |was| && now == was[..at] + (done + ['\0']) + was[at + |done| + 1..]
    ensures now[..at] == was[..at] && now[at..at + |done|] == done && now[at + |done|..] == ['\0'] + was[at + |done| + 1..]
    ensures forall r: string :: was[..at] + r + now[at + |done|..] == was[..at] + r + ['\0'] + was[at + |done| + 1..]
  {
  }

  /** The numeral still to be produced, followed by the digits produced so far. */
  function Left(v: nat, base: nat, done: string, more: bool): string
    requires 2 <= base <= 36
  {
    (if more then Numeral(v, base) else []) + Reversed(done)
  }

  lemma LeftEnds(v: nat, base: nat, done: string)
    requires 2 <= base <= 36
    ensures Left(v, base, [], true) == Numeral(v, base) && Left(v, base, done, false) == Reversed(done)
  {
  }

  lemma LeftStep(v: nat, base: nat, done: string)
    requires 2 <= base <= 36
    ensures var q := Quotient(v, base);
            && Left(q, base, done + [LastDigit(v, base)], q != 0) == Left(v, base, done, true)
            && |Left(v, base, done, true)| > |done| + Count(q != 0)
            && q <= v && (v != 0 ==> q < v)
  {
    hide Reversed, LastDigit;
    ReversedSnoc(done, LastDigit(v, base));
    Divided(v, base);
  }

  lemma Divided(v: nat, base: nat)
    requires 2 <= base <= 36
    ensures if v < base then Quotient(v, base) == 0 && LastDigit(v, base) == DigitChar(v)
            else 0 < Quotient(v, base) < v && Quotient(v, base) == v / base
  {
    hide DigitChar;
    QuotientBounds(v, base, v / base, v % base);
    if v < base { assert LastDigit(v, base) == DigitChar(v); }
  }

  lemma QuotientBounds(v: nat, base: nat, q: nat, r: nat)
    requires base >= 2 && r < base && v == base * q + r
    ensures if v < base then q == 0 && r == v else 0 < q < v
  {
    if q > 0 {
      assert base * q == 2 * q + (base - 2) * q;
      assert (base - 2) * q >= 0;
      assert base * q == base + base * (q - 1);
      assert base * (q - 1) >= 0;
    } else {
      assert base * q == 0;
    }
  }

  lemma PutNext(was: seq<char>, at: nat, done: string, c: char)
    requires at + |done| < |was|
    ensures (was[..at] + done + was[at + |done|..])[at + |done| := c] == was[..at] + (done + [c]) + was[at + |done| + 1..]
    ensures |was[..at] + done + was[at + |done|..]| == |was|
  {
  }

  /** The slice with the outer d characters on either side in each other's places. */
  function TurnedAt(was: seq<char>, at: nat, n: nat, d: nat, i: nat): char
    requires at + n <= |was| && i < |was|
  {
    if at <= i < at + n && (i < at + d || at + n - d <= i) then was[at + at + n - 1 - i] else was[i]
  }

  ghost predicate Turned(now: seq<char>, was: seq<char>, at: nat, n: nat, d: nat)
    requires at + n <= |was|
  {
    |now| == |was| && forall i | 0 <= i < |was| :: now[i] == TurnedAt(was, at, n, d, i)
  }

  lemma TurnsNext(now: seq<char>, was: seq<char>, at: nat, n: nat, d: nat)
    requires at + n <= |was| && Turned(now, was, at, n, d) && 2 * d + 1 < n
    ensures var p1, p2 := at + d, at + n - 1 - d;
            |now| == |was| && Turned(now[p1 := now[p2]][p2 := now[p1]], was, at, n, d + 1)
  {
    var p1, p2 := at + d, at + n - 1 - d;
    var next := now[p1 := now[p2]][p2 := now[p1]];
    forall i | 0 <= i < |was|
      ensures next[i] == TurnedAt(was, at, n, d + 1, i)
    {
      assert now[i] == TurnedAt(was, at, n, d, i);
    }
  }

  lemma TurnedAll(now: seq<char>, was: seq<char>, at: nat, n: nat, d: nat)
    requires at + n <= |was| && Turned(now, was, at, n, d) && n <= 2 * d + 1 && d <= n
    ensures now == was[..at] + Reversed(was[at..at + n]) + was[at + n..]
  {
    hide Reversed;
    var r := Reversed(was[at..at + n]);
    forall i | 0 <= i < |was|
      ensures now[i] == (was[..at] + r + was[at + n..])[i]
    {
      assert now[i] == TurnedAt(was, at, n, d, i);
      if at <= i < at + n { ReversedAt(was[at..at + n], i - at); }
    }
  }

  /** The loop that turns the digits round. */
  method ReverseInPlace(buffer: array<char>, at: nat, n: nat)
    requires at + n <= buffer.Length
    modifies buffer
    ensures buffer[..] == old(buffer[..at]) + Reversed(old(buffer[at..at + n])) + old(buffer[at + n..])
  {
    hide Reversed, Turned;
    ghost var was := buffer[..];
    var p1, p2 := at, at + n - 1;
    NothingTurned(was, at, n);
    while p1 < p2
      invariant at <= p1 <= p2 + 2 && p1 + p2 == at + at + n - 1
      invariant Turned(buffer[..], was, at, n, p1 - at)
    {
      TurnsNext(buffer[..], was, at, n, p1 - at);
      ghost var now := buffer[..];
      buffer[p1], buffer[p2] := buffer[p2], buffer[p1];
      assert buffer[..] == now[p1 := now[p2]][p2 := now[p1]];
      p1, p2 := p1 + 1, p2 - 1;
    }
    TurnedAll(buffer[..], was, at, n, p1 - at);
    assert was[at..at + n] == old(buffer[at..at + n]);
  }

  lemma NothingTurned(was: seq<char>, at: nat, n: nat)
    requires at + n <= |was|
    ensures Turned(was, was, at, n, 0)
  {
  }

  /** intToBase, and the number of digits it returns. */
  method IntToBase(value: int, buffer: array<char>, base: nat) returns (digits: nat)
    requires 2 <= base <= 36 && |Printed(value, base)| < buffer.Length
    modifies buffer
    ensures var n := |Printed(value, base)|;
            buffer[..] == Printed(value, base) + ['\0'] + old(buffer[n + 1..])
    ensures digits == |Printed(value, base)| - if value < 0 then 1 else 0
  {
    hide Numeral;
    ghost var was := buffer[..];
    if value < 0 {
      buffer[0] := '-';
      assert buffer[..] == was[0 := '-'];
      digits := UintToBase(-value, buffer, 1, base);
      BehindSign(was, Numeral(-value, base));
    } else {
      digits := UintToBase(value, buffer, 0, base);
      assert was[..0] + Numeral(value, base) == Numeral(value, base);
    }
  }

  lemma BehindSign(was: seq<char>, s: string)
    requires 1 + |s| < |was|
    ensures var now := was[0 := '-'];
            now[..1] + s + ['\0'] + now[1 + |s| + 1..] == "-" + s + ['\0'] + was[|"-" + s| + 1..]
  {
    assert was[0 := '-'][..1] == "-";
  }
}
