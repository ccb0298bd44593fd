/** Small shared vocabulary: an optional value, Go's lower-casing of the strings the core
    compares, Go's truncating remainder, and `strconv.ParseUint(s, 10, 32)`. */
module Common {

  datatype Option<+T> = None | Some(value: T) {
    function GetOr(default: T): T {
      match this
      case Some(v) => v
      case None => default
    }
  }

  const Uint32Limit: int := 0x1_0000_0000
  const Uint64Limit: int := 0x1_0000_0000_0000_0000

  type uint32 = x: int | 0 <= x < Uint32Limit
  type uint64 = x: int | 0 <= x < Uint64Limit

  /** The value stored under `key`, or "" when it is missing (Go's zero value for a string map). */
  function Lookup(m: map<string, string>, key: string): (r: string)
    ensures key !in m ==> r == ""
    ensures key in m ==> r == m[key]
  {
    if key in m then m[key] else ""
  }

  /** `unicode.ToLower` on one rune. Upper-case ASCII letters map to lower case, and so do the two
      non-ASCII runes whose lower case is an ASCII letter: U+0130 and U+212A. Other non-ASCII runes
      are left alone (their lower case is never ASCII, so no comparison below can tell). */
  function LowerRune(c: char): (r: char)
    ensures 'a' <= r <= 'z' && r != c ==> c == 'İ' || c == 'K' || ('A' <= c <= 'Z' && r as int == c as int + 32)
    ensures 'A' <= c <= 'Z' ==> r as int == c as int + 32
  {
    if 'A' <= c <= 'Z' then (c as int + 32) as char
    else if c == 'İ' then 'i'
    else if c == 'K' then 'k'
    else c
  }

  /** `strings.ToLower`: rune by rune. */
  function Lower(s: string): (r: string)
    ensures |r| == |s|
  {
    seq(|s|, i requires 0 <= i < |s| => LowerRune(s[i]))
  }

  /** A multiple of `b` leaves no Euclidean remainder. */
  lemma MultipleMod(b: int, q: int)
    requires b > 0
    ensures (b * q) % b == 0
  {
    var x := b * q;
    var k := q - x / b;
    assert b * k == x % b;
    if k > 0 {
      assert false;
    } else if k < 0 {
      assert false;
    }
  }

  lemma MulMono(b: int, q: int)
    requires b > 0 && q >= 1
    ensures b * q >= b
  {
  }

  /** The only multiple of `b` strictly between -b and b is zero. */
  lemma SmallMultipleIsZero(d: int, b: int)
    requires b > 0 && d % b == 0 && -b < d < b
    ensures d == 0
  {
    var q := d / b;
    assert d == b * q;
    if q >= 1 {
      MulMono(b, q);
      assert false;
    } else if q <= -1 {
      MulMono(b, -q);
      assert false;
    }
  }

  /** The difference of two multiples of `m` is a multiple of `m`. */
  lemma DiffMultiple(x: int, y: int, m: int)
    requires m > 0 && x % m == 0 && y % m == 0
    ensures (x - y) % m == 0
  {
    var p := x / m;
    var q := y / m;
    assert x == m * p;
    assert y == m * q;
    assert x - y == m * (p - q);
    MultipleMod(m, p - q);
  }

  /** The Euclidean remainder of `b * q + o` for a digit `o` of base `b` is `o`. */
  lemma MulAddMod(b: int, q: int, o: int)
    requires b > 0 && 0 <= o < b
    ensures (b * q + o) % b == o
  {
    var x := b * q + o;
    assert x == b * (x / b) + x % b;
    assert b * (q - x / b) == x % b - o;
    MultipleMod(b, q - x / b);
    SmallMultipleIsZero(x % b - o, b);
  }

  /** Adding a multiple of `b` leaves the Euclidean remainder unchanged. */
  lemma ModShift(t: int, b: int, k: int)
    requires b > 0
    ensures (t + b * k) % b == t % b
    ensures (t + b * k) / b == t / b + k
  {
    assert t == b * (t / b) + t % b;
    assert t + b * k == b * (t / b + k) + t % b;
    MulAddMod(b, t / b + k, t % b);
    var x := t + b * k;
    assert x == b * (x / b) + x % b;
    assert b * (x / b - (t / b + k)) == 0;
    if x / b - (t / b + k) > 0 {
      MulMono(b, x / b - (t / b + k));
      assert false;
    } else if x / b - (t / b + k) < 0 {
      MulMono(b, (t / b + k) - x / b);
      assert false;
    }
  }

  /** A Euclidean remainder never exceeds a non-negative dividend. */
  lemma RemLe(a: int, b: int)
    requires a >= 0 && b > 0
    ensures a % b <= a
  {
    if a < b {
      var q := a / b;
      if q >= 1 {
        MulMono(b, q);
        assert false;
      }
      if q < 0 {
        MulMono(b, -q);
        assert false;
      }
    }
  }

  /** Go's `a % b` for a positive divisor: the remainder takes the sign of `a` (truncating
      division), unlike Dafny's Euclidean `%`. */
  function GoRem(a: int, b: int): (r: int)
    requires b > 0
    ensures (a - r) % b == 0
    ensures a >= 0 ==> 0 <= r < b
    ensures a < 0 ==> -b < r <= 0
  {
    if a >= 0 then
      assert a - a % b == b * (a / b);
      MultipleMod(b, a / b);
      a % b
    else
      assert -a == b * ((-a) / b) + (-a) % b;
      assert a + (-a) % b == b * -((-a) / b);
      MultipleMod(b, -((-a) / b));
      -((-a) % b)
  }

  /** A multiple of `m` has no truncated remainder either. */
  lemma GoRemOfMultiple(x: int, m: int)
    requires m > 0 && x % m == 0
    ensures GoRem(x, m) == 0
  {
    if x < 0 {
      var q := x / m;
      assert x == m * q;
      assert -x == m * (-q);
      MultipleMod(m, -q);
    }
  }

  /** Go's `d - d % m` for m > 0, which is also `time.Duration.Truncate(m)`: round toward zero to a
      multiple of m. */
  function TruncToMultiple(d: int, m: int): (r: int)
    requires m > 0
    ensures r % m == 0
    ensures d >= 0 ==> 0 <= r <= d < r + m
    ensures d < 0 ==> r - m < d <= r <= 0
  {
    if d >= 0 then RemLe(d, m); d - GoRem(d, m) else RemLe(-d, m); d - GoRem(d, m)
  }

  predicate IsDigit(c: char) {
    '0' <= c <= '9'
  }

  predicate AllDigits(s: string) {
    forall i :: 0 <= i < |s| ==> IsDigit(s[i])
  }

  /** The number written by a string of decimal digits (leading zeros allowed). */
  function DigitsValue(s: string): nat
    requires AllDigits(s)
  {
    if s == [] then 0 else DigitsValue(s[..|s| - 1]) * 10 + (s[|s| - 1] as int - '0' as int)
  }

  /** `strconv.ParseUint(s, 10, 32)`: a non-empty string of decimal digits whose value fits in 32
      bits; anything else (empty, a sign, a letter, an overflow) is an error. */
  function ParseUint32(s: string): (r: Option<uint32>)
    ensures r.Some? <==> s != [] && AllDigits(s) && DigitsValue(s) < Uint32Limit
    ensures r.Some? ==> r.value == DigitsValue(s)
  {
    if s != [] && AllDigits(s) && DigitsValue(s) < Uint32Limit then Some(DigitsValue(s)) else None
  }

  /** The canonical decimal rendering of a natural number (`strconv.FormatUint(n, 10)`): the
      reference that `ParseUint32` is checked against. */
  function Decimal(n: nat): (r: string)
    ensures r != []
  {
    if n < 10 then [('0' as int + n) as char] else Decimal(n / 10) + [('0' as int + n % 10) as char]
  }

  lemma {:induction false} DecimalDigits(n: nat)
    ensures AllDigits(Decimal(n)) && DigitsValue(Decimal(n)) == n
  {
    var s := Decimal(n);
    if n < 10 {
      assert s[..|s| - 1] == [];
    } else {
      DecimalDigits(n / 10);
      assert s[..|s| - 1] == Decimal(n / 10);
    }
  }

  /** Round trip: every 32-bit value, rendered in decimal, parses back to itself. */
  lemma ParseDecimalRoundTrip(n: nat)
    requires n < Uint32Limit
    ensures ParseUint32(Decimal(n)) == Some(n)
  {
    DecimalDigits(n);
  }

  predicate HasPrefix(s: string, prefix: string) {
    |prefix| <= |s| && s[..|prefix|] == prefix
  }

  /** A non-empty set has a member (lets a loop pick the next pid of a set). */
  lemma NonEmptyHasMember(s: set<int>)
    requires s != {}
    ensures exists x :: x in s
  {
    if forall x :: x !in s {
      assert false;
    }
  }
}
