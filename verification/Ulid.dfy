/**
  Identifiers that sort by creation time (packages/core/id/ulid.ts) and the string
  order they are compared with.  JavaScript compares strings by code unit.
*/
module Ulid {

  const ENCODING: string := "0123456789ABCDEFGHJKMNPQRSTVWXYZ"

  /** Ten base-32 digits hold every timestamp below this. */
  const TIME_LIMIT: nat := 1125899906842624

  type Byte = b: int | 0 <= b < 256

  // ---------------------------------------------------------------- string order

  predicate StringLe(a: string, b: string) {
    if a == "" then true
    else if b == "" then false
    else if a[0] != b[0] then a[0] < b[0]
    else StringLe(a[1..], b[1..])
  }

  predicate StringLt(a: string, b: string) { StringLe(a, b) && a != b }

  lemma {:induction false} StringLeIsTotalOrder(a: string, b: string, c: string)
    ensures StringLe(a, a)
    ensures StringLe(a, b) || StringLe(b, a)
    ensures StringLe(a, b) && StringLe(b, a) ==> a == b
    ensures StringLe(a, b) && StringLe(b, c) ==> StringLe(a, c)
  {
    if a != "" {
      assert a == [a[0]] + a[1..];
      if b != "" {
        assert b == [b[0]] + b[1..];
        if c != "" { StringLeIsTotalOrder(a[1..], b[1..], c[1..]); } else { StringLeIsTotalOrder(a[1..], b[1..], ""); }
      } else {
        StringLeIsTotalOrder(a[1..], "", "");
      }
    }
  }

  lemma {:induction false} SamePrefix(p: string, a: string, b: string)
    ensures StringLe(p + a, p + b) <==> StringLe(a, b)
  {
    if p == "" {
      assert p + a == a && p + b == b;
    } else {
      assert (p + a)[1..] == p[1..] + a && (p + b)[1..] == p[1..] + b;
      SamePrefix(p[1..], a, b);
    }
  }

  /** A strict order between strings of one length is decided before either ends. */
  lemma {:induction false} LtDecidesEarly(a: string, b: string, x: string, y: string)
    requires |a| == |b| && StringLt(a, b)
    ensures StringLt(a + x, b + y)
  {
    assert a == [a[0]] + a[1..] && b == [b[0]] + b[1..];
    assert (a + x)[1..] == a[1..] + x && (b + y)[1..] == b[1..] + y;
    assert (a + x)[0] == a[0] && (b + y)[0] == b[0];
    if a[0] == b[0] { LtDecidesEarly(a[1..], b[1..], x, y); }
  }

  // ---------------------------------------------------------------- encoding

  /** The last `n` base-32 digits of `t`. */
  function Digits(t: nat, n: nat): (s: string)
    ensures |s| == n
  {
    if n == 0 then "" else Digits(t / 32, n - 1) + [ENCODING[t % 32]]
  }

  /** Five bytes as eight base-32 digits, five bits each. */
  function FiveBytes(b: seq<Byte>): (s: string)
    requires |b| == 5
    ensures |s| == 8
  {
    [ENCODING[b[0] / 8], ENCODING[(b[0] % 8) * 4 + b[1] / 64], ENCODING[(b[1] / 2) % 32], ENCODING[(b[1] % 2) * 16 + b[2] / 16],
     ENCODING[(b[2] % 16) * 2 + b[3] / 128], ENCODING[(b[3] / 4) % 32], ENCODING[(b[3] % 4) * 8 + b[4] / 32], ENCODING[b[4] % 32]]
  }

  function BytesValue(b: seq<Byte>): nat
    requires |b| == 5
  {
    (((b[0] as nat * 256 + b[1] as nat) * 256 + b[2] as nat) * 256 + b[3] as nat) * 256 + b[4] as nat
  }

  lemma DigitsStep(t: nat, n: nat, q: nat, d: nat)
    requires n > 0 && t == 32 * q + d && d < 32
    ensures Digits(t, n) == Digits(q, n - 1) + [ENCODING[d]]
  {
    QuotientAndRest(t, q, d);
  }

  lemma QuotientAndRest(t: nat, q: nat, d: nat)
    requires t == 32 * q + d && d < 32
    ensures t / 32 == q && t % 32 == d
  {
  }

  predicate AllDigits(ds: seq<nat>) { forall i :: 0 <= i < |ds| ==> ds[i] < 32 }

  /** The number with these digits, most significant first. */
  function Number(ds: seq<nat>): nat {
    if ds == [] then 0 else Number(ds[..|ds| - 1]) * 32 + ds[|ds| - 1]
  }

  function Spelled(ds: seq<nat>): string
    requires AllDigits(ds)
  {
    seq(|ds|, i requires 0 <= i < |ds| => ENCODING[ds[i]])
  }

  lemma {:induction false} SpelledIsDigits(ds: seq<nat>)
    requires AllDigits(ds)
    ensures Spelled(ds) == Digits(Number(ds), |ds|)
  {
    if ds != [] {
      var n := |ds| - 1;
      SpelledIsDigits(ds[..n]);
      DigitsStep(Number(ds), |ds|, Number(ds[..n]), ds[n]);
      hide Digits;
      assert Spelled(ds) == Spelled(ds[..n]) + [ENCODING[ds[n]]];
    }
  }

  lemma NumberStep(ds: seq<nat>, d: nat)
    ensures Number(ds + [d]) == Number(ds) * 32 + d
  {
    assert (ds + [d])[..|ds|] == ds;
  }

  lemma EightDigits(a: nat, b: nat, c: nat, d: nat, e: nat, f: nat, g: nat, h: nat)
    ensures Number([a, b, c, d, e, f, g, h]) == ((((((a * 32 + b) * 32 + c) * 32 + d) * 32 + e) * 32 + f) * 32 + g) * 32 + h
  {
    NumberStep([], a);
    NumberStep([a], b);
    NumberStep([a, b], c);
    NumberStep([a, b, c], d);
    NumberStep([a, b, c, d], e);
    NumberStep([a, b, c, d, e], f);
    NumberStep([a, b, c, d, e, f], g);
    NumberStep([a, b, c, d, e, f, g], h);
    hide Number;
    assert [] + [a] == [a] && [a] + [b] == [a, b] && [a, b] + [c] == [a, b, c] && [a, b, c] + [d] == [a, b, c, d];
    assert [a, b, c, d] + [e] == [a, b, c, d, e] && [a, b, c, d, e] + [f] == [a, b, c, d, e, f];
    assert [a, b, c, d, e, f] + [g] == [a, b, c, d, e, f, g] && [a, b, c, d, e, f, g] + [h] == [a, b, c, d, e, f, g, h];
    assert Number([]) == 0 by { NoNumber(); }
  }

  lemma NoNumber()
    ensures Number([]) == 0
  {
  }

  /** The same number by five bytes and by eight digits cut out of them. */
  lemma BytesByDigits(b0: nat, x0: nat, x1: nat, b1: nat, y0: nat, y1: nat, y2: nat, b2: nat, z0: nat, z1: nat, b3: nat, u0: nat, u1: nat, u2: nat, b4: nat, w0: nat, w1: nat)
    requires b0 == 8 * x0 + x1 && b1 == 64 * y0 + 2 * y1 + y2 && b2 == 16 * z0 + z1 && b3 == 128 * u0 + 4 * u1 + u2 && b4 == 32 * w0 + w1
    ensures (((b0 * 256 + b1) * 256 + b2) * 256 + b3) * 256 + b4
      == ((((((x0 * 32 + (x1 * 4 + y0)) * 32 + y1) * 32 + (y2 * 16 + z0)) * 32 + (z1 * 2 + u0)) * 32 + u1) * 32 + (u2 * 8 + w0)) * 32 + w1
  {
  }

  lemma SixBits(b: nat)
    requires b < 256
    ensures b == 64 * (b / 64) + 2 * ((b / 2) % 32) + b % 2
  {
    var h := b / 2;
    assert h == 32 * (h / 32) + h % 32 && h / 32 == b / 64;
  }

  lemma SevenBits(b: nat)
    requires b < 256
    ensures b == 128 * (b / 128) + 4 * ((b / 4) % 32) + b % 4
  {
    var h := b / 4;
    assert h == 32 * (h / 32) + h % 32 && h / 32 == b / 128;
  }

  /** Forty bits, five at a time. */
  function FiveBits(b: seq<Byte>): (ds: seq<nat>)
    requires |b| == 5
    ensures |ds| == 8 && AllDigits(ds)
  {
    [b[0] as nat / 8, (b[0] as nat % 8) * 4 + b[1] as nat / 64, (b[1] as nat / 2) % 32, (b[1] as nat % 2) * 16 + b[2] as nat / 16,
     (b[2] as nat % 16) * 2 + b[3] as nat / 128, (b[3] as nat / 4) % 32, (b[3] as nat % 4) * 8 + b[4] as nat / 32, b[4] as nat % 32]
  }

  lemma BitsMakeTheNumber(b: seq<Byte>)
    requires |b| == 5
    ensures Number(FiveBits(b)) == BytesValue(b)
  {
    hide Number;
    var b0: nat, b1: nat, b2: nat, b3: nat, b4: nat := b[0], b[1], b[2], b[3], b[4];
    var y0, y1, y2 := b1 / 64, (b1 / 2) % 32, b1 % 2;
    var u0, u1, u2 := b3 / 128, (b3 / 4) % 32, b3 % 4;
    SixBits(b1);
    SevenBits(b3);
    BytesByDigits(b0, b0 / 8, b0 % 8, b1, y0, y1, y2, b2, b2 / 16, b2 % 16, b3, u0, u1, u2, b4, b4 / 32, b4 % 32);
    EightDigits(b0 / 8, (b0 % 8) * 4 + y0, y1, y2 * 16 + b2 / 16, (b2 % 16) * 2 + u0, u1, u2 * 8 + b4 / 32, b4 % 32);
  }

  /** Five bytes are written as the base-32 digits of the number they are. */
  lemma FiveBytesAreDigits(b: seq<Byte>)
    requires |b| == 5
    ensures FiveBytes(b) == Digits(BytesValue(b), 8)
  {
    BitsAreSpelled(b);
    BitsMakeTheNumber(b);
    hide *;
    SpelledIsDigits(FiveBits(b));
  }

  lemma BitsAreSpelled(b: seq<Byte>)
    requires |b| == 5
    ensures FiveBytes(b) == Spelled(FiveBits(b))
  {
    var ds, s, w := FiveBits(b), FiveBytes(b), Spelled(FiveBits(b));
    assert w[0] == ENCODING[ds[0]] == s[0] && w[1] == ENCODING[ds[1]] == s[1] && w[2] == ENCODING[ds[2]] == s[2] && w[3] == ENCODING[ds[3]] == s[3];
    assert w[4] == ENCODING[ds[4]] == s[4] && w[5] == ENCODING[ds[5]] == s[5] && w[6] == ENCODING[ds[6]] == s[6] && w[7] == ENCODING[ds[7]] == s[7];
  }

  function Encode(t: nat, random: seq<Byte>): (s: string)
    requires |random| == 10
    ensures |s| == 26
  {
    Digits(t, 10) + FiveBytes(random[..5]) + FiveBytes(random[5..])
  }

  method GenerateUlid(now: nat, random: seq<Byte>) returns (ulid: string)
    requires |random| == 10
    ensures ulid == Encode(now, random)
  {
    var t := now;
    var timeChars := "";
    for i := 0 to 10
      invariant Digits(now, 10) == Digits(t, 10 - i) + timeChars
    {
      timeChars := [ENCODING[t % 32]] + timeChars;
      t := t / 32;
    }
    assert Digits(t, 0) + timeChars == timeChars;
    ulid := timeChars + FiveBytes(random[..5]) + FiveBytes(random[5..]);
  }

  lemma EncodingAscends(i: nat, j: nat)
    requires i < j < 32
    ensures ENCODING[i] < ENCODING[j]
  {
    assert forall k :: 0 <= k < 31 ==> ENCODING[k] < ENCODING[k + 1];
    if i + 1 < j { EncodingAscends(i, j - 1); }
  }

  function Pow32(n: nat): nat { if n == 0 then 1 else 32 * Pow32(n - 1) }

  lemma LimitIsPower()
    ensures Pow32(10) == TIME_LIMIT
  {
    assert Pow32(5) == 33554432;
  }

  lemma {:induction false} DigitsAscend(t: nat, u: nat, n: nat)
    requires t < u < Pow32(n)
    ensures StringLt(Digits(t, n), Digits(u, n))
  {
    var a, b := Digits(t / 32, n - 1), Digits(u / 32, n - 1);
    if t / 32 < u / 32 {
      DigitsAscend(t / 32, u / 32, n - 1);
      LtDecidesEarly(a, b, [ENCODING[t % 32]], [ENCODING[u % 32]]);
    } else {
      EncodingAscends(t % 32, u % 32);
      SamePrefix(a, [ENCODING[t % 32]], [ENCODING[u % 32]]);
      assert (a + [ENCODING[t % 32]])[n - 1] != (a + [ENCODING[u % 32]])[n - 1];
    }
  }

  /** Later timestamps give later identifiers, whatever the random parts are. */
  lemma LaterSortsAfter(t: nat, r: seq<Byte>, u: nat, q: seq<Byte>)
    requires |r| == 10 && |q| == 10 && t < u < TIME_LIMIT
    ensures StringLt(Encode(t, r), Encode(u, q))
  {
    hide Digits, StringLe, FiveBytes;
    LimitIsPower();
    DigitsAscend(t, u, 10);
    var x, y := FiveBytes(r[..5]) + FiveBytes(r[5..]), FiveBytes(q[..5]) + FiveBytes(q[5..]);
    LtDecidesEarly(Digits(t, 10), Digits(u, 10), x, y);
    assert Encode(t, r) == Digits(t, 10) + x && Encode(u, q) == Digits(u, 10) + y;
  }

  /** Beyond ten digits the timestamp wraps and the order is lost. */
  lemma OrderEndsAtTheLimit(r: seq<Byte>)
    requires |r| == 10
    ensures StringLt(Encode(TIME_LIMIT, r), Encode(TIME_LIMIT - 1, r))
  {
    hide Digits, StringLe, FiveBytes;
    LimitIsPower();
    DigitsWrap(TIME_LIMIT, 10);
    DigitsAscend(0, TIME_LIMIT - 1, 10);
    var x := FiveBytes(r[..5]) + FiveBytes(r[5..]);
    LtDecidesEarly(Digits(0, 10), Digits(TIME_LIMIT - 1, 10), x, x);
    assert Encode(TIME_LIMIT, r) == Digits(0, 10) + x && Encode(TIME_LIMIT - 1, r) == Digits(TIME_LIMIT - 1, 10) + x;
  }

  lemma {:induction false} DigitsWrap(t: nat, n: nat)
    requires t == Pow32(n)
    ensures Digits(t, n) == Digits(0, n)
  {
    if n > 0 {
      assert t / 32 == Pow32(n - 1) && t % 32 == 0;
      DigitsWrap(t / 32, n - 1);
    }
  }

  lemma DigitsDecide(t: nat, u: nat, n: nat)
    requires t < Pow32(n) && u < Pow32(n)
    ensures Digits(t, n) == Digits(u, n) <==> t == u
  {
    if t < u { DigitsAscend(t, u, n); } else if u < t { DigitsAscend(u, t, n); }
  }

  /** Below the limit two identifiers are equal only if they were made at the same time from
      the same eighty random bits. */
  lemma EncodeDecides(t: nat, r: seq<Byte>, u: nat, q: seq<Byte>)
    requires |r| == 10 && |q| == 10 && t < TIME_LIMIT && u < TIME_LIMIT
    ensures Encode(t, r) == Encode(u, q) <==> t == u && r == q
  {
    hide Digits, StringLe, FiveBytes, BytesValue;
    if Encode(t, r) == Encode(u, q) {
      LimitIsPower();
      var a, b := Encode(t, r), Encode(u, q);
      assert a[..10] == Digits(t, 10) && b[..10] == Digits(u, 10);
      assert a[10..18] == FiveBytes(r[..5]) && b[10..18] == FiveBytes(q[..5]);
      assert a[18..] == FiveBytes(r[5..]) && b[18..] == FiveBytes(q[5..]);
      DigitsDecide(t, u, 10);
      FiveBytesDecide(r[..5], q[..5]);
      FiveBytesDecide(r[5..], q[5..]);
      assert r == r[..5] + r[5..] && q == q[..5] + q[5..];
    }
  }

  lemma FiveBytesDecide(b: seq<Byte>, c: seq<Byte>)
    requires |b| == 5 && |c| == 5 && FiveBytes(b) == FiveBytes(c)
    ensures b == c
  {
    FiveBytesAreDigits(b);
    FiveBytesAreDigits(c);
    BytesFit(b);
    BytesFit(c);
    hide FiveBytes, Digits, BytesValue, Pow32;
    DigitsDecide(BytesValue(b), BytesValue(c), 8);
    BytesValueDecides(b, c);
  }

  lemma BytesFit(b: seq<Byte>)
    requires |b| == 5
    ensures BytesValue(b) < Pow32(8)
  {
    assert Pow32(4) == 1048576 && Pow32(8) == 1099511627776;
    hide Pow32;
  }

  lemma LastByte(x: nat, b: nat, y: nat, c: nat)
    requires b < 256 && c < 256 && x * 256 + b == y * 256 + c
    ensures x == y && b == c
  {
  }

  lemma BytesValueDecides(b: seq<Byte>, c: seq<Byte>)
    requires |b| == 5 && |c| == 5 && BytesValue(b) == BytesValue(c)
    ensures b == c
  {
    var x1, y1 := b[0] as nat * 256 + b[1] as nat, c[0] as nat * 256 + c[1] as nat;
    var x2, y2 := x1 * 256 + b[2] as nat, y1 * 256 + c[2] as nat;
    var x3, y3 := x2 * 256 + b[3] as nat, y2 * 256 + c[3] as nat;
    LastByte(x3, b[4], y3, c[4]);
    LastByte(x2, b[3], y2, c[3]);
    LastByte(x1, b[2], y1, c[2]);
    LastByte(b[0], b[1], c[0], c[1]);
  }
}
