/**
  The base58 encoder of `pkg/identity/did.go` (Bitcoin alphabet): repeated in-place
  multiply-and-add in a buffer of `n*138/100+1` digits.

  The reference is arithmetic and knows nothing of the buffer: a byte string is a number
  written in base 256, its encoding is the same number written in base 58, and leading
  zero digits are carried over one for one.
 */
module Base58 {
  import opened Basics

  type Byte = b: int | 0 <= b < 256

  const ALPHABET := "123456789" + "ABCDEFGH" + "JKLMN" + "PQRSTUVWXYZ" + "abcdefghijk" + "mnopqrstuvwxyz"

  // ----- Positional notation -----

  function Pow(b: nat, e: nat): (p: nat)
    ensures b > 0 ==> p > 0
  {
    if e == 0 then 1 else b * Pow(b, e - 1)
  }

  /** The number whose digits, most significant first, are `s`. */
  function Value(base: nat, s: seq<nat>): nat {
    if s == [] then 0 else Value(base, s[..|s| - 1]) * base + s[|s| - 1]
  }

  /** The digits of `v` without leading zeros, most significant first. */
  function Digits(base: nat, v: nat): seq<nat>
    requires base >= 2
    decreases v
  {
    if v == 0 then [] else DivShrinks(v, base); Digits(base, v / base) + [v % base]
  }

  ghost predicate InBase(base: nat, s: seq<nat>) {
    forall i :: 0 <= i < |s| ==> s[i] < base
  }

  function LeadingZeros(s: seq<nat>): nat {
    if s != [] && s[0] == 0 then 1 + LeadingZeros(s[1..]) else 0
  }

  function Zeros(k: nat): seq<nat> {
    seq(k, _ => 0)
  }

  /** `s` read in base `from` and rewritten in base `to`, keeping the count of leading zeros. */
  function Rebase(from: nat, to: nat, s: seq<nat>): seq<nat>
    requires to >= 2
  {
    Zeros(LeadingZeros(s)) + Digits(to, Value(from, s))
  }

  lemma DivShrinks(v: nat, b: nat)
    requires v > 0 && b >= 2
    ensures v / b < v
  {
  }

  lemma MulMonotone(a: nat, b: nat, c: nat, d: nat)
    requires a <= b && c <= d
    ensures a * c <= b * d
  {
    assert a * c <= b * c;
    assert b * c <= b * d;
  }

  lemma QuotientUnique(q: nat, r: nat, q': nat, r': nat, b: nat)
    requires r < b && r' < b
    requires q * b + r == q' * b + r'
    ensures q == q' && r == r'
  {
    if q < q' {
      MulMonotone(q + 1, q', b, b);
    } else if q' < q {
      MulMonotone(q' + 1, q, b, b);
    }
  }

  lemma DivModUnique(q: nat, r: nat, b: nat)
    requires r < b
    ensures (q * b + r) / b == q && (q * b + r) % b == r
  {
    var v := q * b + r;
    QuotientUnique(v / b, v % b, q, r, b);
  }

  lemma {:induction false} ValueBound(base: nat, s: seq<nat>)
    requires InBase(base, s)
    ensures Value(base, s) < Pow(base, |s|)
  {
    if s != [] {
      var v, p := Value(base, s[..|s| - 1]), Pow(base, |s| - 1);
      ValueBound(base, s[..|s| - 1]);
      MulMonotone(v + 1, p, base, base);
      assert (v + 1) * base == v * base + base;
      assert p * base == Pow(base, |s|);
    }
  }

  lemma Distribute(d: nat, p: nat, v: nat, b: nat)
    ensures (d * p + v) * b == d * (b * p) + v * b
  {
    assert d * p * b == d * (b * p);
  }

  lemma {:induction false} ValueCons(base: nat, d: nat, s: seq<nat>)
    ensures Value(base, [d] + s) == d * Pow(base, |s|) + Value(base, s)
  {
    if s == [] {
      assert [d] + s == [d];
      assert [d][..0] == [];
    } else {
      var init := s[..|s| - 1];
      ValueCons(base, d, init);
      assert ([d] + s)[..|s|] == [d] + init;
      Distribute(d, Pow(base, |init|), Value(base, init), base);
    }
  }

  lemma {:induction false} ZerosLead(s: seq<nat>)
    ensures LeadingZeros(s) <= |s|
    ensures forall i :: 0 <= i < LeadingZeros(s) ==> s[i] == 0
    ensures LeadingZeros(s) < |s| ==> s[LeadingZeros(s)] != 0
  {
    if s != [] && s[0] == 0 {
      ZerosLead(s[1..]);
      assert forall i :: 0 < i < |s| ==> s[i] == s[1..][i - 1];
    }
  }

  lemma {:induction false} ValueSkipsZeros(base: nat, s: seq<nat>)
    ensures LeadingZeros(s) <= |s|
    ensures Value(base, s) == Value(base, s[LeadingZeros(s)..])
  {
    if s != [] && s[0] == 0 {
      var t := s[1..];
      ValueSkipsZeros(base, t);
      assert s == [0] + t;
      ValueCons(base, 0, t);
      assert t[LeadingZeros(t)..] == s[LeadingZeros(s)..];
    }
  }

  lemma {:induction false} LeadingZerosOf(k: nat, s: seq<nat>)
    requires s != [] ==> s[0] != 0
    ensures LeadingZeros(Zeros(k) + s) == k
  {
    if k > 0 {
      LeadingZerosOf(k - 1, s);
      assert (Zeros(k) + s)[1..] == Zeros(k - 1) + s;
    } else {
      assert Zeros(k) + s == s;
    }
  }

  lemma DivMod(v: nat, b: nat)
    requires b > 0
    ensures v == v / b * b + v % b
  {
  }

  /** `s` is how `v` is written, without leading zeros. */
  ghost predicate Writes(base: nat, s: seq<nat>, v: nat) {
    Value(base, s) == v && InBase(base, s) && (s == [] <==> v == 0) && (s != [] ==> s[0] != 0)
  }

  lemma OneMoreDigit(base: nat, s: seq<nat>, q: nat, r: nat, v: nat)
    requires Writes(base, s, q) && r < base && v == q * base + r && v > 0
    ensures Writes(base, s + [r], v)
  {
    assert (s + [r])[..|s|] == s;
  }

  lemma {:induction false} DigitsOf(base: nat, v: nat)
    requires base >= 2
    ensures Writes(base, Digits(base, v), v)
    decreases v
  {
    if v > 0 {
      var q, r := v / base, v % base;
      DivMod(v, base);
      DivShrinks(v, base);
      DigitsOf(base, q);
      OneMoreDigit(base, Digits(base, q), q, r, v);
    }
  }

  lemma {:induction false} DigitsUnique(base: nat, s: seq<nat>)
    requires base >= 2 && InBase(base, s)
    requires s != [] ==> s[0] != 0
    ensures Digits(base, Value(base, s)) == s
  {
    if s != [] {
      var init, d := s[..|s| - 1], s[|s| - 1];
      DigitsUnique(base, init);
      DivModUnique(Value(base, init), d, base);
      if init != [] {
        DigitsOf(base, Value(base, init));
        assert Value(base, init) > 0;
      }
      assert Value(base, s) > 0;
      assert s == init + [d];
    }
  }

  lemma ZerosThenDigits(base: nat, k: nat, v: nat)
    requires base >= 2
    ensures InBase(base, Zeros(k) + Digits(base, v))
    ensures LeadingZeros(Zeros(k) + Digits(base, v)) == k
    ensures Value(base, Zeros(k) + Digits(base, v)) == v
  {
    var ds := Digits(base, v);
    DigitsOf(base, v);
    LeadingZerosOf(k, ds);
    ValueSkipsZeros(base, Zeros(k) + ds);
    assert (Zeros(k) + ds)[k..] == ds;
  }

  lemma RebaseKeeps(from: nat, to: nat, s: seq<nat>)
    requires to >= 2
    ensures InBase(to, Rebase(from, to, s))
    ensures LeadingZeros(Rebase(from, to, s)) == LeadingZeros(s)
    ensures Value(to, Rebase(from, to, s)) == Value(from, s)
  {
    ZerosThenDigits(to, LeadingZeros(s), Value(from, s));
  }

  /** Rewriting a number in another base and back is the identity on every digit string. */
  lemma RebaseInverse(from: nat, to: nat, s: seq<nat>)
    requires from >= 2 && to >= 2 && InBase(from, s)
    ensures InBase(to, Rebase(from, to, s))
    ensures LeadingZeros(Rebase(from, to, s)) == LeadingZeros(s)
    ensures Rebase(to, from, Rebase(from, to, s)) == s
  {
    var k := LeadingZeros(s);
    RebaseKeeps(from, to, s);
    ValueSkipsZeros(from, s);
    ZerosLead(s);
    assert s == Zeros(k) + s[k..];
    DigitsUnique(from, s[k..]);
  }

  // ----- The size of the buffer -----

  function BufferSize(n: nat): nat {
    n * 138 / 100 + 1
  }

  lemma MulAssociative(a: nat, b: nat, c: nat)
    ensures a * (b * c) == a * b * c
  {
  }

  lemma {:induction false} PowAdd(b: nat, m: nat, n: nat)
    ensures Pow(b, m + n) == Pow(b, m) * Pow(b, n)
  {
    if m > 0 {
      PowAdd(b, m - 1, n);
      MulAssociative(b, Pow(b, m - 1), Pow(b, n));
      assert Pow(b, m + n) == b * Pow(b, m - 1 + n);
    }
  }

  lemma PowMonotone(b: nat, m: nat, n: nat)
    requires b >= 1 && m <= n
    ensures Pow(b, m) <= Pow(b, n)
  {
    PowAdd(b, m, n - m);
    MulMonotone(Pow(b, m), Pow(b, m), 1, Pow(b, n - m));
  }

  lemma PowersOf58()
    ensures Pow(58, 1) == 58 && Pow(58, 2) == 3364 && Pow(58, 3) == 195112 && Pow(58, 5) == 656356768
    ensures Pow(58, 6) == 38068692544 && Pow(58, 7) == 2207984167552 && Pow(58, 9) == 7427658739644928
    ensures Pow(58, 10) == 430804206899405824 && Pow(58, 11) == 24986644000165537792
  {
  }

  lemma PowersOf256()
    ensures Pow(256, 0) == 1 && Pow(256, 1) == 256 && Pow(256, 2) == 65536 && Pow(256, 3) == 16777216
    ensures Pow(256, 4) == 4294967296 && Pow(256, 5) == 1099511627776 && Pow(256, 6) == 281474976710656
    ensures Pow(256, 7) == 72057594037927936 && Pow(256, 8) == 18446744073709551616
  {
  }

  /** Small byte counts with a number of base-58 digits that suffices for them. */
  const SMALL_SIZES: set<(nat, nat)> :=
    {(0, 1), (1, 2), (2, 3), (3, 5), (4, 6), (5, 7), (6, 9), (7, 10), (8, 11)}

  lemma SmallPowers(n: nat, k: nat)
    requires (n, k) in SMALL_SIZES
    ensures Pow(256, n) <= Pow(58, k)
  {
    PowersOf58();
    PowersOf256();
  }

  lemma SmallSizes(n: nat)
    requires n < 8
    ensures (n, BufferSize(n)) in SMALL_SIZES
  {
  }

  lemma BufferGrows(m: nat)
    ensures BufferSize(m) + 11 <= BufferSize(m + 8)
  {
  }

  lemma MulPowers(m: nat, k: nat, i: nat, j: nat)
    requires Pow(256, m) <= Pow(58, k) && Pow(256, i) <= Pow(58, j)
    ensures Pow(256, m + i) <= Pow(58, k + j)
  {
    PowAdd(256, m, i);
    PowAdd(58, k, j);
    MulMonotone(Pow(256, m), Pow(58, k), Pow(256, i), Pow(58, j));
  }

  /** `i` more bytes that fit in `j` digits fit in a buffer that is `j` digits longer. */
  lemma MoreBytes(m: nat, k: nat, i: nat, j: nat, size: nat)
    requires Pow(256, m) <= Pow(58, k) && (i, j) in SMALL_SIZES && k + j <= size
    ensures Pow(256, m + i) <= Pow(58, size)
  {
    SmallPowers(i, j);
    MulPowers(m, k, i, j);
    PowMonotone(58, k + j, size);
  }

  /** Every `n`-byte number fits in the buffer the encoder allocates for it. */
  lemma {:induction false} BufferSuffices(n: nat)
    ensures Pow(256, n) <= Pow(58, BufferSize(n))
  {
    if n < 8 {
      SmallSizes(n);
      SmallPowers(n, BufferSize(n));
    } else {
      BufferSuffices(n - 8);
      BufferGrows(n - 8);
      MoreBytes(n - 8, BufferSize(n - 8), 8, 11, BufferSize(n));
    }
  }

  // ----- Text -----

  function Letter(d: nat): char
    requires d < 58
  {
    ALPHABET[d]
  }

  function Chars(ds: seq<nat>): string
    requires InBase(58, ds)
  {
    seq(|ds|, i requires 0 <= i < |ds| => Letter(ds[i]))
  }

  predicate IsAlphabetic(s: string) {
    forall i :: 0 <= i < |s| ==> s[i] in ALPHABET
  }

  /** The position of `c` in the alphabet, by the six runs the alphabet is made of. */
  function DigitOf(c: char): nat
    requires c in ALPHABET
  {
    if c <= '9' then (c - '1') as nat
    else if c <= 'H' then (c - 'A') as nat + 9
    else if c <= 'N' then (c - 'J') as nat + 17
    else if c <= 'Z' then (c - 'P') as nat + 22
    else if c <= 'k' then (c - 'a') as nat + 33
    else (c - 'm') as nat + 44
  }

  lemma FirstRuns(d: nat)
    requires d < 17
    ensures Letter(d) in ALPHABET && DigitOf(Letter(d)) == d
  {
    if d < 9 {
      assert Letter(d) == "123456789"[d];
    } else {
      assert Letter(d) == "ABCDEFGH"[d - 9];
    }
  }

  lemma UpperRuns(d: nat)
    requires 17 <= d < 33
    ensures Letter(d) in ALPHABET && DigitOf(Letter(d)) == d
  {
    if d < 22 {
      assert Letter(d) == "JKLMN"[d - 17];
    } else {
      assert Letter(d) == "PQRSTUVWXYZ"[d - 22];
    }
  }

  lemma LowerRuns(d: nat)
    requires 33 <= d < 58
    ensures Letter(d) in ALPHABET && DigitOf(Letter(d)) == d
  {
    if d < 44 {
      assert Letter(d) == "abcdefghijk"[d - 33];
    } else {
      assert Letter(d) == "mnopqrstuvwxyz"[d - 44];
    }
  }

  lemma DigitOfAlphabet(d: nat)
    requires d < 58
    ensures Letter(d) in ALPHABET && DigitOf(Letter(d)) == d
  {
    if d < 17 {
      FirstRuns(d);
    } else if d < 33 {
      UpperRuns(d);
    } else {
      LowerRuns(d);
    }
  }

  function Indices(s: string): seq<nat>
    requires IsAlphabetic(s)
  {
    seq(|s|, i requires 0 <= i < |s| => DigitOf(s[i]))
  }

  lemma IndicesOfChars(ds: seq<nat>)
    requires InBase(58, ds)
    ensures IsAlphabetic(Chars(ds)) && Indices(Chars(ds)) == ds
  {
    forall i | 0 <= i < |ds| ensures Chars(ds)[i] in ALPHABET && DigitOf(Chars(ds)[i]) == ds[i] {
      DigitOfAlphabet(ds[i]);
    }
  }

  lemma CharsOfIndices(s: string)
    requires IsAlphabetic(s)
    ensures InBase(58, Indices(s)) && Chars(Indices(s)) == s
  {
    forall i | 0 <= i < |s| ensures DigitOf(s[i]) < 58 && Letter(DigitOf(s[i])) == s[i] {
      var d :| 0 <= d < |ALPHABET| && ALPHABET[d] == s[i];
      assert Letter(d) == s[i];
      DigitOfAlphabet(d);
    }
  }

  /** The base58 text of a byte string, as draft-msporny-base58 defines it. */
  ghost function Encoding(data: seq<Byte>): string {
    RebaseInverse(256, 58, data);
    Chars(Rebase(256, 58, data))
  }

  /** The decoder of the same draft; `None` on a character outside the alphabet. */
  ghost function Decoding(s: string): Option<seq<Byte>> {
    if IsAlphabetic(s) then
      CharsOfIndices(s);
      RebaseInverse(58, 256, Indices(s));
      Some(Rebase(58, 256, Indices(s)))
    else None
  }

  /** Decoding an encoding gives back exactly the bytes, for every byte string. */
  lemma RoundTrip(data: seq<Byte>)
    ensures Decoding(Encoding(data)) == Some(data)
  {
    RebaseInverse(256, 58, data);
    IndicesOfChars(Rebase(256, 58, data));
  }

  /** Encoding is onto the alphabetic strings: encoding what was decoded gives back the text. */
  lemma RoundTripText(s: string)
    requires IsAlphabetic(s)
    ensures Decoding(s).Some? && Encoding(Decoding(s).value) == s
  {
    CharsOfIndices(s);
    RebaseInverse(58, 256, Indices(s));
  }

  /** The text starts with exactly as many ones as the data starts with zero bytes. */
  lemma LeadingOnes(data: seq<Byte>)
    ensures LeadingZeros(data) <= |Encoding(data)|
    ensures forall i :: 0 <= i < LeadingZeros(data) ==> Encoding(data)[i] == '1'
    ensures LeadingZeros(data) < |Encoding(data)| ==> Encoding(data)[LeadingZeros(data)] != '1'
  {
    var ds := Rebase(256, 58, data);
    RebaseInverse(256, 58, data);
    ZerosLead(ds);
    IndicesOfChars(ds);
    assert Letter(0) == '1';
    var z := LeadingZeros(data);
    if z < |ds| {
      DigitOfAlphabet(ds[z]);
      DigitOfAlphabet(0);
    }
  }

  lemma EncodingInjective(a: seq<Byte>, b: seq<Byte>)
    requires Encoding(a) == Encoding(b)
    ensures a == b
  {
    RoundTrip(a);
    RoundTrip(b);
  }

  // ----- The encoder -----

  /** `now` with `carry` beyond its most significant digit is 256 times `was` plus `b`. */
  ghost predicate Balanced(was: seq<nat>, now: seq<nat>, carry: nat, b: nat) {
    Value(58, now) + Shifted(carry, |was|) == 256 * Value(58, was) + b
  }

  /** `c` with `n` zero digits after it. */
  function Shifted(c: nat, n: nat): nat {
    if n == 0 then c else 58 * Shifted(c, n - 1)
  }

  lemma {:induction false} ShiftedIs(c: nat, n: nat)
    ensures Shifted(c, n) == c * Pow(58, n)
  {
    if n > 0 {
      ShiftedIs(c, n - 1);
      MulSwap(c, Pow(58, n - 1));
    }
  }

  lemma MulSwap(c: nat, p: nat)
    ensures 58 * (c * p) == c * (58 * p)
  {
  }

  lemma CarryArithmetic(vw: nat, vn: nat, d: nat, carry: nat, b: nat, p: nat, q: nat, r: nat)
    requires vn + carry * p == 256 * vw + b && carry + 256 * d == q * 58 + r
    ensures r * p + vn + q * (58 * p) == 256 * (d * p + vw) + b
  {
    calc {
      r * p + q * (58 * p);
      (q * 58 + r) * p;
      (carry + 256 * d) * p;
      carry * p + 256 * (d * p);
    }
  }

  lemma CarryStep(was: seq<nat>, now: seq<nat>, d: nat, carry: nat, b: nat)
    requires |now| == |was| && Balanced(was, now, carry, b)
    ensures var t := carry + 256 * d;
            Balanced([d] + was, [t % 58] + now, t / 58, b)
  {
    var t := carry + 256 * d;
    ValueCons(58, t % 58, now);
    ValueCons(58, d, was);
    ShiftedIs(carry, |was|);
    ShiftedIs(t / 58, |was| + 1);
    CarryArithmetic(Value(58, was), Value(58, now), d, carry, b, Pow(58, |was|), t / 58, t % 58);
  }

  /** One pass of the inner loop: the buffer times 256 plus a byte, and what does not fit. */
  method AddByte(buf: array<Byte>, b: Byte) returns (carry: nat)
    requires InBase(58, buf[..])
    modifies buf
    ensures InBase(58, buf[..])
    ensures Balanced(old(buf[..]), buf[..], carry, b)
  {
    ghost var was := buf[..];
    carry := b;
    var j := buf.Length;
    while j > 0
      invariant 0 <= j <= buf.Length
      invariant buf[..j] == was[..j]
      invariant InBase(58, buf[..])
      invariant Balanced(was[j..], buf[j..], carry, b)
    {
      j := j - 1;
      ghost var done := buf[j + 1..];
      CarryStep(was[j + 1..], done, was[j], carry, b);
      assert was[j..] == [was[j]] + was[j + 1..];
      assert buf[j] == was[j];
      carry := carry + 256 * (buf[j] as int);
      buf[j] := carry % 58;
      carry := carry / 58;
      assert buf[j..] == [buf[j]] + done;
    }
    assert buf[0..] == buf[..] && was[0..] == was;
  }

  /** Once `k + 1` of `n` bytes have gone in, nothing is carried out of the buffer. */
  lemma NothingCarriedOut(data: seq<Byte>, k: nat, was: seq<nat>, now: seq<nat>, carry: nat)
    requires k < |data| && |was| == |now| == BufferSize(|data|)
    requires Value(58, was) == Value(256, data[..k]) && Balanced(was, now, carry, data[k])
    ensures carry == 0
    ensures Value(58, now) == Value(256, data[..k + 1])
  {
    assert data[..k + 1][..k] == data[..k];
    ValueBound(256, data[..k + 1]);
    PowMonotone(256, k + 1, |data|);
    BufferSuffices(|data|);
    ShiftedIs(carry, |was|);
    NoCarry(Value(58, now), carry, Pow(58, |was|), Value(256, data[..k + 1]));
  }

  lemma NoCarry(v: nat, carry: nat, p: nat, total: nat)
    requires v + carry * p == total < p
    ensures carry == 0 && v == total
  {
    if carry > 0 {
      MulMonotone(1, carry, p, p);
    }
  }

  /** The outer loop: all bytes go in, one at a time, and no pass carries anything out. */
  method Accumulate(data: seq<Byte>) returns (buf: array<Byte>)
    ensures fresh(buf) && buf.Length == BufferSize(|data|)
    ensures InBase(58, buf[..]) && Value(58, buf[..]) == Value(256, data)
  {
    var size := |data| * 138 / 100 + 1;
    buf := new Byte[size](_ => 0);
    ZerosAreZero(58, buf[..]);
    for k := 0 to |data|
      invariant InBase(58, buf[..])
      invariant Value(58, buf[..]) == Value(256, data[..k])
    {
      ghost var was := buf[..];
      var carry := AddByte(buf, data[k]);
      NothingCarriedOut(data, k, was, buf[..], carry);
      assert carry == 0;
    }
    assert data[..|data|] == data;
  }

  lemma {:induction false} ZerosAreZero(base: nat, s: seq<nat>)
    requires forall i :: 0 <= i < |s| ==> s[i] == 0
    ensures Value(base, s) == 0
  {
    if s != [] {
      ZerosAreZero(base, s[..|s| - 1]);
    }
  }

  method EncodeBase58(data: seq<Byte>) returns (text: string)
    ensures text == Encoding(data)
  {
    if |data| == 0 {
      return "";
    }
    var zeros := CountZeros(data);
    var buf := Accumulate(data);
    var i := CountZeros(buf[..]);
    ValueSkipsZeros(58, buf[..]);
    ZerosLead(buf[..]);
    DigitsUnique(58, buf[i..]);
    text := Assemble(zeros, buf, i);
  }

  /** The result array: the leading ones, then the letters of `buf[i..]`. */
  method Assemble(zeros: nat, buf: array<Byte>, from: nat) returns (text: string)
    requires from <= buf.Length && InBase(58, buf[..])
    ensures InBase(58, Zeros(zeros) + buf[from..])
    ensures text == Chars(Zeros(zeros) + buf[from..])
  {
    var result := new char[zeros + buf.Length - from](_ => '1');
    var i, j := from, zeros;
    while i < buf.Length
      invariant from <= i <= buf.Length && j == zeros + i - from
      invariant forall m :: 0 <= m < zeros ==> result[m] == '1'
      invariant forall m :: from <= m < i ==> result[zeros + m - from] == Letter(buf[m])
    {
      result[j] := Letter(buf[i]);
      i, j := i + 1, j + 1;
    }
    assert Letter(0) == '1';
    return result[..];
  }

  method CountZeros(s: seq<Byte>) returns (k: nat)
    ensures k == LeadingZeros(s)
    ensures k <= |s|
  {
    k := 0;
    while k < |s| && s[k] == 0
      invariant k <= |s|
      invariant LeadingZeros(s) == k + LeadingZeros(s[k..])
    {
      assert s[k..][1..] == s[k + 1..];
      k := k + 1;
    }
  }
}
