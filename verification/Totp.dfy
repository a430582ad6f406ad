/** Time-based one-time passwords: the counter as eight bytes, the truncated digest as six
    digits (sections 5.2 and 5.3 of RFC 4226), the three steps around now (section 5.2 of RFC
    6238). */
module Totp {
  import opened Options

  type Byte = n: nat | n < 256

  const WORD := 0x1_0000_0000_0000_0000

  const PERIOD := 30

  // ----- The counter -----

  /** The number that bytes spell, most significant first. */
  function BigEndian(bytes: seq<Byte>): nat {
    if bytes == [] then 0 else 256 * BigEndian(bytes[..|bytes| - 1]) + bytes[|bytes| - 1]
  }

  function Power(k: nat): nat {
    if k == 0 then 1 else 256 * Power(k - 1)
  }

  lemma Carry(a: nat, p: nat, b: nat)
    ensures 256 * (a * p + b) == a * (256 * p) + 256 * b
  {
  }

  lemma {:induction false} BigEndianSplits(a: seq<Byte>, b: seq<Byte>)
    ensures BigEndian(a + b) == BigEndian(a) * Power(|b|) + BigEndian(b)
  {
    if b == [] {
      assert a + b == a;
    } else {
      var init := b[..|b| - 1];
      BigEndianSplits(a, init);
      assert (a + b)[..|a + b| - 1] == a + init && (a + b)[|a + b| - 1] == b[|b| - 1];
      assert BigEndian(a + b) == 256 * BigEndian(a + init) + b[|b| - 1];
      Carry(BigEndian(a), Power(|init|), BigEndian(init));
    }
  }

  lemma LastByte(p: nat, x: Byte, q: nat, y: Byte)
    requires 256 * p + x == 256 * q + y
    ensures p == q && x == y
  {
  }

  /** Equally many bytes spell different numbers. */
  lemma {:induction false} BigEndianIsInjective(a: seq<Byte>, b: seq<Byte>)
    requires |a| == |b| && BigEndian(a) == BigEndian(b)
    ensures a == b
  {
    if a != [] {
      var x, y := a[|a| - 1], b[|b| - 1];
      LastByte(BigEndian(a[..|a| - 1]), x, BigEndian(b[..|b| - 1]), y);
      BigEndianIsInjective(a[..|a| - 1], b[..|b| - 1]);
      assert a == a[..|a| - 1] + [x] && b == b[..|b| - 1] + [y];
    }
  }

  lemma PowerOfWord()
    ensures Power(8) == WORD
  {
    assert Power(4) == 0x1_0000_0000;
    assert Power(8) == 256 * 256 * 256 * 256 * Power(4);
  }

  /** counter is rest, in the i bytes still to be written, followed by tail. */
  ghost predicate Left(counter: nat, rest: nat, i: nat, tail: seq<Byte>) {
    rest < Power(i) && counter == rest * Power(|tail|) + BigEndian(tail)
  }

  lemma AllLeft(counter: nat)
    requires counter < WORD
    ensures Left(counter, counter, 8, [])
  {
    PowerOfWord();
  }

  lemma Distribute(a: nat, b: nat, p: nat)
    ensures (a + b) * p == a * p + b * p
  {
  }

  lemma Regroup(q: nat, p: nat)
    ensures 256 * q * p == q * (256 * p)
  {
  }

  lemma PutByte(counter: nat, rest: nat, i: nat, tail: seq<Byte>)
    requires i > 0 && Left(counter, rest, i, tail)
    ensures Left(counter, rest / 256, i - 1, [rest % 256] + tail)
  {
    var q, low: Byte, p := rest / 256, rest % 256, Power(|tail|);
    BigEndianSplits([low], tail);
    assert BigEndian([low]) == low by { assert [low][..0] == []; }
    assert rest == 256 * q + low;
    Distribute(256 * q, low, p);
    Regroup(q, p);
  }

  lemma NoneLeft(counter: nat, rest: nat, tail: seq<Byte>)
    requires Left(counter, rest, 0, tail)
    ensures BigEndian(tail) == counter
  {
    assert rest == 0;
  }

  /** The loop writes the low byte and shifts it out, from the last place to the first. */
  method CounterBytes(counter: nat) returns (msg: array<Byte>)
    requires counter < WORD
    ensures fresh(msg) && msg.Length == 8 && BigEndian(msg[..]) == counter
  {
    hide Power, BigEndian, Left;
    msg := new Byte[8](i => 0);
    var rest: nat := counter;
    assert msg[8..] == [];
    AllLeft(counter);
    for i := 8 downto 0
      invariant Left(counter, rest, i, msg[i..])
    {
      ghost var tail := msg[i + 1..];
      PutByte(counter, rest, i + 1, tail);
      msg[i] := rest % 256;
      rest := rest / 256;
      assert msg[i..] == [msg[i]] + tail;
    }
    assert msg[0..] == msg[..];
    NoneLeft(counter, rest, msg[..]);
  }

  // ----- Six digits -----

  predicate Digit(c: char) {
    '0' <= c <= '9'
  }

  function DigitOf(n: nat): (c: char)
    requires n < 10
    ensures Digit(c)
  {
    '0' + n as char
  }

  /** The last k decimal digits, zeros included. */
  function Decimal(n: nat, k: nat): string {
    if k == 0 then "" else Decimal(n / 10, k - 1) + [DigitOf(n % 10)]
  }

  predicate Digits(s: string) {
    forall i | 0 <= i < |s| :: Digit(s[i])
  }

  /** The number a string of digits stands for. */
  function ValueOf(s: string): nat
    requires Digits(s)
  {
    if s == "" then 0 else 10 * ValueOf(s[..|s| - 1]) + (s[|s| - 1] - '0') as nat
  }

  function Ten(k: nat): nat {
    if k == 0 then 1 else 10 * Ten(k - 1)
  }

  lemma {:induction false} DecimalIsDigits(n: nat, k: nat)
    ensures |Decimal(n, k)| == k && Digits(Decimal(n, k))
  {
    if k > 0 { DecimalIsDigits(n / 10, k - 1); }
  }

  lemma {:induction false} DecimalStandsForNumber(n: nat, k: nat)
    requires n < Ten(k)
    ensures Digits(Decimal(n, k)) && ValueOf(Decimal(n, k)) == n
  {
    DecimalIsDigits(n, k);
    if k > 0 {
      DecimalStandsForNumber(n / 10, k - 1);
      assert Decimal(n, k)[..k - 1] == Decimal(n / 10, k - 1);
    }
  }

  lemma {:induction false} NumberHasOneSpelling(s: string)
    requires Digits(s)
    ensures ValueOf(s) < Ten(|s|) && Decimal(ValueOf(s), |s|) == s
  {
    if s != "" {
      var init := s[..|s| - 1];
      NumberHasOneSpelling(init);
      assert ValueOf(s) / 10 == ValueOf(init) && DigitOf(ValueOf(s) % 10) == s[|s| - 1];
    }
  }

  // ----- One password -----

  predicate IsDigest(sum: seq<Byte>) {
    |sum| == 20
  }

  /** Dynamic truncation: four bytes from the offset in the last half byte, without the sign
      bit. The or of shifted bytes is their sum, and & 127 the remainder by 128. */
  function Truncate(sum: seq<Byte>): (n: nat)
    requires IsDigest(sum)
    ensures n < 0x8000_0000
  {
    var o := sum[|sum| - 1] % 16;
    (sum[o] % 128) as nat * 0x100_0000 + sum[o + 1] as nat * 0x1_0000 + sum[o + 2] as nat * 0x100 + sum[o + 3]
  }

  lemma FourBytes(a: Byte, b: Byte, c: Byte, d: Byte)
    ensures BigEndian([a, b, c, d]) == a as nat * 0x100_0000 + b as nat * 0x1_0000 + c as nat * 0x100 + d
  {
    assert [a, b, c, d][..3] == [a, b, c] && [a, b, c][..2] == [a, b] && [a, b][..1] == [a] && [a][..0] == [];
    assert BigEndian([a]) == a;
    assert BigEndian([a, b]) == 256 * BigEndian([a]) + b;
    assert BigEndian([a, b, c]) == 256 * BigEndian([a, b]) + c;
  }

  lemma Remainder(q: nat, x: nat)
    requires x < 0x8000_0000
    ensures (q * 0x8000_0000 + x) % 0x8000_0000 == x
  {
  }

  lemma DropSign(first: nat, rest: nat)
    requires rest < 0x100_0000
    ensures (first * 0x100_0000 + rest) % 0x8000_0000 == first % 128 * 0x100_0000 + rest
  {
    var q, low := first / 128, first % 128;
    assert first == 128 * q + low;
    Remainder(q, low * 0x100_0000 + rest);
  }

  /** The four bytes read in place, most significant first, modulo 2^31. */
  lemma TruncateReadsFourBytes(sum: seq<Byte>)
    requires IsDigest(sum)
    ensures var o := sum[19] % 16; o + 4 <= 20 && Truncate(sum) == BigEndian(sum[o..o + 4]) % 0x8000_0000
  {
    var o := sum[19] % 16;
    var four := sum[o..o + 4];
    FourBytes(four[0], four[1], four[2], four[3]);
    assert four == [sum[o], sum[o + 1], sum[o + 2], sum[o + 3]];
    DropSign(sum[o], sum[o + 1] as nat * 0x1_0000 + sum[o + 2] as nat * 0x100 + sum[o + 3]);
  }

  /** HMAC-SHA-1 is any function to 20 bytes. */
  ghost predicate IsHmac(hmac: (seq<Byte>, seq<Byte>) -> seq<Byte>) {
    forall key, msg :: IsDigest(hmac(key, msg))
  }

  predicate Spells(msg: seq<Byte>, counter: nat) {
    |msg| == 8 && BigEndian(msg) == counter
  }

  /** The password of a counter, by the standard: the six digits of the truncated digest of
      the key and the eight bytes that spell the counter. */
  ghost predicate IsHotp(hmac: (seq<Byte>, seq<Byte>) -> seq<Byte>, key: seq<Byte>, counter: nat, code: string)
    requires IsHmac(hmac)
  {
    exists msg: seq<Byte> :: Spells(msg, counter) && Digits(code) && |code| == 6
                             && ValueOf(code) == Truncate(hmac(key, msg)) % 1_000_000
  }

  /** A counter has one password. */
  lemma HotpIsUnique(hmac: (seq<Byte>, seq<Byte>) -> seq<Byte>, key: seq<Byte>, counter: nat, c: string, d: string)
    requires IsHmac(hmac) && IsHotp(hmac, key, counter, c) && IsHotp(hmac, key, counter, d)
    ensures c == d
  {
    var m: seq<Byte> :| Spells(m, counter) && ValueOf(c) == Truncate(hmac(key, m)) % 1_000_000;
    var n: seq<Byte> :| Spells(n, counter) && ValueOf(d) == Truncate(hmac(key, n)) % 1_000_000;
    BigEndianIsInjective(m, n);
    NumberHasOneSpelling(c);
    NumberHasOneSpelling(d);
  }

  /** Spelled out: six digits that stand for the four bytes of the digest from its offset on,
      read as a 31-bit number, modulo a million. */
  lemma HotpMeans(hmac: (seq<Byte>, seq<Byte>) -> seq<Byte>, key: seq<Byte>, msg: seq<Byte>, code: string)
    requires IsHmac(hmac) && |msg| == 8
    ensures var sum := hmac(key, msg);
      && |sum| == 20
      && (IsHotp(hmac, key, BigEndian(msg), code)
          <==> && |code| == 6 && (forall i | 0 <= i < 6 :: '0' <= code[i] <= '9')
               && ValueOf(code) == BigEndian(sum[sum[19] % 16..sum[19] % 16 + 4]) % 0x8000_0000 % 1_000_000)
  {
    TruncateReadsFourBytes(hmac(key, msg));
    if IsHotp(hmac, key, BigEndian(msg), code) {
      var m: seq<Byte> :| Spells(m, BigEndian(msg)) && Digits(code) && |code| == 6
                          && ValueOf(code) == Truncate(hmac(key, m)) % 1_000_000;
      BigEndianIsInjective(m, msg);
    }
    assert Spells(msg, BigEndian(msg));
  }

  // ----- Three steps around now -----

  /** now.Unix()/30: Go's division goes toward zero. */
  function StepOf(unix: int): int {
    if unix >= 0 then unix / PERIOD else -(-unix / PERIOD)
  }

  /** uint64(...) of a possibly negative step. */
  function Counter(step: int): (c: nat)
    ensures c < WORD
  {
    step % WORD
  }

  /** The passwords of the steps before, at and after now. */
  ghost predicate Accepted(hmac: (seq<Byte>, seq<Byte>) -> seq<Byte>, key: seq<Byte>, unix: int, code: string)
    requires IsHmac(hmac)
  {
    exists step: int :: StepOf(unix) - 1 <= step <= StepOf(unix) + 1 && IsHotp(hmac, key, Counter(step), code)
  }

  /** The body of the loop. */
  method Password(hmac: (seq<Byte>, seq<Byte>) -> seq<Byte>, key: seq<Byte>, counter: nat) returns (code: string)
    requires IsHmac(hmac) && counter < WORD
    ensures IsHotp(hmac, key, counter, code)
  {
    var msg := CounterBytes(counter);
    var n := Truncate(hmac(key, msg[..]));
    code := Decimal(n % 1_000_000, 6);
    DecimalIsDigits(n % 1_000_000, 6);
    assert Ten(6) == 1_000_000 by { assert Ten(3) == 1000; }
    DecimalStandsForNumber(n % 1_000_000, 6);
    assert Spells(msg[..], counter);
  }

  /** VerifyTOTP; key is what the secret decodes to, if it is base 32. */
  method Verify(hmac: (seq<Byte>, seq<Byte>) -> seq<Byte>, key: Option<seq<Byte>>, code: string, unix: int)
    returns (ok: bool)
    requires IsHmac(hmac)
    ensures ok <==> key.Some? && Accepted(hmac, key.value, unix, code)
  {
    if key.None? {
      return false;
    }
    for offset := -1 to 2
      invariant forall step | StepOf(unix) - 1 <= step < StepOf(unix) + offset ::
          !IsHotp(hmac, key.value, Counter(step), code)
    {
      var expected := Password(hmac, key.value, Counter(StepOf(unix) + offset));
      if expected == code {
        return true;
      }
      if IsHotp(hmac, key.value, Counter(StepOf(unix) + offset), code) {
        HotpIsUnique(hmac, key.value, Counter(StepOf(unix) + offset), expected, code);
      }
    }
    ok := false;
  }

  /** From 1970 on a step is thirty seconds, so that is ninety seconds; the last step before
      and the first after it are one, of 59 seconds. */
  lemma StepsAreThirtySeconds(step: int, unix: int)
    ensures step > 0 ==> (StepOf(unix) == step <==> PERIOD * step <= unix < PERIOD * (step + 1))
    ensures step < 0 ==> (StepOf(unix) == step <==> PERIOD * (step - 1) < unix <= PERIOD * step)
    ensures StepOf(unix) == 0 <==> -PERIOD < unix < PERIOD
  {
    if unix >= 0 {
      assert unix == PERIOD * StepOf(unix) + unix % PERIOD;
    } else {
      assert -unix == PERIOD * -StepOf(unix) + -unix % PERIOD;
    }
  }

  /** Steps from 1970 on count themselves, and those before wrap around. */
  lemma CounterOfStep(step: int)
    ensures 0 <= step < WORD ==> Counter(step) == step
    ensures -WORD <= step < 0 ==> Counter(step) == step + WORD
  {
    if -WORD <= step < 0 { assert step == -1 * WORD + (step + WORD); }
  }

  /** So once a step has passed, a code is accepted exactly if it is the password of a step
      that is on, ended less than thirty seconds ago, or begins within thirty seconds: each
      password for ninety seconds. */
  lemma AcceptedForNinetySeconds(hmac: (seq<Byte>, seq<Byte>) -> seq<Byte>, key: seq<Byte>, unix: int, code: string)
    requires IsHmac(hmac) && 30 <= unix < 0x8000_0000_0000_0000
    ensures Accepted(hmac, key, unix, code)
            <==> exists step: nat :: 30 * (step - 1) <= unix < 30 * (step + 2) && IsHotp(hmac, key, step, code)
  {
    hide IsHotp;
    var now := StepOf(unix);
    StepsAreThirtySeconds(now, unix);
    if Accepted(hmac, key, unix, code) {
      var step: int :| now - 1 <= step <= now + 1 && IsHotp(hmac, key, Counter(step), code);
      CounterOfStep(step);
    }
    if step: nat :| 30 * (step - 1) <= unix < 30 * (step + 2) && IsHotp(hmac, key, step, code) {
      CounterOfStep(step);
      assert now - 1 <= step <= now + 1;
    }
  }

  /** Between steps the counters differ, so no step stands in for another. */
  lemma CountersDiffer(a: int, b: int)
    requires -(WORD / 2) <= a < b < WORD / 2
    ensures Counter(a) != Counter(b)
  {
    assert b - a == (b / WORD - a / WORD) * WORD + Counter(b) - Counter(a);
  }
}
