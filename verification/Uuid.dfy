/** The texts that a uuid column takes for the same value, and the one it gives back. */
module Uuid {
  import opened Options

  predicate HexDigit(c: char) {
    '0' <= c <= '9' || 'a' <= c <= 'f' || 'A' <= c <= 'F'
  }

  function Lower(c: char): char {
    if 'A' <= c <= 'F' then c + 32 as char else c
  }

  const DIGITS := 32

  function AfterHyphen(s: string, n: nat): (r: string)
    ensures |r| <= |s|
  {
    if n % 4 == 0 && n < DIGITS && s != "" && s[0] == '-' then s[1..] else s
  }

  /** Reads the digits from the n-th on; a hyphen may follow every fourth but the last. */
  function Read(s: string, n: nat): Option<string>
    decreases |s|
  {
    if n == DIGITS then if s == "" then Some("") else None
    else if s == "" || !HexDigit(s[0]) then None
    else
      var rest := Read(AfterHyphen(s[1..], n + 1), n + 1);
      if rest.None? then None else Some([Lower(s[0])] + rest.value)
  }

  predicate EndsGroup(n: nat) {
    n == 7 || n == 11 || n == 15 || n == 19
  }

  function Hyphen(n: nat): string {
    if EndsGroup(n) then "-" else ""
  }

  /** The digits from the n-th on, in groups of 8, 4, 4, 4 and 12. */
  function Shown(digits: string, n: nat): string
    requires n <= |digits| == DIGITS
    decreases DIGITS - n
  {
    if n == DIGITS then ""
    else [digits[n]] + (Hyphen(n) + Shown(digits, n + 1))
  }

  predicate Lowercase(digits: string) {
    |digits| == DIGITS && forall i | 0 <= i < DIGITS :: HexDigit(digits[i]) && Lower(digits[i]) == digits[i]
  }

  /** The canonical text of the value that s stands for; braces may enclose the digits. */
  function Canon(s: string): Option<string> {
    var body := if |s| >= 2 && s[0] == '{' && s[|s| - 1] == '}' then s[1..|s| - 1] else s;
    var digits := Read(body, 0);
    if digits.Some? && |digits.value| == DIGITS then Some(Shown(digits.value, 0)) else None
  }

  lemma {:induction false} ReadGivesDigits(s: string, n: nat)
    requires n <= DIGITS && Read(s, n).Some?
    ensures |Read(s, n).value| == DIGITS - n
    ensures forall i | 0 <= i < DIGITS - n ::
              HexDigit(Read(s, n).value[i]) && Lower(Read(s, n).value[i]) == Read(s, n).value[i]
    ensures forall c | c in s :: HexDigit(c) || c == '-'
    decreases |s|
  {
    if n < DIGITS {
      var rest := AfterHyphen(s[1..], n + 1);
      ReadGivesDigits(rest, n + 1);
      forall c | c in s ensures HexDigit(c) || c == '-' {
        assert c == s[0] || c in s[1..];
        assert c in s[1..] ==> c in rest || c == '-';
      }
    }
  }

  lemma ShownStarts(digits: string, n: nat)
    requires n <= |digits| == DIGITS
    ensures if n == DIGITS then Shown(digits, n) == ""
            else Shown(digits, n) != "" && Shown(digits, n)[0] == digits[n]
                 && Shown(digits, n)[1..] == Hyphen(n) + Shown(digits, n + 1)
  {
    if n < DIGITS {
      var tail := Hyphen(n) + Shown(digits, n + 1);
      assert Shown(digits, n) == [digits[n]] + tail;
      hide *;
    }
  }

  lemma DigitAt(digits: string, n: nat)
    requires Lowercase(digits) && n < DIGITS
    ensures HexDigit(digits[n]) && Lower(digits[n]) == digits[n] && digits[n] != '-'
    ensures digits[n..] == [digits[n]] + digits[n + 1..] && digits[n..][1..] == digits[n + 1..]
  {
  }

  lemma HyphenIsSkipped(digits: string, tail: string, n: nat)
    requires Lowercase(digits) && n < DIGITS
    requires n + 1 < DIGITS ==> tail != "" && tail[0] == digits[n + 1]
    requires n + 1 == DIGITS ==> tail == ""
    ensures AfterHyphen(Hyphen(n) + tail, n + 1) == tail
  {
    assert n + 1 < DIGITS ==> HexDigit(digits[n + 1]);
    if EndsGroup(n) {
      assert (n + 1) % 4 == 0 && ("-" + tail)[1..] == tail;
    } else {
      assert "" + tail == tail;
    }
  }

  lemma ReadOne(s: string, n: nat, rest: string)
    requires n < DIGITS && s != "" && HexDigit(s[0]) && Read(AfterHyphen(s[1..], n + 1), n + 1) == Some(rest)
    ensures Read(s, n) == Some([Lower(s[0])] + rest)
  {
  }

  /** The canonical text is read back as it is. */
  lemma {:induction false} ShownIsRead(digits: string, n: nat)
    requires Lowercase(digits) && n <= DIGITS
    ensures Read(Shown(digits, n), n) == Some(digits[n..])
    decreases DIGITS - n
  {
    if n == DIGITS {
      assert digits[n..] == "";
    } else {
      ShownIsRead(digits, n + 1);
      hide *;
      DigitAt(digits, n);
      ShownStarts(digits, n);
      ShownStarts(digits, n + 1);
      HyphenIsSkipped(digits, Shown(digits, n + 1), n);
      ReadOne(Shown(digits, n), n, digits[n + 1..]);
    }
  }

  function HyphensFrom(n: nat): nat {
    if n <= 7 then 4 else if n <= 11 then 3 else if n <= 15 then 2 else if n <= 19 then 1 else 0
  }

  lemma {:induction false} ShownLength(digits: string, n: nat)
    requires n <= |digits| == DIGITS
    ensures |Shown(digits, n)| == DIGITS - n + HyphensFrom(n)
    decreases DIGITS - n
  {
    if n < DIGITS { ShownLength(digits, n + 1); }
  }

  /** What follows a group that ends before the n-th digit. */
  function ShownAfter(digits: string, n: nat): string
    requires n <= |digits| == DIGITS
  {
    if n == DIGITS then "" else "-" + Shown(digits, n)
  }

  lemma ShownStep(digits: string, n: nat)
    requires n < |digits| == DIGITS
    ensures Shown(digits, n)
            == [digits[n]] + if EndsGroup(n) then "-" + Shown(digits, n + 1) else Shown(digits, n + 1)
  {
    assert "" + Shown(digits, n + 1) == Shown(digits, n + 1);
  }

  lemma NoneShown(digits: string)
    requires |digits| == DIGITS
    ensures Shown(digits, DIGITS) == ""
  {
  }

  lemma Longer(digits: string, n: nat, m: nat, rest: string)
    requires n < m <= |digits|
    ensures [digits[n]] + (digits[n + 1..m] + rest) == digits[n..m] + rest
  {
    assert digits[n..m] == [digits[n]] + digits[n + 1..m];
  }

  lemma {:induction false} ShownGroup(digits: string, n: nat, m: nat)
    requires n < m <= |digits| == DIGITS && (m == DIGITS || EndsGroup(m - 1))
    requires forall k | n <= k < m - 1 :: !EndsGroup(k)
    ensures Shown(digits, n) == digits[n..m] + ShownAfter(digits, m)
    decreases m - n
  {
    hide Shown;
    ShownStep(digits, n);
    Longer(digits, n, m, ShownAfter(digits, m));
    if n + 1 < m {
      ShownGroup(digits, n + 1, m);
    } else {
      NoneShown(digits);
      assert digits[n + 1..m] == "";
      assert "" + ShownAfter(digits, m) == ShownAfter(digits, m);
    }
  }

  lemma Regroup(a: string, b: string, c: string, d: string, e: string)
    ensures a + ("-" + (b + ("-" + (c + ("-" + (d + ("-" + (e + "")))))))) == a + "-" + b + "-" + c + "-" + d + "-" + e
  {
  }

  /** The canonical text is five groups of digits with hyphens between. */
  lemma ShownInGroups(digits: string)
    requires |digits| == 32
    ensures Shown(digits, 0)
            == digits[0..8] + "-" + digits[8..12] + "-" + digits[12..16] + "-" + digits[16..20] + "-" + digits[20..32]
  {
    hide Shown;
    ShownGroup(digits, 0, 8);
    ShownGroup(digits, 8, 12);
    ShownGroup(digits, 12, 16);
    ShownGroup(digits, 16, 20);
    ShownGroup(digits, 20, 32);
    Regroup(digits[0..8], digits[8..12], digits[12..16], digits[16..20], digits[20..32]);
  }

  lemma ShownIsCanonical(digits: string)
    requires Lowercase(digits)
    ensures Canon(Shown(digits, 0)) == Some(Shown(digits, 0)) && |Shown(digits, 0)| == 36
  {
    ShownIsRead(digits, 0);
    ShownLength(digits, 0);
    hide Shown, Read;
    assert digits[0..] == digits && HexDigit(digits[0]);
  }

  /** A canonical text stands for itself, and no text of a value holds a colon. */
  lemma CanonIsCanonical(s: string)
    requires Canon(s).Some?
    ensures Canon(Canon(s).value) == Canon(s) && |Canon(s).value| == 36
    ensures forall c | c in s ::
              '0' <= c <= '9' || 'a' <= c <= 'f' || 'A' <= c <= 'F' || c == '-' || c == '{' || c == '}'
    ensures ':' !in s
  {
    hide Shown, Read;
    var braced := |s| >= 2 && s[0] == '{' && s[|s| - 1] == '}';
    var body := if braced then s[1..|s| - 1] else s;
    ReadGivesDigits(body, 0);
    ShownIsCanonical(Read(body, 0).value);
    if braced { assert s == "{" + body + "}"; }
    assert HexDigit(':') == false;
  }

  lemma NoHyphenAt(digits: string, n: nat)
    requires Lowercase(digits) && n <= DIGITS
    ensures AfterHyphen(digits[n..], n) == digits[n..]
  {
    if n < DIGITS { DigitAt(digits, n); }
  }

  lemma {:induction false} PlainDigitsAreRead(digits: string, n: nat)
    requires Lowercase(digits) && n <= DIGITS
    ensures Read(digits[n..], n) == Some(digits[n..])
    decreases DIGITS - n
  {
    if n < DIGITS {
      PlainDigitsAreRead(digits, n + 1);
      hide *;
      DigitAt(digits, n);
      NoHyphenAt(digits, n + 1);
      ReadOne(digits[n..], n, digits[n + 1..]);
    }
  }

  /** 32 digits without hyphens, as the remote sessions are named, are the same value as their
      hyphenated form, and not its text. */
  lemma PlainDigitsAreNotCanonical(digits: string)
    requires Lowercase(digits)
    ensures Canon(digits) == Some(Shown(digits, 0)) && Shown(digits, 0) != digits
  {
    PlainDigitsAreRead(digits, 0);
    ShownLength(digits, 0);
    hide Shown, Read;
    assert digits[0..] == digits && HexDigit(digits[0]);
  }

  function Uppercased(s: string): string {
    seq(|s|, i requires 0 <= i < |s| => if 'a' <= s[i] <= 'f' then s[i] - 32 as char else s[i])
  }

  /** Upper case is another text of the same value. */
  lemma {:induction false} UppercaseIsRead(s: string, n: nat)
    ensures Read(Uppercased(s), n) == Read(s, n)
    decreases |s|
  {
    if n != DIGITS && s != "" {
      assert Uppercased(s)[1..] == Uppercased(s[1..]);
      var rest := AfterHyphen(s[1..], n + 1);
      assert AfterHyphen(Uppercased(s[1..]), n + 1) == Uppercased(rest) by {
        if rest != s[1..] { assert Uppercased(s[1..])[1..] == Uppercased(rest); }
      }
      UppercaseIsRead(rest, n + 1);
    }
  }

  lemma UppercaseIsSameValue(s: string)
    ensures Canon(Uppercased(s)) == Canon(s)
  {
    hide Read, Shown;
    UppercaseIsRead(s, 0);
    if |s| >= 2 {
      assert Uppercased(s)[1..|s| - 1] == Uppercased(s[1..|s| - 1]);
      UppercaseIsRead(s[1..|s| - 1], 0);
    }
  }
}
