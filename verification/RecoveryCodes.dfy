/** How a recovery code is shown, and what of its spelling counts when it is typed. */
module RecoveryCodes {
  import opened Texts

  function WithoutDashes(s: string): string {
    if s == "" then ""
    else if s[0] == '-' then WithoutDashes(s[1..])
    else [s[0]] + WithoutDashes(s[1..])
  }

  function Upper(c: char): char {
    if 'a' <= c <= 'z' then c - 32 as char else c
  }

  function ToUpper(s: string): string {
    seq(|s|, i requires 0 <= i < |s| => Upper(s[i]))
  }

  function Normalize(s: string): string {
    ToUpper(WithoutDashes(TrimSpace(s)))
  }

  /** The alphabet of base 32 (section 6 of RFC 4648). */
  predicate Base32(c: char) {
    'A' <= c <= 'Z' || '2' <= c <= '7'
  }

  predicate Code(s: string) {
    |s| == 16 && forall i | 0 <= i < |s| :: Base32(s[i])
  }

  /** Four groups of four. */
  function Shown(s: string): string
    requires |s| == 16
  {
    s[0..4] + "-" + s[4..8] + "-" + s[8..12] + "-" + s[12..16]
  }

  lemma Associate(a: string, b: string, c: string)
    ensures a + (b + c) == (a + b) + c
  {
  }

  lemma {:induction false} DashesGo(a: string, b: string)
    ensures WithoutDashes(a + b) == WithoutDashes(a) + WithoutDashes(b)
  {
    if a == "" {
      assert a + b == b;
    } else {
      DashesGo(a[1..], b);
      assert (a + b)[1..] == a[1..] + b && (a + b)[0] == a[0];
      Associate([a[0]], WithoutDashes(a[1..]), WithoutDashes(b));
    }
  }

  /** The same character, or the same letter in the other case. */
  predicate SameLetter(c: char, d: char) {
    || c == d
    || ('a' <= c <= 'z' && c as int - 'a' as int == d as int - 'A' as int)
    || ('A' <= c <= 'Z' && c as int - 'A' as int == d as int - 'a' as int)
  }

  /** t is s with each letter in either case. */
  predicate SameLetters(s: string, t: string) {
    |s| == |t| && forall i | 0 <= i < |s| :: SameLetter(s[i], t[i])
  }

  lemma {:induction false} LettersSurviveDashes(s: string, t: string)
    requires SameLetters(s, t)
    ensures SameLetters(WithoutDashes(s), WithoutDashes(t))
  {
    if s != "" {
      LettersSurviveDashes(s[1..], t[1..]);
      assert SameLetter(s[0], t[0]);
    }
  }

  /** However a code is typed, in either case, with dashes anywhere, and with spaces around
      it: it is looked up under the code itself. */
  lemma SpellingDoesNotMatter(code: string, typed: string, before: string, after: string)
    requires Code(code) && Trimmed(typed) && SameLetters(WithoutDashes(typed), code)
    requires Spaces(before) && Spaces(after)
    ensures Normalize(before + typed + after) == code
  {
    TrimTakesTheSpaces(before, typed, after);
    forall i | 0 <= i < |code| ensures ToUpper(WithoutDashes(typed))[i] == code[i] {
      assert Base32(code[i]) && SameLetter(WithoutDashes(typed)[i], code[i]);
    }
  }

  lemma {:induction false} NoDashes(s: string)
    requires forall i | 0 <= i < |s| :: s[i] != '-'
    ensures WithoutDashes(s) == s
  {
    if s != "" { NoDashes(s[1..]); }
  }

  lemma GroupHasNoDashes(code: string, i: nat, j: nat)
    requires Code(code) && i <= j <= 16
    ensures WithoutDashes(code[i..j]) == code[i..j]
  {
    forall k | 0 <= k < j - i ensures code[i..j][k] != '-' {
      assert Base32(code[i + k]);
    }
    NoDashes(code[i..j]);
  }

  lemma DashBetween(a: string, b: string)
    ensures WithoutDashes(a + "-" + b) == WithoutDashes(a) + WithoutDashes(b)
  {
    DashesGo(a + "-", b);
    DashesGo(a, "-");
    assert WithoutDashes("-") == "" by { assert "-"[1..] == ""; }
  }

  lemma ShownWithoutDashes(code: string)
    requires Code(code)
    ensures WithoutDashes(Shown(code)) == code
  {
    hide WithoutDashes;
    var a, b, c, d := code[0..4], code[4..8], code[8..12], code[12..16];
    GroupHasNoDashes(code, 0, 4);
    GroupHasNoDashes(code, 4, 8);
    GroupHasNoDashes(code, 8, 12);
    GroupHasNoDashes(code, 12, 16);
    DashBetween(a + "-" + b + "-" + c, d);
    DashBetween(a + "-" + b, c);
    DashBetween(a, b);
    assert code == a + b + c + d;
  }

  /** The way it is shown is one of those. */
  lemma ShownIsTypeable(code: string)
    requires Code(code)
    ensures |Shown(code)| == 19 && forall i | 0 <= i < 19 :: Shown(code)[i] == '-' <==> i == 4 || i == 9 || i == 14
    ensures Trimmed(Shown(code)) && WithoutDashes(Shown(code)) == code
    ensures Normalize(Shown(code)) == code
  {
    ShownWithoutDashes(code);
    forall i | 0 <= i < 19 ensures Shown(code)[i] == '-' <==> i == 4 || i == 9 || i == 14 {
      assert forall k | 0 <= k < 16 :: Base32(code[k]);
    }
    assert Base32(code[0]) && Base32(code[15]) && Shown(code)[0] == code[0] && Shown(code)[18] == code[15];
    SpellingDoesNotMatter(code, Shown(code), "", "");
    assert "" + Shown(code) + "" == Shown(code);
  }

  // ----- Normalising twice -----

  lemma {:induction false} DashesStayGone(s: string)
    ensures '-' !in WithoutDashes(s) && '-' !in ToUpper(WithoutDashes(s))
  {
    if s != "" {
      DashesStayGone(s[1..]);
      var rest := WithoutDashes(s[1..]);
      forall i | 0 <= i < |rest| ensures rest[i] != '-' && Upper(rest[i]) != '-' {
        assert rest[i] in rest && ToUpper(rest)[i] in ToUpper(rest);
      }
    }
  }

  lemma NormalizeUpper(d: string)
    requires '-' !in ToUpper(d)
    ensures Normalize(ToUpper(d)) == ToUpper(d) <==> Trimmed(d)
  {
    var n := ToUpper(d);
    assert Trimmed(n) == Trimmed(d);
    TrimShrinks(n);
    NoDashes(TrimSpace(n));
    if TrimSpace(n) == n {
      forall i | 0 <= i < |n| ensures Upper(n[i]) == n[i] {}
      assert ToUpper(n) == n;
    }
  }

  /** Normalising is idempotent exactly on the strings that taking the dashes off leaves
      without a space at either end. */
  lemma IdempotentIffTrimmedWithoutDashes(s: string)
    ensures Normalize(Normalize(s)) == Normalize(s) <==> Trimmed(WithoutDashes(TrimSpace(s)))
  {
    var d := WithoutDashes(TrimSpace(s));
    DashesStayGone(TrimSpace(s));
    NormalizeUpper(d);
  }

  /** Such strings exist. */
  lemma NotIdempotentInGeneral()
    ensures Normalize("- a") == " A" && Normalize(" A") == "A"
  {
    assert TrimLeft("- a") == "- a" && TrimRight("- a") == "- a";
    assert "- a"[1..] == " a" && " a"[1..] == "a" && "a"[1..] == "";
    assert WithoutDashes("a") == "a" && WithoutDashes(" a") == " a";
    assert ToUpper(" a") == " A";
    assert " A"[1..] == "A" && "A"[1..] == "";
    assert TrimLeft(" A") == TrimLeft("A") == "A" && TrimRight("A") == "A";
    assert WithoutDashes("A") == "A" && ToUpper("A") == "A";
  }
}
