/** Spaces around a text. */
module Texts {
  predicate Space(c: char) {
    c == ' ' || '\t' <= c <= '\r'
  }

  function TrimLeft(s: string): string {
    if s != "" && Space(s[0]) then TrimLeft(s[1..]) else s
  }

  function TrimRight(s: string): string {
    if s != "" && Space(s[|s| - 1]) then TrimRight(s[..|s| - 1]) else s
  }

  function TrimSpace(s: string): string {
    TrimRight(TrimLeft(s))
  }

  /** Neither the first nor the last character is a space. */
  predicate Trimmed(s: string) {
    s == "" || (!Space(s[0]) && !Space(s[|s| - 1]))
  }

  predicate Spaces(s: string) {
    forall i | 0 <= i < |s| :: Space(s[i])
  }

  lemma {:induction false} TrimLeftShrinks(s: string)
    ensures TrimLeft(s) == s || |TrimLeft(s)| < |s|
    ensures forall c | c in TrimLeft(s) :: c in s
    ensures TrimLeft(s) == s ==> s == "" || !Space(s[0])
  {
    if s != "" && Space(s[0]) { TrimLeftShrinks(s[1..]); }
  }

  lemma {:induction false} TrimRightShrinks(s: string)
    ensures TrimRight(s) == s || |TrimRight(s)| < |s|
    ensures forall c | c in TrimRight(s) :: c in s
    ensures TrimRight(s) == s ==> s == "" || !Space(s[|s| - 1])
  {
    if s != "" && Space(s[|s| - 1]) { TrimRightShrinks(s[..|s| - 1]); }
  }

  lemma {:induction false} LeadingSpaces(before: string, s: string)
    requires Spaces(before) && (s == "" || !Space(s[0]))
    ensures TrimLeft(before + s) == s
  {
    if before == "" {
      assert before + s == s;
    } else {
      assert (before + s)[1..] == before[1..] + s;
      LeadingSpaces(before[1..], s);
    }
  }

  lemma {:induction false} TrailingSpaces(s: string, after: string)
    requires Spaces(after) && (s == "" || !Space(s[|s| - 1]))
    ensures TrimRight(s + after) == s
  {
    if after == "" {
      assert s + after == s;
    } else {
      var init := after[..|after| - 1];
      assert (s + after)[..|s + after| - 1] == s + init;
      TrailingSpaces(s, init);
    }
  }

  /** Spaces around a trimmed string are taken off, and nothing else. */
  lemma TrimTakesTheSpaces(before: string, s: string, after: string)
    requires Spaces(before) && Trimmed(s) && Spaces(after)
    ensures TrimSpace(before + s + after) == s
  {
    if s == "" {
      LeadingSpaces(before + after, "");
      assert before + s + after == before + after && (before + after) + "" == before + after;
    } else {
      assert before + s + after == before + (s + after) && (s + after)[0] == s[0];
      LeadingSpaces(before, s + after);
      TrailingSpaces(s, after);
    }
  }

  lemma TrimShrinks(s: string)
    ensures if Trimmed(s) then TrimSpace(s) == s else |TrimSpace(s)| < |s|
    ensures forall c | c in TrimSpace(s) :: c in s
  {
    TrimLeftShrinks(s);
    TrimRightShrinks(TrimLeft(s));
    if Trimmed(s) {
      TrimTakesTheSpaces("", s, "");
      assert "" + s + "" == s;
    }
  }

  lemma {:induction false} TrimLeftKeeps(s: string, c: char)
    requires c in s && !Space(c)
    ensures c in TrimLeft(s)
  {
    if Space(s[0]) { TrimLeftKeeps(s[1..], c); }
  }

  lemma {:induction false} TrimRightKeeps(s: string, c: char)
    requires c in s && !Space(c)
    ensures c in TrimRight(s)
  {
    if Space(s[|s| - 1]) { TrimRightKeeps(s[..|s| - 1], c); }
  }

  /** A text is blank exactly if it is made of spaces. */
  lemma BlankIffSpaces(s: string)
    ensures TrimSpace(s) == "" <==> Spaces(s)
    ensures Spaces(s) <==> forall i | 0 <= i < |s| :: s[i] == ' ' || 9 <= s[i] as int <= 13
  {
    if Spaces(s) {
      TrimTakesTheSpaces("", "", s);
      assert "" + "" + s == s;
    } else {
      var i :| 0 <= i < |s| && !Space(s[i]);
      TrimLeftKeeps(s, s[i]);
      TrimRightKeeps(TrimLeft(s), s[i]);
    }
  }
}
