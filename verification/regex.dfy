/** The part of Python's `re` engine that the cleaner relies on: patterns anchored at the
    start of the text (`^...`) built from single characters, greedy `*` and greedy `?`
    over character classes, matched by backtracking, and `re.sub(pattern, '', text)`. */
module Regex {
  import opened Wrappers
  import opened Text

  /** One element of a pattern: exactly one character of a class, a greedy `*` over a
      class, or a greedy `?` over a class. */
  datatype Atom = One(cls: CharClass) | Star(cls: CharClass) | Opt(cls: CharClass)

  type Pattern = seq<Atom>

  /** The length of the match that a backtracking engine reports for `p` at the start of
      `s`, or None when `p` does not match there. Alternatives are tried in the engine's
      order: a greedy `*` or `?` first tries to consume one more character and only falls
      back to consuming nothing when the rest of the pattern then fails. */
  function MatchPrefix(p: Pattern, s: string): (m: Option<nat>)
    ensures m.Some? ==> m.value <= |s|
    decreases |s|, |p|
  {
    if |p| == 0 then Some(0)
    else
      match p[0]
      case One(c) =>
        if |s| > 0 && c.Contains(s[0]) then Shift(MatchPrefix(p[1..], s[1..]), 1) else None
      case Star(c) =>
        var longer := if |s| > 0 && c.Contains(s[0]) then Shift(MatchPrefix(p, s[1..]), 1) else None;
        if longer.Some? then longer else MatchPrefix(p[1..], s)
      case Opt(c) =>
        var taken := if |s| > 0 && c.Contains(s[0]) then Shift(MatchPrefix(p[1..], s[1..]), 1) else None;
        if taken.Some? then taken else MatchPrefix(p[1..], s)
  }

  /** `re.sub(p, '', s)` for a pattern anchored with `^`: the match, if any, can only be
      at position 0, and it is deleted. */
  function Substitute(p: Pattern, s: string): (r: string)
    ensures |r| <= |s| && r == s[|s| - |r|..]
    ensures MatchPrefix(p, s).None? ==> r == s
  {
    match MatchPrefix(p, s)
    case None => s
    case Some(n) => s[n..]
  }

  /** `re.escape(w)` matched under `re.IGNORECASE`: one case-insensitive character per
      character of `w`. */
  function Literal(w: string): (p: Pattern)
    ensures |p| == |w|
  {
    if |w| == 0 then [] else [One(IgnoringCase(w[0]))] + Literal(w[1..])
  }

  /** A pattern that can match the empty string: no atom demands a character. */
  predicate Nullable(p: Pattern) {
    forall i :: 0 <= i < |p| ==> !p[i].One?
  }

  /** A pattern made only of `*` and `?` atoms matches at the start of every text. */
  lemma {:induction false} NullableMatches(p: Pattern, s: string)
    requires Nullable(p)
    ensures MatchPrefix(p, s).Some?
    decreases |s|, |p|
  {
    if |p| > 0 {
      assert Nullable(p[1..]) by {
        forall i | 0 <= i < |p| - 1 ensures !p[1..][i].One? {
          assert p[1..][i] == p[i + 1];
        }
      }
      NullableMatches(p[1..], s);
      match p[0]
      case Star(c) =>
      case Opt(c) =>
    }
  }

  lemma ShiftShift(m: Option<nat>, a: nat, b: nat)
    ensures Shift(Shift(m, a), b) == Shift(m, a + b)
  {
  }

  /** A case-insensitive literal matches exactly when the text starts with the word
      (ignoring case), and then the rest of the pattern continues right after it. */
  lemma {:induction false} LiteralThen(w: string, rest: Pattern, s: string)
    ensures MatchPrefix(Literal(w) + rest, s)
         == if StartsWithCI(s, w) then Shift(MatchPrefix(rest, s[|w|..]), |w|) else None
    decreases |w|
  {
    var p := Literal(w) + rest;
    if |w| == 0 {
      assert p == rest;
      assert s[0..] == s;
      match MatchPrefix(rest, s)
      case None =>
      case Some(n) =>
    } else {
      assert p[0] == One(IgnoringCase(w[0]));
      assert p[1..] == Literal(w[1..]) + rest;
      if |s| > 0 && EqCI(s[0], w[0]) {
        LiteralThen(w[1..], rest, s[1..]);
        assert StartsWithCI(s, w) <==> StartsWithCI(s[1..], w[1..]) by {
          if StartsWithCI(s[1..], w[1..]) {
            forall i | 0 <= i < |w| ensures EqCI(s[i], w[i]) {
              if i > 0 {
                assert EqCI(s[1..][i - 1], w[1..][i - 1]);
              }
            }
          }
          if StartsWithCI(s, w) {
            forall i | 0 <= i < |w| - 1 ensures EqCI(s[1..][i], w[1..][i]) {
              assert EqCI(s[i + 1], w[i + 1]);
            }
          }
        }
        if StartsWithCI(s, w) {
          assert s[1..][|w| - 1..] == s[|w|..];
          ShiftShift(MatchPrefix(rest, s[|w|..]), |w| - 1, 1);
        }
      } else {
        assert !StartsWithCI(s, w) by {
          if |s| > 0 {
            assert !EqCI(s[0], w[0]);
          }
        }
      }
    }
  }

  /** A greedy `*` followed by an atom that accepts none of the starred characters
      consumes the whole run of starred characters: backtracking into the run cannot
      help, since every shorter attempt meets a starred character. */
  lemma {:induction false} StarThenDisjoint(c: CharClass, d: CharClass, rest: Pattern, s: string)
    requires forall x :: c.Contains(x) ==> !d.Contains(x)
    ensures var k := RunLength(c, s);
      MatchPrefix([Star(c), One(d)] + rest, s) == Shift(MatchPrefix([One(d)] + rest, s[k..]), k)
    decreases |s|
  {
    var p := [Star(c), One(d)] + rest;
    var q := [One(d)] + rest;
    assert p[0] == Star(c);
    assert p[1..] == q;
    assert q[0] == One(d);
    var k := RunLength(c, s);
    if |s| > 0 && c.Contains(s[0]) {
      StarThenDisjoint(c, d, rest, s[1..]);
      assert RunLength(c, s[1..]) == k - 1;
      assert s[1..][k - 1..] == s[k..];
      ShiftShift(MatchPrefix(q, s[k..]), k - 1, 1);
      assert !d.Contains(s[0]);
      assert MatchPrefix(q, s) == None;
    } else {
      assert k == 0;
      assert s[0..] == s;
      match MatchPrefix(q, s)
      case None =>
      case Some(n) =>
    }
  }

  /** A greedy `*` followed by a pattern that always matches takes the whole run of
      starred characters, and the rest of the pattern continues after it. */
  lemma {:induction false} StarThenNullable(c: CharClass, rest: Pattern, s: string)
    requires Nullable(rest)
    ensures var k := RunLength(c, s);
      MatchPrefix([Star(c)] + rest, s) == Shift(MatchPrefix(rest, s[k..]), k)
    decreases |s|
  {
    var p := [Star(c)] + rest;
    assert p[0] == Star(c);
    assert p[1..] == rest;
    var k := RunLength(c, s);
    if |s| > 0 && c.Contains(s[0]) {
      StarThenNullable(c, rest, s[1..]);
      assert RunLength(c, s[1..]) == k - 1;
      assert s[1..][k - 1..] == s[k..];
      ShiftShift(MatchPrefix(rest, s[k..]), k - 1, 1);
      NullableMatches(rest, s[k..]);
    } else {
      assert k == 0;
      assert s[0..] == s;
      match MatchPrefix(rest, s)
      case None =>
      case Some(n) =>
    }
  }

  /** A greedy `?` followed by a pattern that always matches takes its character whenever
      the text offers one. */
  lemma {:induction false} OptThenNullable(c: CharClass, rest: Pattern, s: string)
    requires Nullable(rest)
    ensures MatchPrefix([Opt(c)] + rest, s)
         == if |s| > 0 && c.Contains(s[0]) then Shift(MatchPrefix(rest, s[1..]), 1) else MatchPrefix(rest, s)
  {
    var p := [Opt(c)] + rest;
    assert p[0] == Opt(c);
    assert p[1..] == rest;
    if |s| > 0 && c.Contains(s[0]) {
      NullableMatches(rest, s[1..]);
    }
  }
}
