/** `clean_definition`: the five clean-up steps applied to a model's answer, each an
    anchored regular-expression deletion (or prefix cut) followed by `strip()`. */
module Cleaner {
  import opened Wrappers
  import opened Text
  import opened Regex

  /** `\d*\.?\s*`: optional sense number, optional period, optional spaces. */
  const NumberTail: Pattern := [Star(Digit), Opt(Exactly('.')), Star(Space)]

  /** `^word\s*:\s*`, case-insensitive. */
  function WordColonPattern(word: string): Pattern {
    Literal(word) + [Star(Space), One(Exactly(':')), Star(Space)]
  }

  /** `^:\s*` */
  const ColonPattern: Pattern := [One(Exactly(':')), Star(Space)]

  /** `^word\s*\d*\.?\s*`, case-insensitive. */
  function WordNumberPattern(word: string): Pattern {
    Literal(word) + ([Star(Space)] + NumberTail)
  }

  /** `^(\d+\.?\s*)` */
  const NumberingPattern: Pattern := [One(Digit)] + NumberTail

  /** The unwanted lead-ins, in the order they are checked. */
  const LeadIns: seq<string> := ["definisi:", "arti:", "makna:", "pengertian:"]

  /** Step 1: delete a leading `word:` (any case, spaces around the colon), then strip. */
  function StripWordColon(word: string, s: string): string {
    Strip(Substitute(WordColonPattern(word), s))
  }

  /** Step 2: delete a bare leading colon and the spaces after it, then strip. */
  function StripLeadingColon(s: string): string {
    Strip(Substitute(ColonPattern, s))
  }

  /** Step 3: if the lower-cased text still starts with the lower-cased word, delete the
      word (any case) with a following sense number and period, then strip. */
  function StripRepeatedWord(word: string, s: string): string {
    if LowerStr(word) <= LowerStr(s) then Strip(Substitute(WordNumberPattern(word), s)) else s
  }

  /** Step 4: delete a leading enumeration such as `1. `, then strip. */
  function StripNumbering(s: string): string {
    Strip(Substitute(NumberingPattern, s))
  }

  /** One round of step 5: cut the lead-in `p` (given in lower case) if the lower-cased
      text starts with it, then strip. */
  function DropLeadIn(s: string, p: string): string {
    if p <= LowerStr(s) then Strip(s[|p|..]) else s
  }

  /** Step 5: the lead-ins checked one after the other, each at most once. */
  function DropLeadIns(s: string, ps: seq<string>): string
    decreases |ps|
  {
    if |ps| == 0 then s else DropLeadIns(DropLeadIn(s, ps[0]), ps[1..])
  }

  /** `clean_definition(word, definition)`. */
  function Clean(word: string, definition: string): string {
    var d1 := StripWordColon(word, definition);
    var d2 := StripLeadingColon(d1);
    var d3 := StripRepeatedWord(word, d2);
    var d4 := StripNumbering(d3);
    DropLeadIns(d4, LeadIns)
  }

  /** Deleting an anchored match and stripping keeps a piece of the text. */
  lemma {:induction false} SubstituteStripInfix(p: Pattern, s: string)
    ensures IsInfix(Strip(Substitute(p, s)), s)
  {
    var t := Substitute(p, s);
    InfixOfSuffix(s, |s| - |t|);
    StripInfix(t);
    InfixTransitive(Strip(t), t, s);
  }

  /** Step 5 keeps a piece of its input, and keeps trimmed text trimmed. */
  lemma {:induction false} DropLeadInsTrimmedInfix(s: string, ps: seq<string>)
    ensures IsInfix(DropLeadIns(s, ps), s)
    ensures IsTrimmed(s) ==> IsTrimmed(DropLeadIns(s, ps))
    decreases |ps|
  {
    if |ps| == 0 {
      InfixOfItself(s);
    } else {
      var t := DropLeadIn(s, ps[0]);
      if ps[0] <= LowerStr(s) {
        InfixOfSuffix(s, |ps[0]|);
        StripInfix(s[|ps[0]|..]);
        InfixTransitive(t, s[|ps[0]|..], s);
      } else {
        InfixOfItself(s);
      }
      DropLeadInsTrimmedInfix(t, ps[1..]);
      InfixTransitive(DropLeadIns(s, ps), t, s);
    }
  }

  /** The result of cleaning is always a contiguous piece of the input with no
      whitespace at either end: every step only cuts a prefix and strips. */
  lemma {:induction false} CleanTrimmedInfix(word: string, definition: string)
    ensures IsTrimmed(Clean(word, definition))
    ensures IsInfix(Clean(word, definition), definition)
  {
    var d1 := StripWordColon(word, definition);
    var d2 := StripLeadingColon(d1);
    var d3 := StripRepeatedWord(word, d2);
    var d4 := StripNumbering(d3);
    SubstituteStripInfix(WordColonPattern(word), definition);
    SubstituteStripInfix(ColonPattern, d1);
    if LowerStr(word) <= LowerStr(d2) {
      SubstituteStripInfix(WordNumberPattern(word), d2);
    } else {
      InfixOfItself(d2);
    }
    SubstituteStripInfix(NumberingPattern, d3);
    DropLeadInsTrimmedInfix(d4, LeadIns);
    InfixTransitive(d2, d1, definition);
    InfixTransitive(d3, d2, definition);
    InfixTransitive(d4, d3, definition);
    InfixTransitive(Clean(word, definition), d4, definition);
  }

  /** Text that none of the five steps changes: already trimmed, and starting neither
      with the word (in any case), nor a colon, nor a digit, nor any lead-in. */
  predicate Inert(word: string, s: string) {
    && IsTrimmed(s)
    && !StartsWithCI(s, word)
    && (|s| > 0 ==> s[0] != ':' && !IsDigit(s[0]))
    && forall k :: 0 <= k < |LeadIns| ==> !(LeadIns[k] <= LowerStr(s))
  }

  /** Trimmed text is inert when its first character already differs from the word and
      is neither a colon nor a digit, and its first two characters start no lead-in. */
  lemma {:induction false} InertByFirstChars(word: string, s: string)
    requires IsTrimmed(s) && |s| >= 2 && |word| > 0
    requires !EqCI(s[0], word[0]) && s[0] != ':' && !IsDigit(s[0])
    requires forall k :: 0 <= k < |LeadIns| ==> LeadIns[k][0] != Lower(s[0]) || LeadIns[k][1] != Lower(s[1])
    ensures Inert(word, s)
  {
    forall k | 0 <= k < |LeadIns|
      ensures !(LeadIns[k] <= LowerStr(s))
    {
      assert LowerStr(s)[0] == Lower(s[0]) && LowerStr(s)[1] == Lower(s[1]);
    }
  }

  /** Step 5 leaves text alone when none of the lead-ins starts it. */
  lemma {:induction false} DropLeadInsNone(s: string, ps: seq<string>)
    requires forall k :: 0 <= k < |ps| ==> !(ps[k] <= LowerStr(s))
    ensures DropLeadIns(s, ps) == s
    decreases |ps|
  {
    if |ps| > 0 {
      assert DropLeadIn(s, ps[0]) == s;
      DropLeadInsNone(s, ps[1..]);
    }
  }

  /** Step 5 removes exactly the first lead-in of the list that starts the text, and
      nothing more when no later lead-in starts what remains. */
  lemma {:induction false} DropLeadInsFirstHit(s: string, ps: seq<string>, k: nat)
    requires k < |ps|
    requires forall j :: 0 <= j < k ==> !(ps[j] <= LowerStr(s))
    requires ps[k] <= LowerStr(s)
    requires forall j :: k < j < |ps| ==> !(ps[j] <= LowerStr(Strip(s[|ps[k]|..])))
    ensures DropLeadIns(s, ps) == Strip(s[|ps[k]|..])
    decreases |ps|
  {
    var t := DropLeadIn(s, ps[0]);
    if k == 0 {
      assert t == Strip(s[|ps[0]|..]);
      DropLeadInsNone(t, ps[1..]);
    } else {
      assert t == s;
      DropLeadInsFirstHit(s, ps[1..], k - 1);
    }
  }

  /** With the actual list, whose lead-ins begin with four different letters, a
      lead-in at the front of the text is cut, and at most the later lead-ins of the
      list are tried on what remains. */
  lemma {:induction false} DropLeadInsAt(s: string, k: nat)
    requires k < |LeadIns|
    requires LeadIns[k] <= LowerStr(s)
    requires forall j :: k < j < |LeadIns| ==> !(LeadIns[j] <= LowerStr(Strip(s[|LeadIns[k]|..])))
    ensures DropLeadIns(s, LeadIns) == Strip(s[|LeadIns[k]|..])
  {
    forall j | 0 <= j < k
      ensures !(LeadIns[j] <= LowerStr(s))
    {
      assert LeadIns[j][0] != LeadIns[k][0];
      assert LowerStr(s)[0] == LeadIns[k][0];
    }
    DropLeadInsFirstHit(s, LeadIns, k);
  }

  /** Step 1 does nothing to trimmed text that does not start with the word. */
  lemma {:induction false} StripWordColonIdle(word: string, s: string)
    requires IsTrimmed(s) && !StartsWithCI(s, word)
    ensures StripWordColon(word, s) == s
  {
    LiteralThen(word, [Star(Space), One(Exactly(':')), Star(Space)], s);
    StripTrimmed(s);
  }

  /** Step 2 does nothing to trimmed text that does not start with a colon. */
  lemma {:induction false} StripLeadingColonIdle(s: string)
    requires IsTrimmed(s) && (|s| > 0 ==> s[0] != ':')
    ensures StripLeadingColon(s) == s
  {
    assert ColonPattern[0] == One(Exactly(':'));
    assert MatchPrefix(ColonPattern, s) == None;
    StripTrimmed(s);
  }

  /** Step 3 does nothing to text that does not start with the word. */
  lemma {:induction false} StripRepeatedWordIdle(word: string, s: string)
    requires !StartsWithCI(s, word)
    ensures StripRepeatedWord(word, s) == s
  {
    LowerPrefixIffStartsWithCI(s, word);
  }

  /** Step 4 does nothing to trimmed text that does not start with a digit. */
  lemma {:induction false} StripNumberingIdle(s: string)
    requires IsTrimmed(s) && (|s| > 0 ==> !IsDigit(s[0]))
    ensures StripNumbering(s) == s
  {
    assert NumberingPattern[0] == One(Digit);
    assert MatchPrefix(NumberingPattern, s) == None;
    StripTrimmed(s);
  }

  /** On trimmed text that starts with neither the word, a colon nor a digit, steps 1
      to 4 change nothing and only the lead-in removal can act. */
  lemma {:induction false} StepsOneToFourFix(word: string, s: string)
    requires IsTrimmed(s)
    requires !StartsWithCI(s, word)
    requires |s| > 0 ==> s[0] != ':' && !IsDigit(s[0])
    ensures Clean(word, s) == DropLeadIns(s, LeadIns)
  {
    StripWordColonIdle(word, s);
    StripLeadingColonIdle(s);
    StripRepeatedWordIdle(word, s);
    StripNumberingIdle(s);
  }

  /** Nothing else changes: text that no step applies to is returned as it is. */
  lemma {:induction false} CleanInert(word: string, s: string)
    requires Inert(word, s)
    ensures Clean(word, s) == s
  {
    StepsOneToFourFix(word, s);
    LeadInsIdle(word, s);
  }

  lemma {:induction false} LeadInsIdle(word: string, s: string)
    requires Inert(word, s)
    ensures DropLeadIns(s, LeadIns) == s
  {
    DropLeadInsNone(s, LeadIns);
  }

  /** On text that no step applies to, steps 2 to 5 change nothing either. */
  lemma {:induction false} StepsTwoToFiveFix(word: string, s: string)
    requires Inert(word, s)
    ensures DropLeadIns(StripNumbering(StripRepeatedWord(word, StripLeadingColon(s))), LeadIns) == s
  {
    StripLeadingColonIdle(s);
    assert StripLeadingColon(s) == s;
    StripRepeatedWordIdle(word, s);
    assert StripRepeatedWord(word, s) == s;
    StripNumberingIdle(s);
    assert StripNumbering(s) == s;
    LeadInsIdle(word, s);
  }

  /** `\s*` takes all the spaces in front of text that does not start with a space. */
  lemma {:induction false} SpacesMatch(b: string, rest: string)
    requires AllIn(Space, b)
    requires |rest| == 0 || !IsSpace(rest[0])
    ensures MatchPrefix([Star(Space)], b + rest) == Some(|b|)
  {
    assert [Star(Space)] + [] == [Star(Space)];
    StarThenNullable(Space, [], b + rest);
    RunLengthOfConcat(Space, b, rest);
  }

  lemma {:induction false} ColonThenSpaces(b: string, rest: string)
    ensures MatchPrefix([One(Exactly(':')), Star(Space)], ":" + b + rest)
         == Shift(MatchPrefix([Star(Space)], b + rest), 1)
  {
    var u := ":" + b + rest;
    assert [One(Exactly(':')), Star(Space)][1..] == [Star(Space)];
    assert u[1..] == b + rest;
  }

  lemma {:induction false} SpacesBeforeColon(a: string, u: string)
    requires AllIn(Space, a)
    requires |u| > 0 && u[0] == ':'
    ensures MatchPrefix([Star(Space), One(Exactly(':')), Star(Space)], a + u)
         == Shift(MatchPrefix([One(Exactly(':')), Star(Space)], u), |a|)
  {
    var t := a + u;
    assert [Star(Space), One(Exactly(':')), Star(Space)] == [Star(Space), One(Exactly(':'))] + [Star(Space)];
    StarThenDisjoint(Space, Exactly(':'), [Star(Space)], t);
    RunLengthOfConcat(Space, a, u);
    assert t[|a|..] == u;
  }

  /** `\s*:\s*` matches spaces, a colon and spaces in front of text that does not
      start with a space. */
  lemma {:induction false} ColonTailMatch(a: string, b: string, rest: string)
    requires AllIn(Space, a) && AllIn(Space, b)
    requires |rest| == 0 || !IsSpace(rest[0])
    ensures MatchPrefix([Star(Space), One(Exactly(':')), Star(Space)], a + ":" + b + rest) == Some(|a| + 1 + |b|)
  {
    var u := ":" + b + rest;
    assert a + ":" + b + rest == a + u;
    SpacesBeforeColon(a, u);
    ColonThenSpaces(b, rest);
    SpacesMatch(b, rest);
  }

  /** A text that starts with `w` also starts with every word equal to `w` up to case. */
  lemma {:induction false} StartsWithCIOfConcat(w: string, word: string, tail: string)
    requires |w| == |word| && StartsWithCI(w, word)
    ensures StartsWithCI(w + tail, word)
    ensures (w + tail)[|word|..] == tail
  {
    var s := w + tail;
    forall i | 0 <= i < |word| ensures EqCI(s[i], word[i]) {
      assert s[i] == w[i];
    }
  }

  /** The pattern of step 1 matches a word (in any case), spaces, a colon and spaces
      when the text after them does not start with a space. */
  lemma {:induction false} WordColonMatch(word: string, w: string, a: string, b: string, rest: string)
    requires |w| == |word| && StartsWithCI(w, word)
    requires AllIn(Space, a) && AllIn(Space, b)
    requires |rest| == 0 || !IsSpace(rest[0])
    ensures MatchPrefix(WordColonPattern(word), w + a + ":" + b + rest) == Some(|w| + |a| + 1 + |b|)
  {
    var t := a + ":" + b + rest;
    assert w + a + ":" + b + rest == w + t;
    StartsWithCIOfConcat(w, word, t);
    LiteralThen(word, [Star(Space), One(Exactly(':')), Star(Space)], w + t);
    ColonTailMatch(a, b, rest);
  }

  /** A word (in any case) followed by a colon, with spaces on either side, is removed
      in front of text that needs no further cleaning. */
  lemma {:induction false} CleanWordColon(word: string, w: string, a: string, b: string, rest: string)
    requires |w| == |word| && StartsWithCI(w, word)
    requires AllIn(Space, a) && AllIn(Space, b)
    requires Inert(word, rest)
    ensures Clean(word, w + a + ":" + b + rest) == rest
  {
    var s := w + a + ":" + b + rest;
    WordColonMatch(word, w, a, b, rest);
    assert s[|w| + |a| + 1 + |b|..] == rest;
    assert Substitute(WordColonPattern(word), s) == rest;
    StripTrimmed(rest);
    StepsTwoToFiveFix(word, rest);
  }

  /** The character that follows a sense number, a period and spaces: it must not
      extend any of them. */
  predicate EndsSeparator(rest: string) {
    |rest| > 0 && !IsDigit(rest[0]) && !IsSpace(rest[0]) && rest[0] != '.'
  }

  /** `\d*\.?\s*` takes a sense number, an optional period and the spaces after it. */
  lemma {:induction false} NumberTailMatch(d: string, dot: string, b: string, rest: string)
    requires AllIn(Digit, d) && (dot == "" || dot == ".") && AllIn(Space, b)
    requires EndsSeparator(rest)
    ensures MatchPrefix(NumberTail, d + dot + b + rest) == Some(|d| + |dot| + |b|)
  {
    var x := d + dot + b + rest;
    var y := dot + b + rest;
    assert x == d + y;
    assert y[0] == (if dot == "." then '.' else if |b| > 0 then b[0] else rest[0]);
    RunLengthOfConcat(Digit, d, y);
    var optTail := [Opt(Exactly('.')), Star(Space)];
    assert NumberTail == [Star(Digit)] + optTail;
    assert Nullable(optTail);
    StarThenNullable(Digit, optTail, x);
    assert x[|d|..] == y;
    OptTailMatch(dot, b, rest);
  }

  /** `\.?\s*` takes an optional period and the spaces after it. */
  lemma {:induction false} OptTailMatch(dot: string, b: string, rest: string)
    requires (dot == "" || dot == ".") && AllIn(Space, b)
    requires EndsSeparator(rest)
    ensures MatchPrefix([Opt(Exactly('.')), Star(Space)], dot + b + rest) == Some(|dot| + |b|)
  {
    var y := dot + b + rest;
    assert Nullable([Star(Space)]);
    assert [Opt(Exactly('.')), Star(Space)] == [Opt(Exactly('.'))] + [Star(Space)];
    OptThenNullable(Exactly('.'), [Star(Space)], y);
    if dot == "." {
      assert y[0] == '.';
      assert y[1..] == b + rest;
    } else {
      assert y == b + rest;
      assert |y| > 0 && y[0] != '.';
    }
    SpacesMatch(b, rest);
  }

  /** `\s*\d*\.?\s*` takes spaces, a sense number, an optional period and spaces. */
  lemma {:induction false} SeparatorMatch(a: string, d: string, dot: string, b: string, rest: string)
    requires AllIn(Space, a) && AllIn(Digit, d) && (dot == "" || dot == ".") && AllIn(Space, b)
    requires EndsSeparator(rest)
    ensures MatchPrefix([Star(Space)] + NumberTail, a + d + dot + b + rest) == Some(|a| + |d| + |dot| + |b|)
  {
    assert Nullable(NumberTail);
    if |d| + |dot| > 0 {
      NumberedSeparatorMatch(a, d, dot, b, rest);
    } else {
      assert a + d + dot + b + rest == (a + b) + rest;
      BareSeparatorMatch(a + b, rest);
    }
  }

  lemma {:induction false} NumberedSeparatorMatch(a: string, d: string, dot: string, b: string, rest: string)
    requires AllIn(Space, a) && AllIn(Digit, d) && (dot == "" || dot == ".") && AllIn(Space, b)
    requires EndsSeparator(rest) && |d| + |dot| > 0
    requires Nullable(NumberTail)
    ensures MatchPrefix([Star(Space)] + NumberTail, a + d + dot + b + rest) == Some(|a| + |d| + |dot| + |b|)
  {
    var y := d + dot + b + rest;
    var x := a + y;
    assert a + d + dot + b + rest == x;
    StarThenNullable(Space, NumberTail, x);
    assert y[0] == (if |d| > 0 then d[0] else '.');
    RunLengthOfConcat(Space, a, y);
    assert x[|a|..] == y;
    NumberTailMatch(d, dot, b, rest);
  }

  lemma {:induction false} BareSeparatorMatch(a: string, rest: string)
    requires AllIn(Space, a) && EndsSeparator(rest)
    requires Nullable(NumberTail)
    ensures MatchPrefix([Star(Space)] + NumberTail, a + rest) == Some(|a|)
  {
    StarThenNullable(Space, NumberTail, a + rest);
    RunLengthOfConcat(Space, a, rest);
    assert (a + rest)[|a|..] == "" + "" + "" + rest;
    NumberTailMatch("", "", "", rest);
  }

  /** Step 1 cannot match once the word is followed by a sense number instead of a colon. */
  lemma {:induction false} NoColonAfterNumber(a: string, d: string, dot: string, b: string, rest: string)
    requires AllIn(Space, a) && AllIn(Digit, d) && (dot == "" || dot == ".") && AllIn(Space, b)
    requires EndsSeparator(rest) && rest[0] != ':'
    ensures MatchPrefix([Star(Space), One(Exactly(':')), Star(Space)], a + d + dot + b + rest) == None
  {
    var x := a + d + dot + b + rest;
    assert [Star(Space), One(Exactly(':')), Star(Space)] == [Star(Space), One(Exactly(':'))] + [Star(Space)];
    StarThenDisjoint(Space, Exactly(':'), [Star(Space)], x);
    var k := RunLength(Space, x);
    if |d| + |dot| > 0 {
      var y := d + dot + b + rest;
      assert x == a + y;
      assert y[0] == (if |d| > 0 then d[0] else '.');
      RunLengthOfConcat(Space, a, y);
      assert x[k] == y[0];
    } else {
      assert x == (a + b) + rest;
      assert AllIn(Space, a + b);
      RunLengthOfConcat(Space, a + b, rest);
      assert x[k] == rest[0];
    }
    assert x[k..][0] == x[k];
  }

  /** A character equal, up to case, to one that is neither a space nor a colon nor a
      digit is itself none of these. */
  lemma {:induction false} EqCIKeepsKind(x: char, y: char)
    requires EqCI(x, y)
    ensures IsSpace(x) ==> IsSpace(y)
    ensures x == ':' ==> y == ':'
    ensures IsDigit(x) ==> IsDigit(y)
  {
    if IsSpace(x) || x == ':' || IsDigit(x) {
      EqCINonLetter(y, x);
    }
  }

  /** Step 1 leaves a word followed by a sense number alone. */
  lemma {:induction false} WordNumberSurvivesStepOne(word: string, w: string, t: string,
      a: string, d: string, dot: string, b: string, rest: string)
    requires |w| == |word| && StartsWithCI(w, word)
    requires |word| > 0 && !IsSpace(word[0])
    requires AllIn(Space, a) && AllIn(Digit, d) && (dot == "" || dot == ".") && AllIn(Space, b)
    requires IsTrimmed(rest) && EndsSeparator(rest) && rest[0] != ':'
    requires t == a + d + dot + b + rest
    ensures StripWordColon(word, w + t) == w + t
  {
    var s := w + t;
    StartsWithCIOfConcat(w, word, t);
    EqCIKeepsKind(w[0], word[0]);
    assert s[0] == w[0];
    assert s[|s| - 1] == rest[|rest| - 1];
    StripTrimmed(s);
    LiteralThen(word, [Star(Space), One(Exactly(':')), Star(Space)], s);
    NoColonAfterNumber(a, d, dot, b, rest);
  }

  /** The pattern of step 3 matches the word (in any case) with its sense number. */
  lemma {:induction false} WordNumberMatch(word: string, w: string, t: string,
      a: string, d: string, dot: string, b: string, rest: string)
    requires |w| == |word| && StartsWithCI(w, word)
    requires AllIn(Space, a) && AllIn(Digit, d) && (dot == "" || dot == ".") && AllIn(Space, b)
    requires EndsSeparator(rest)
    requires t == a + d + dot + b + rest
    ensures MatchPrefix(WordNumberPattern(word), w + t) == Some(|w| + |a| + |d| + |dot| + |b|)
  {
    StartsWithCIOfConcat(w, word, t);
    LiteralThen(word, [Star(Space)] + NumberTail, w + t);
    SeparatorMatch(a, d, dot, b, rest);
  }

  /** Step 3 removes the repeated word with its sense number, period and spaces. */
  lemma {:induction false} WordNumberRemoved(word: string, w: string, t: string,
      a: string, d: string, dot: string, b: string, rest: string)
    requires |w| == |word| && StartsWithCI(w, word)
    requires AllIn(Space, a) && AllIn(Digit, d) && (dot == "" || dot == ".") && AllIn(Space, b)
    requires IsTrimmed(rest) && EndsSeparator(rest)
    requires t == a + d + dot + b + rest
    ensures StripRepeatedWord(word, w + t) == rest
  {
    var s := w + t;
    StartsWithCIOfConcat(w, word, t);
    LowerPrefixIffStartsWithCI(s, word);
    WordNumberMatch(word, w, t, a, d, dot, b, rest);
    assert s[|w| + |a| + |d| + |dot| + |b|..] == rest;
    assert Substitute(WordNumberPattern(word), s) == rest;
    StripTrimmed(rest);
  }

  /** The word repeated in front of a sense number, as in `Kudus 2. suci`, is removed
      together with the number, the period and the spaces around them. */
  lemma {:induction false} CleanWordNumber(word: string, w: string, a: string, d: string, dot: string, b: string, rest: string)
    requires |w| == |word| && StartsWithCI(w, word)
    requires |word| > 0 && !IsSpace(word[0]) && word[0] != ':'
    requires AllIn(Space, a) && AllIn(Digit, d) && (dot == "" || dot == ".") && AllIn(Space, b)
    requires Inert(word, rest) && EndsSeparator(rest)
    ensures Clean(word, w + a + d + dot + b + rest) == rest
  {
    var t := a + d + dot + b + rest;
    var s := w + t;
    assert w + a + d + dot + b + rest == s;
    WordNumberSurvivesStepOne(word, w, t, a, d, dot, b, rest);
    EqCIKeepsKind(w[0], word[0]);
    assert s[0] == w[0];
    StripLeadingColonIdle(s);
    WordNumberRemoved(word, w, t, a, d, dot, b, rest);
    StripNumberingIdle(rest);
    LeadInsIdle(word, rest);
  }

  /** `^(\d+\.?\s*)` takes a number, an optional period and the spaces after it. */
  lemma {:induction false} NumberingMatch(d: string, dot: string, b: string, rest: string)
    requires |d| > 0 && AllIn(Digit, d) && (dot == "" || dot == ".") && AllIn(Space, b)
    requires EndsSeparator(rest)
    ensures MatchPrefix(NumberingPattern, d + dot + b + rest) == Some(|d| + |dot| + |b|)
  {
    var s := d + dot + b + rest;
    assert NumberingPattern[0] == One(Digit);
    assert NumberingPattern[1..] == NumberTail;
    assert s[0] == d[0];
    assert s[1..] == d[1..] + dot + b + rest;
    NumberTailMatch(d[1..], dot, b, rest);
  }

  /** A leading enumeration such as `1. ` is removed in front of text that needs no
      further cleaning, provided the word does not itself start with a digit. */
  lemma {:induction false} CleanNumbering(word: string, d: string, dot: string, b: string, rest: string)
    requires |word| > 0 && !IsDigit(word[0])
    requires |d| > 0 && AllIn(Digit, d) && (dot == "" || dot == ".") && AllIn(Space, b)
    requires Inert(word, rest) && EndsSeparator(rest)
    ensures Clean(word, d + dot + b + rest) == rest
  {
    var s := d + dot + b + rest;
    NumberedTextIdle(word, d, s);
    NumberingRemoved(d, dot, b, rest);
    LeadInsIdle(word, rest);
  }

  /** Steps 1 to 3 leave trimmed text that starts with a digit alone, when the word
      does not start with one. */
  lemma {:induction false} NumberedTextIdle(word: string, d: string, s: string)
    requires |word| > 0 && !IsDigit(word[0])
    requires |d| > 0 && AllIn(Digit, d) && d <= s && IsTrimmed(s)
    ensures StripRepeatedWord(word, StripLeadingColon(StripWordColon(word, s))) == s
  {
    assert s[0] == d[0];
    assert !StartsWithCI(s, word) by {
      if StartsWithCI(s, word) {
        assert EqCI(s[0], word[0]);
        EqCIKeepsKind(s[0], word[0]);
      }
    }
    StripWordColonIdle(word, s);
    StripLeadingColonIdle(s);
    StripRepeatedWordIdle(word, s);
  }

  /** Step 4 removes the number, the period and the spaces. */
  lemma {:induction false} NumberingRemoved(d: string, dot: string, b: string, rest: string)
    requires |d| > 0 && AllIn(Digit, d) && (dot == "" || dot == ".") && AllIn(Space, b)
    requires IsTrimmed(rest) && EndsSeparator(rest)
    ensures StripNumbering(d + dot + b + rest) == rest
  {
    var s := d + dot + b + rest;
    NumberingMatch(d, dot, b, rest);
    assert s[|d| + |dot| + |b|..] == rest;
    StripTrimmed(rest);
  }

  /** A bare colon and spaces in front of otherwise clean text are removed: step 1
      leaves the text alone when the word does not start with a colon, step 2 cuts the
      colon and the spaces, and steps 3 to 5 find nothing more to do. */
  lemma {:induction false} CleanLeadingColon(word: string, b: string, rest: string)
    requires |word| > 0 && word[0] != ':'
    requires AllIn(Space, b)
    requires Inert(word, rest) && |rest| > 0
    ensures Clean(word, ":" + b + rest) == rest
  {
    var s := ":" + b + rest;
    ColonTextIdle(word, s);
    ColonRemoved(b, rest);
    StripRepeatedWordIdle(word, rest);
    StripNumberingIdle(rest);
    LeadInsIdle(word, rest);
  }

  /** Step 1 leaves trimmed text that starts with a colon alone, when the word does
      not start with one. */
  lemma {:induction false} ColonTextIdle(word: string, s: string)
    requires |word| > 0 && word[0] != ':'
    requires |s| > 0 && s[0] == ':' && IsTrimmed(s)
    ensures StripWordColon(word, s) == s
  {
    assert !StartsWithCI(s, word) by {
      if StartsWithCI(s, word) {
        assert EqCI(s[0], word[0]);
        EqCIKeepsKind(s[0], word[0]);
      }
    }
    StripWordColonIdle(word, s);
  }

  /** Step 2 removes the colon and the spaces after it. */
  lemma {:induction false} ColonRemoved(b: string, rest: string)
    requires AllIn(Space, b)
    requires IsTrimmed(rest) && |rest| > 0
    ensures StripLeadingColon(":" + b + rest) == rest
  {
    var s := ":" + b + rest;
    ColonThenSpaces(b, rest);
    SpacesMatch(b, rest);
    assert MatchPrefix(ColonPattern, s) == Some(1 + |b|);
    assert s[1 + |b|..] == rest;
    StripTrimmed(rest);
  }

  /** A lead-in at the front of otherwise clean text is removed: steps 1 to 4 leave the
      text alone, and step 5 cuts the lead-in and the spaces after it. */
  lemma {:induction false} CleanLeadIn(word: string, k: nat, s: string)
    requires k < |LeadIns|
    requires IsTrimmed(s) && !StartsWithCI(s, word)
    requires LeadIns[k] <= LowerStr(s)
    requires forall j :: k < j < |LeadIns| ==> !(LeadIns[j] <= LowerStr(Strip(s[|LeadIns[k]|..])))
    ensures Clean(word, s) == Strip(s[|LeadIns[k]|..])
  {
    assert Lower(s[0]) == LeadIns[k][0];
    assert s[0] != ':' && !IsDigit(s[0]);
    StepsOneToFourFix(word, s);
    DropLeadInsAt(s, k);
  }
}
