/** The cleaner on sample answers, each derived from one of the general lemmas about
    `Clean`. Each lemma names its headword and answer as parameters whose values the
    precondition fixes. */
module CleanerExamples {
  import opened Text
  import opened Cleaner

  /** `komputer: alat untuk mengolah data` loses the echoed headword. */
  lemma {:induction false} ExampleWordColon(word: string, rest: string)
    requires word == "komputer" && rest == "alat untuk mengolah data"
    ensures Clean(word, word + ": " + rest) == rest
  {
    assert rest[0] == 'a' && rest[1] == 'l' && rest[|rest| - 1] == 'a';
    InertByFirstChars(word, rest);
    assert word + ": " + rest == word + "" + ":" + " " + rest;
    assert AllIn(Space, " ");
    assert StartsWithCI(word, word);
    CleanWordColon(word, word, "", " ", rest);
  }

  /** An answer that is nothing but the echoed headword becomes empty. */
  lemma {:induction false} ExampleOnlyHeadword(word: string, answer: string)
    requires word == "komputer" && answer == "Komputer :"
    ensures Clean(word, answer) == ""
  {
    assert Inert(word, answer[10..]);
    assert StartsWithCI(answer[..8], word);
    assert answer == answer[..8] + answer[8..9] + ":" + answer[10..] + answer[10..];
    assert AllIn(Space, answer[8..9]);
    CleanWordColon(word, answer[..8], answer[8..9], answer[10..], answer[10..]);
  }

  /** `Kudus 2. suci`: the repeated headword goes with its sense number. */
  lemma {:induction false} ExampleWordNumber(word: string, answer: string)
    requires word == "kudus" && answer == "Kudus 2. suci"
    ensures Clean(word, answer) == "suci"
  {
    assert StartsWithCI(answer[..5], word);
    assert Inert(word, answer[9..]);
    assert answer == answer[..5] + answer[5..6] + answer[6..7] + answer[7..8] + answer[8..9] + answer[9..];
    assert AllIn(Space, answer[5..6]) && AllIn(Digit, answer[6..7]) && AllIn(Space, answer[8..9]);
    CleanWordNumber(word, answer[..5], answer[5..6], answer[6..7], answer[7..8], answer[8..9], answer[9..]);
  }

  /** A leading enumeration is removed. */
  lemma {:induction false} ExampleNumbering(word: string, answer: string)
    requires word == "biru" && answer == "1. x"
    ensures Clean(word, answer) == "x"
  {
    assert answer == answer[..1] + answer[1..2] + answer[2..3] + answer[3..];
    assert Inert(word, answer[3..]);
    CleanNumbering(word, answer[..1], answer[1..2], answer[2..3], answer[3..]);
  }

  /** A lead-in is removed whatever its case. */
  lemma {:induction false} ExampleLeadIn(word: string, answer: string)
    requires word == "biru" && answer == "Definisi: warna dasar"
    ensures Clean(word, answer) == "warna dasar"
  {
    assert !EqCI(answer[0], word[0]);
    assert LowerStr(answer)[..9] == LeadIns[0];
    assert answer[9..] == answer[9..10] + answer[10..];
    assert AllIn(Space, answer[9..10]);
    StripSpacesThen(answer[9..10], answer[10..]);
    assert LowerStr(answer[10..])[0] == 'w';
    CleanLeadIn(word, 0, answer);
  }

  /** The lead-ins are tried in list order: `arti:` comes after `definisi:`, so both go. */
  lemma {:induction false} ExampleLeadInsInOrder(word: string, answer: string)
    requires word == "kata" && answer == "definisi: arti: x"
    ensures Clean(word, answer) == "x"
  {
    assert !EqCI(answer[0], word[0]);
    StepsOneToFourFix(word, answer);
    BothLeadInsCut(answer);
  }

  lemma {:induction false} BothLeadInsCut(answer: string)
    requires answer == "definisi: arti: x"
    ensures DropLeadIns(answer, LeadIns) == "x"
  {
    var t := answer[10..];
    FirstLeadInCut(answer, t);
    SecondLeadInCut(t);
  }

  lemma {:induction false} FirstLeadInCut(answer: string, t: string)
    requires answer == "definisi: arti: x" && t == answer[10..]
    ensures DropLeadIn(answer, LeadIns[0]) == t
  {
    assert LowerStr(answer)[..9] == LeadIns[0];
    assert answer[9..] == answer[9..10] + t;
    StripSpacesThen(answer[9..10], t);
  }

  lemma {:induction false} SecondLeadInCut(t: string)
    requires t == "arti: x"
    ensures DropLeadIns(t, LeadIns[1..]) == "x"
  {
    assert LowerStr(t)[..5] == LeadIns[1];
    assert t[5..] == t[5..6] + t[6..];
    StripSpacesThen(t[5..6], t[6..]);
    assert LowerStr(t[6..])[0] == 'x';
    DropLeadInsFirstHit(t, LeadIns[1..], 0);
  }

  /** ... but `definisi:` is not tried again once `arti:` has been cut. */
  lemma {:induction false} ExampleLeadInsOnce(word: string, answer: string)
    requires word == "kata" && answer == "arti: definisi: x"
    ensures Clean(word, answer) == "definisi: x"
  {
    assert !EqCI(answer[1], word[1]);
    assert LowerStr(answer)[..5] == LeadIns[1];
    assert answer[5..] == answer[5..6] + answer[6..];
    StripSpacesThen(answer[5..6], answer[6..]);
    assert LowerStr(answer[6..])[0] == 'd';
    CleanLeadIn(word, 1, answer);
  }

  /** `definisi: x` loses its lead-in. */
  lemma {:induction false} ExampleDefinisi(word: string, answer: string)
    requires word == "kata" && answer == "definisi: x"
    ensures Clean(word, answer) == "x"
  {
    assert !EqCI(answer[0], word[0]);
    assert LowerStr(answer)[..9] == LeadIns[0];
    assert answer[9..] == answer[9..10] + answer[10..];
    StripSpacesThen(answer[9..10], answer[10..]);
    assert LowerStr(answer[10..])[0] == 'x';
    CleanLeadIn(word, 0, answer);
  }

  /** Cleaning is not idempotent: a second pass can remove a lead-in that the first
      pass had already gone past. */
  lemma {:induction false} CleanNotIdempotent(word: string, answer: string)
    requires word == "kata" && answer == "arti: definisi: x"
    ensures Clean(word, Clean(word, answer)) != Clean(word, answer)
  {
    ExampleLeadInsOnce(word, answer);
    ExampleDefinisi(word, Clean(word, answer));
  }
}
