/** `generate_definitions`: one record per word of the list, in list order, each with
    the generated definition and, when the reference table has a non-empty definition
    for the word, the first such reference definition. */
module Batch {
  import opened Wrappers
  import opened Generator

  /** A row of the reference table. */
  datatype Row = Row(word: string, definition: string)

  /** One output record; `referenceDefinition` is `None` when the column is absent. */
  datatype Record = Record(word: string, generatedDefinition: string, referenceDefinition: Option<string>)

  /** Seconds the batch waits after each word. */
  const BatchDelay: real := 0.5

  /** The position of the first row whose word is `word`, if any. */
  function FirstMatch(rows: seq<Row>, word: string): (r: Option<nat>)
    ensures r.Some? ==> r.value < |rows| && rows[r.value].word == word
    ensures r.Some? ==> forall j :: 0 <= j < r.value ==> rows[j].word != word
    ensures r.None? ==> forall j :: 0 <= j < |rows| ==> rows[j].word != word
  {
    if |rows| == 0 then None
    else if rows[0].word == word then Some(0)
    else Shift(FirstMatch(rows[1..], word), 1)
  }

  /** The reference definition kept for `word`: the first matching row's definition,
      dropped when it is empty (the only falsy string), and nothing without a table. */
  function ReferenceFor(table: Option<seq<Row>>, word: string): Option<string> {
    match table
    case None => None
    case Some(rows) =>
      match FirstMatch(rows, word)
      case None => None
      case Some(i) => if rows[i].definition != "" then Some(rows[i].definition) else None
  }

  /** Row `i` is the first row for `word`, and its definition is `d`. */
  predicate FirstRowDefines(rows: seq<Row>, word: string, i: int, d: string) {
    && 0 <= i < |rows|
    && rows[i].word == word && rows[i].definition == d
    && forall j :: 0 <= j < i ==> rows[j].word != word
  }

  /** The reference field holds `d` exactly when there is a table whose first row for
      the word defines it as `d`, and `d` is not empty. */
  lemma {:induction false} ReferenceForIff(table: Option<seq<Row>>, word: string, d: string)
    ensures ReferenceFor(table, word) == Some(d)
        <==> table.Some? && d != "" && exists i :: FirstRowDefines(table.value, word, i, d)
  {
    if table.Some? {
      var rows := table.value;
      if i :| FirstRowDefines(rows, word, i, d) {
        FirstRowUnique(rows, word, i);
      }
      if ReferenceFor(table, word) == Some(d) {
        assert FirstRowDefines(rows, word, FirstMatch(rows, word).value, d);
      }
    }
  }

  /** The first row for a word is the one `FirstMatch` finds. */
  lemma {:induction false} FirstRowUnique(rows: seq<Row>, word: string, i: int)
    requires 0 <= i < |rows| && rows[i].word == word
    requires forall j :: 0 <= j < i ==> rows[j].word != word
    ensures FirstMatch(rows, word) == Some(i)
  {
  }

  /** The record for one word: the generator is called with the default number of
      attempts; `server` is what that word's attempts get back. */
  function MakeRecord(guidelines: string, word: string, server: nat -> Reply, table: Option<seq<Row>>): Record {
    Record(word, Generate(guidelines, word, DefaultMaxRetries, server).definition, ReferenceFor(table, word))
  }

  /** The records for `words`; `servers(i)` is what the attempts for word `i` get back. */
  function BuildRecords(guidelines: string, words: seq<string>, servers: nat -> nat -> Reply, table: Option<seq<Row>>): (r: seq<Record>)
    ensures |r| == |words|
    ensures forall i :: 0 <= i < |words| ==> r[i] == MakeRecord(guidelines, words[i], servers(i), table)
    decreases |words|
  {
    if |words| == 0 then []
    else
      var n := |words| - 1;
      BuildRecords(guidelines, words[..n], servers, table) + [MakeRecord(guidelines, words[n], servers(n), table)]
  }

  /** The loop of `generate_definitions`, appending one record per word. */
  method GenerateDefinitions(guidelines: string, words: seq<string>, servers: nat -> nat -> Reply, table: Option<seq<Row>>)
    returns (records: seq<Record>)
    ensures records == BuildRecords(guidelines, words, servers, table)
    ensures |records| == |words|
    ensures forall i :: 0 <= i < |words| ==> records[i].word == words[i]
  {
    records := [];
    var i := 0;
    while i < |words|
      invariant 0 <= i <= |words|
      invariant records == BuildRecords(guidelines, words[..i], servers, table)
    {
      BuildRecordsStep(guidelines, words, servers, table, i);
      records := records + [MakeRecord(guidelines, words[i], servers(i), table)];
      i := i + 1;
    }
    assert words[..i] == words;
  }

  /** One more word adds its record at the end. */
  lemma {:induction false} BuildRecordsStep(guidelines: string, words: seq<string>, servers: nat -> nat -> Reply, table: Option<seq<Row>>, i: nat)
    requires i < |words|
    ensures BuildRecords(guidelines, words[..i + 1], servers, table)
         == BuildRecords(guidelines, words[..i], servers, table) + [MakeRecord(guidelines, words[i], servers(i), table)]
  {
    var prefix := words[..i + 1];
    assert prefix[..i] == words[..i];
    assert prefix[i] == words[i];
  }

  /** The requests and pauses of the whole batch: each word's generation followed by
      the batch pause. */
  function BatchEvents(guidelines: string, words: seq<string>, servers: nat -> nat -> Reply): seq<Event>
    decreases |words|
  {
    if |words| == 0 then []
    else
      var n := |words| - 1;
      BatchEvents(guidelines, words[..n], servers)
        + Generate(guidelines, words[n], DefaultMaxRetries, servers(n)).events + [Sleep(BatchDelay)]
  }

  /** The whole batch makes at least one request per word and at most three per word. */
  lemma {:induction false} BatchRequests(guidelines: string, words: seq<string>, servers: nat -> nat -> Reply)
    ensures |words| <= CountPosts(BatchEvents(guidelines, words, servers)) <= DefaultMaxRetries * |words|
    decreases |words|
  {
    if |words| > 0 {
      var n := |words| - 1;
      BatchRequests(guidelines, words[..n], servers);
      var before := BatchEvents(guidelines, words[..n], servers);
      var own := Generate(guidelines, words[n], DefaultMaxRetries, servers(n)).events;
      GenerateEvents(guidelines, words[n], DefaultMaxRetries, servers(n));
      CountPostsConcat(before, own);
      CountPostsConcat(before + own, [Sleep(BatchDelay)]);
    }
  }

  lemma {:induction false} CountPostsConcat(a: seq<Event>, b: seq<Event>)
    ensures CountPosts(a + b) == CountPosts(a) + CountPosts(b)
    decreases |a|
  {
    if |a| == 0 {
      assert a + b == b;
    } else {
      assert (a + b)[0] == a[0];
      assert (a + b)[1..] == a[1..] + b;
      CountPostsConcat(a[1..], b);
    }
  }

  /** Record `i` is for word `i`, carries that word's generated definition, and has a
      reference definition `d` exactly when the table's first row for the word defines
      it as a non-empty `d`. */
  lemma {:induction false} RecordFields(guidelines: string, words: seq<string>, servers: nat -> nat -> Reply, table: Option<seq<Row>>, i: nat, d: string)
    requires i < |words|
    ensures var r := BuildRecords(guidelines, words, servers, table)[i];
      && r.word == words[i]
      && r.generatedDefinition == Generate(guidelines, words[i], DefaultMaxRetries, servers(i)).definition
      && (r.referenceDefinition == Some(d)
          <==> table.Some? && d != "" && exists j :: FirstRowDefines(table.value, words[i], j, d))
  {
    ReferenceForIff(table, words[i], d);
  }

  /** A table with a repeated word and an empty definition: the first row wins, and an
      empty definition leaves the field out. */
  lemma ExampleReferences()
    ensures var rows := [Row("meja", "perabot berkaki"), Row("meja", "lain"), Row("kursi", "")];
      && ReferenceFor(Some(rows), "meja") == Some("perabot berkaki")
      && ReferenceFor(Some(rows), "kursi") == None
      && ReferenceFor(Some(rows), "buku") == None
      && ReferenceFor(None, "meja") == None
  {
    var rows := [Row("meja", "perabot berkaki"), Row("meja", "lain"), Row("kursi", "")];
    assert FirstMatch(rows, "kursi") == Some(2);
  }
}
