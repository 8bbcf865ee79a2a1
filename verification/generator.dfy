/** `generate_definition_ollama`: one word's prompt sent to the model server up to
    `max_retries` times, with a fixed pause between attempts, returning the cleaned
    answer of the first successful attempt or a fixed error message. The server is a
    parameter: `server(i)` is what attempt number `i` (from 0) gets back. */
module Generator {
  import opened Wrappers
  import opened Text
  import Cleaner

  const BaseUrl: string := "http://localhost:11434"
  const ModelName: string := "llama3.2:3b"
  /** The number of attempts the batch uses (the parameter's default value). */
  const DefaultMaxRetries: int := 3
  /** Seconds each request may take before it counts as failed. */
  const RequestTimeout: int := 60
  /** Seconds to wait after a failed attempt that is not the last one. */
  const RetryDelay: real := 2.0

  /** The JSON body of a generation request. */
  datatype Payload = Payload(model: string, prompt: string, stream: bool, temperature: real, numPredict: int, topP: real)

  /** What one attempt gets back: the `response` field of a successful (HTTP 200) reply
      (the empty string when the field is missing), or a failure of any kind: another
      status code, a timeout, or any other exception. */
  datatype Reply = Ok(response: string) | Failed

  /** The observable effects of a generation: requests and pauses, in order. */
  datatype Event = Post(url: string, payload: Payload, timeout: int) | Sleep(seconds: real)

  datatype Generation = Generation(definition: string, events: seq<Event>)

  /** The style guidelines, two newlines, then the word in the fixed template. */
  function Prompt(guidelines: string, word: string): string {
    guidelines + "\n\n" + "Kata: " + word + "\nDefinisi:"
  }

  /** The one request every attempt for `word` sends. */
  function Request(guidelines: string, word: string): Event {
    Post(BaseUrl + "/api/generate", Payload(ModelName, Prompt(guidelines, word), false, 0.3, 200, 0.9), RequestTimeout)
  }

  /** The text returned when every attempt failed. */
  function Sentinel(maxRetries: int): string {
    "Error: Failed to generate definition after " + IntToString(maxRetries) + " attempts"
  }

  /** The loop's run: the raw answer of the successful attempt, if any, and the
      requests and pauses made on the way. */
  datatype Run = Run(answer: Option<string>, events: seq<Event>)

  /** The attempts from number `attempt` on: a success ends the loop with its answer;
      a failure pauses (unless it was the last attempt) and goes on. */
  function AttemptFrom(guidelines: string, word: string, maxRetries: int, server: nat -> Reply, attempt: nat): Run
    decreases maxRetries - attempt
  {
    if maxRetries <= attempt then Run(None, [])
    else
      match server(attempt)
      case Ok(text) => Run(Some(text), [Request(guidelines, word)])
      case Failed =>
        var pause := if attempt < maxRetries - 1 then [Sleep(RetryDelay)] else [];
        var later := AttemptFrom(guidelines, word, maxRetries, server, attempt + 1);
        Run(later.answer, [Request(guidelines, word)] + pause + later.events)
  }

  /** `generate_definition_ollama(word, max_retries)`: the stripped and cleaned answer
      of the first successful attempt, or the error message after the last failure. */
  function Generate(guidelines: string, word: string, maxRetries: int, server: nat -> Reply): Generation {
    var run := AttemptFrom(guidelines, word, maxRetries, server, 0);
    match run.answer
    case Some(text) => Generation(Cleaner.Clean(word, Strip(text)), run.events)
    case None => Generation(Sentinel(maxRetries), run.events)
  }

  /** The first attempt number in `from .. maxRetries - 1` that succeeds, if any. */
  function FirstSuccess(server: nat -> Reply, maxRetries: int, from: nat): (r: Option<nat>)
    ensures r.Some? ==> from <= r.value < maxRetries && server(r.value).Ok?
    ensures r.Some? ==> forall j :: from <= j < r.value ==> server(j).Failed?
    ensures r.None? ==> forall j :: from <= j < maxRetries ==> server(j).Failed?
    decreases maxRetries - from
  {
    if maxRetries <= from then None
    else if server(from).Ok? then Some(from)
    else FirstSuccess(server, maxRetries, from + 1)
  }

  /** `n` requests with a pause between each two and none before the first or after
      the last. */
  function Attempts(request: Event, n: nat): seq<Event> {
    if n == 0 then []
    else if n == 1 then [request]
    else [request, Sleep(RetryDelay)] + Attempts(request, n - 1)
  }

  function CountPosts(events: seq<Event>): nat {
    if |events| == 0 then 0 else (if events[0].Post? then 1 else 0) + CountPosts(events[1..])
  }

  function CountSleeps(events: seq<Event>): nat {
    if |events| == 0 then 0 else (if events[0].Sleep? then 1 else 0) + CountSleeps(events[1..])
  }

  /** Failed attempts before the first success only add requests and pauses: the run
      ends with the answer of the first successful attempt. */
  lemma {:induction false} SkipsFailures(guidelines: string, word: string, maxRetries: int, server: nat -> Reply, from: nat, k: nat)
    requires FirstSuccess(server, maxRetries, from) == Some(k)
    ensures AttemptFrom(guidelines, word, maxRetries, server, from)
         == Run(Some(server(k).response), Attempts(Request(guidelines, word), k - from + 1))
    decreases maxRetries - from
  {
    var request := Request(guidelines, word);
    if from < k {
      assert server(from).Failed?;
      assert FirstSuccess(server, maxRetries, from + 1) == Some(k);
      SkipsFailures(guidelines, word, maxRetries, server, from + 1, k);
      var later := AttemptFrom(guidelines, word, maxRetries, server, from + 1);
      assert from < maxRetries - 1;
      assert AttemptFrom(guidelines, word, maxRetries, server, from).events == [request] + [Sleep(RetryDelay)] + later.events;
      assert [request] + [Sleep(RetryDelay)] + later.events == [request, Sleep(RetryDelay)] + Attempts(request, k - from);
    }
  }

  /** When attempt `k` is the first success, the result is the cleaned, stripped answer
      of attempt `k`, after exactly `k + 1` requests with pauses between them. */
  lemma {:induction false} SucceedsAtFirstSuccess(guidelines: string, word: string, maxRetries: int, server: nat -> Reply, k: nat)
    requires FirstSuccess(server, maxRetries, 0) == Some(k)
    ensures Generate(guidelines, word, maxRetries, server)
         == Generation(Cleaner.Clean(word, Strip(server(k).response)), Attempts(Request(guidelines, word), k + 1))
  {
    SkipsFailures(guidelines, word, maxRetries, server, 0, k);
    GenerateAnswered(guidelines, word, maxRetries, server, server(k).response, Attempts(Request(guidelines, word), k + 1));
  }

  /** A run that ends with an answer yields that answer, stripped and cleaned. */
  lemma {:induction false} GenerateAnswered(guidelines: string, word: string, maxRetries: int, server: nat -> Reply, text: string, events: seq<Event>)
    requires AttemptFrom(guidelines, word, maxRetries, server, 0) == Run(Some(text), events)
    ensures Generate(guidelines, word, maxRetries, server) == Generation(Cleaner.Clean(word, Strip(text)), events)
  {
  }

  /** When no attempt succeeds, the run has no answer, after one request per attempt
      with pauses between them. */
  lemma {:induction false} GivesUpFrom(guidelines: string, word: string, maxRetries: int, server: nat -> Reply, from: nat)
    requires FirstSuccess(server, maxRetries, from).None?
    ensures AttemptFrom(guidelines, word, maxRetries, server, from)
         == Run(None, Attempts(Request(guidelines, word), if from < maxRetries then maxRetries - from else 0))
    decreases maxRetries - from
  {
    if from < maxRetries {
      GivesUpFrom(guidelines, word, maxRetries, server, from + 1);
    }
  }

  /** When every attempt fails, the result is the error message naming `maxRetries`,
      after `maxRetries` requests (none when it is not positive). */
  lemma {:induction false} GivesUpWithoutSuccess(guidelines: string, word: string, maxRetries: int, server: nat -> Reply)
    requires forall j: nat :: j < maxRetries ==> server(j).Failed?
    ensures Generate(guidelines, word, maxRetries, server)
         == Generation(Sentinel(maxRetries), Attempts(Request(guidelines, word), if maxRetries > 0 then maxRetries else 0))
  {
    NoSuccessFound(server, maxRetries, 0);
    GivesUpFrom(guidelines, word, maxRetries, server, 0);
  }

  /** Only failures in range means no first success. */
  lemma {:induction false} NoSuccessFound(server: nat -> Reply, maxRetries: int, from: nat)
    requires forall j: nat :: from <= j < maxRetries ==> server(j).Failed?
    ensures FirstSuccess(server, maxRetries, from).None?
    decreases maxRetries - from
  {
    if from < maxRetries {
      NoSuccessFound(server, maxRetries, from + 1);
    }
  }

  /** `n` attempts hold `n` requests, all the same, and `n - 1` pauses. */
  lemma {:induction false} AttemptsCounts(request: Event, n: nat)
    requires request.Post?
    ensures CountPosts(Attempts(request, n)) == n
    ensures CountSleeps(Attempts(request, n)) == if n == 0 then 0 else n - 1
    ensures forall i :: 0 <= i < |Attempts(request, n)| && Attempts(request, n)[i].Post? ==> Attempts(request, n)[i] == request
    ensures n > 0 ==> Attempts(request, n)[0] == request && Attempts(request, n)[|Attempts(request, n)| - 1] == request
  {
    if n > 1 {
      AttemptsCounts(request, n - 1);
      var rest := Attempts(request, n - 1);
      assert Attempts(request, n) == [request, Sleep(RetryDelay)] + rest;
      assert ([request, Sleep(RetryDelay)] + rest)[1..] == [Sleep(RetryDelay)] + rest;
      assert ([Sleep(RetryDelay)] + rest)[1..] == rest;
    }
  }

  /** A successful generation returns a piece of the first successful raw answer, with
      no surrounding whitespace. */
  lemma {:induction false} SuccessIsCleanedPiece(guidelines: string, word: string, maxRetries: int, server: nat -> Reply, k: nat)
    requires FirstSuccess(server, maxRetries, 0) == Some(k)
    ensures var g := Generate(guidelines, word, maxRetries, server);
      IsTrimmed(g.definition) && IsInfix(g.definition, server(k).response)
  {
    SucceedsAtFirstSuccess(guidelines, word, maxRetries, server, k);
    CleanedPiece(word, server(k).response);
  }

  /** What a successful attempt returns is a piece of the raw answer with no
      surrounding whitespace. */
  lemma {:induction false} CleanedPiece(word: string, text: string)
    ensures IsTrimmed(Cleaner.Clean(word, Strip(text)))
    ensures IsInfix(Cleaner.Clean(word, Strip(text)), text)
  {
    Cleaner.CleanTrimmedInfix(word, Strip(text));
    StripInfix(text);
    InfixTransitive(Cleaner.Clean(word, Strip(text)), Strip(text), text);
  }

  /** How many attempts the loop makes: up to and including the first success, or
      all of them (none when `maxRetries` is not positive). */
  function AttemptsMade(server: nat -> Reply, maxRetries: int): nat {
    match FirstSuccess(server, maxRetries, 0)
    case Some(k) => k + 1
    case None => if maxRetries > 0 then maxRetries else 0
  }

  /** The run's events are the attempts it makes, with pauses between them. */
  lemma {:induction false} RunEvents(guidelines: string, word: string, maxRetries: int, server: nat -> Reply)
    ensures AttemptFrom(guidelines, word, maxRetries, server, 0).events == Attempts(Request(guidelines, word), AttemptsMade(server, maxRetries))
  {
    match FirstSuccess(server, maxRetries, 0)
    case Some(k) => SkipsFailures(guidelines, word, maxRetries, server, 0, k);
    case None => GivesUpFrom(guidelines, word, maxRetries, server, 0);
  }

  lemma {:induction false} GenerateKeepsEvents(guidelines: string, word: string, maxRetries: int, server: nat -> Reply)
    ensures Generate(guidelines, word, maxRetries, server).events == AttemptFrom(guidelines, word, maxRetries, server, 0).events
  {
  }

  /** The requests and pauses: at least one request and at most `maxRetries` of them
      (none when `maxRetries` is not positive), all for the same prompt, and one pause
      fewer than requests. */
  lemma {:induction false} GenerateEvents(guidelines: string, word: string, maxRetries: int, server: nat -> Reply)
    ensures var events := Generate(guidelines, word, maxRetries, server).events;
      && (maxRetries <= 0 ==> events == [])
      && (maxRetries > 0 ==> 1 <= CountPosts(events) <= maxRetries && CountSleeps(events) == CountPosts(events) - 1)
      && (forall i :: 0 <= i < |events| && events[i].Post? ==> events[i] == Request(guidelines, word))
  {
    GenerateKeepsEvents(guidelines, word, maxRetries, server);
    RunEvents(guidelines, word, maxRetries, server);
    AttemptsCounts(Request(guidelines, word), AttemptsMade(server, maxRetries));
  }

  /** With the default of three attempts, the error message reads as the batch
      reports it. */
  lemma SentinelDefault()
    ensures Sentinel(DefaultMaxRetries) == "Error: Failed to generate definition after 3 attempts"
  {
    assert IntToString(3) == "3";
  }

  /** The word can be read back from the prompt: with the same guidelines, two
      different words never give the same prompt. */
  lemma {:induction false} PromptDeterminesWord(guidelines: string, w1: string, w2: string)
    requires Prompt(guidelines, w1) == Prompt(guidelines, w2)
    ensures w1 == w2
  {
    var head := guidelines + "\n\n" + "Kata: ";
    var tail := "\nDefinisi:";
    var p := Prompt(guidelines, w1);
    assert p == head + w1 + tail;
    assert Prompt(guidelines, w2) == head + w2 + tail;
    assert |w1| == |w2|;
    assert w1 == p[|head|..|head| + |w1|];
    assert w2 == p[|head|..|head| + |w2|];
  }

  /** How many of the attempts `0 .. n - 1` failed with a number below `limit`. */
  function FailuresBelow(server: nat -> Reply, n: nat, limit: int): nat {
    if n == 0 then 0
    else FailuresBelow(server, n - 1, limit) + (if server(n - 1).Failed? && n - 1 < limit then 1 else 0)
  }

  /** When the first `n` attempts all failed and all lie below `limit`, each counts. */
  lemma {:induction false} FailuresBelowAll(server: nat -> Reply, n: nat, limit: int)
    requires forall j: nat :: j < n ==> server(j).Failed?
    requires n <= limit
    ensures FailuresBelow(server, n, limit) == n
  {
    if n > 0 {
      FailuresBelowAll(server, n - 1, limit);
    }
  }

  /** The loop pauses once after every failed attempt except one numbered
      `maxRetries - 1`, the last one allowed. */
  lemma {:induction false} GenerateSleeps(guidelines: string, word: string, maxRetries: int, server: nat -> Reply)
    ensures var events := Generate(guidelines, word, maxRetries, server).events;
      CountSleeps(events) == FailuresBelow(server, CountPosts(events), maxRetries - 1)
  {
    GenerateKeepsEvents(guidelines, word, maxRetries, server);
    RunEvents(guidelines, word, maxRetries, server);
    PausesOfAttemptsMade(Request(guidelines, word), server, maxRetries);
  }

  /** The attempts made hold one pause per failure below the last allowed number. */
  lemma {:induction false} PausesOfAttemptsMade(request: Event, server: nat -> Reply, maxRetries: int)
    requires request.Post?
    ensures var events := Attempts(request, AttemptsMade(server, maxRetries));
      CountSleeps(events) == FailuresBelow(server, CountPosts(events), maxRetries - 1)
  {
    var n := AttemptsMade(server, maxRetries);
    AttemptsCounts(request, n);
    match FirstSuccess(server, maxRetries, 0)
    case Some(k) =>
      FailuresBelowAll(server, k, maxRetries - 1);
    case None =>
      if maxRetries > 0 {
        FailuresBelowAll(server, maxRetries - 1, maxRetries - 1);
      }
  }
}
