/**
 executeCodeSync: submit one payload per test case to Judge0, poll until every token has
 finished or 30 seconds have passed, and sum the results up.

 Judge0's replies and the time that requests and sleeps take are inputs.
 */
module Judge0Polling {
  import opened Wrappers

  type Token = string

  /** A text that Judge0 leaves out is empty here, and a number it leaves out 0. */
  datatype Result = Result(token: Token, statusId: int, description: string, stdin: string, expectedOutput: string,
                           stdout: string, stderr: string, compileOutput: string, seconds: real, memoryKb: nat)

  datatype FailedCase = FailedCase(input: string, expectedOutput: string, actualOutput: string, error: string)

  datatype Verdict = ACCEPTED | PARTIAL | REJECTED

  datatype Context = Context(passedTestcases: nat, totalTestcases: nat, status: Verdict, runtimeMs: Option<int>,
                             memoryKb: Option<int>, failedTestCases: Option<seq<FailedCase>>)

  const MAX_WAIT_MS := 30000
  const POLL_INTERVAL_MS := 500
  const MAX_ROUNDS := 60

  /** Replies, and the milliseconds a request and a sleep take, by round. */
  datatype Judge0 = Judge0(replies: (nat, seq<Token>) -> seq<Result>, requestMs: nat -> nat, sleepMs: nat -> nat)

  /** No token twice. */
  ghost predicate Distinct(s: seq<Token>) {
    forall t | t in multiset(s) :: multiset(s)[t] == 1
  }

  function TokensOf(results: seq<Result>): (r: seq<Token>)
    ensures |r| == |results| && forall i | 0 <= i < |r| :: r[i] == results[i].token
  {
    if results == [] then [] else TokensOf(results[..|results| - 1]) + [results[|results| - 1].token]
  }

  /** One reply for every requested token, in any order. */
  ghost predicate AnswersEach(requested: seq<Token>, batch: seq<Result>) {
    && (forall i, j | 0 <= i < j < |batch| :: batch[i].token != batch[j].token)
    && (forall t :: t in requested <==> exists i :: 0 <= i < |batch| && batch[i].token == t)
  }

  ghost predicate Honest(j: Judge0) {
    && (forall r: nat, pending: seq<Token> | Distinct(pending) :: AnswersEach(pending, j.replies(r, pending)))
    && (forall r: nat :: j.sleepMs(r) >= POLL_INTERVAL_MS)
  }

  predicate Finished(r: Result) { r.statusId != 1 && r.statusId != 2 }

  function Without(pending: seq<Token>, t: Token): seq<Token> {
    if pending == [] then []
    else if pending[0] == t then Without(pending[1..], t)
    else [pending[0]] + Without(pending[1..], t)
  }

  lemma {:induction false} WithoutRemoves(pending: seq<Token>, t: Token)
    ensures multiset(Without(pending, t)) == multiset(pending)[t := 0]
  {
    if pending != [] {
      WithoutRemoves(pending[1..], t);
      assert pending == [pending[0]] + pending[1..];
    }
  }

  /** The states of the loop: pending and finished tokens partition all tokens. */
  ghost predicate Partition(tokens: seq<Token>, results: seq<Result>, pending: seq<Token>) {
    && Distinct(pending)
    && multiset(TokensOf(results)) + multiset(pending) == multiset(tokens)
    && (forall i | 0 <= i < |results| :: Finished(results[i]))
  }

  lemma TokensOfAppend(results: seq<Result>, r: Result)
    ensures TokensOf(results + [r]) == TokensOf(results) + [r.token]
  {}

  lemma MoveBalances(done: multiset<Token>, p: multiset<Token>, t: Token)
    requires p[t] == 1
    ensures (done + multiset{t}) + p[t := 0] == done + p
  {}

  lemma InMultiset(s: seq<Token>, t: Token)
    ensures t in s <==> t in multiset(s)
  {}

  lemma MoveKeepsPartition(tokens: seq<Token>, results: seq<Result>, pending: seq<Token>, r: Result)
    requires Partition(tokens, results, pending) && Finished(r) && r.token in pending
    ensures Partition(tokens, results + [r], Without(pending, r.token))
    ensures forall t :: t in Without(pending, r.token) <==> t in pending && t != r.token
  {
    hide TokensOf, Without, Finished;
    var p, left := multiset(pending), Without(pending, r.token);
    WithoutRemoves(pending, r.token);
    InMultiset(pending, r.token);
    forall t ensures t in left <==> t in pending && t != r.token {
      InMultiset(left, t);
      InMultiset(pending, t);
    }
    TokensOfAppend(results, r);
    assert multiset(TokensOf(results) + [r.token]) == multiset(TokensOf(results)) + multiset{r.token};
    MoveBalances(multiset(TokensOf(results)), p, r.token);
  }

  lemma PartitionCounts(tokens: seq<Token>, results: seq<Result>, pending: seq<Token>)
    requires Partition(tokens, results, pending)
    ensures |results| + |pending| == |tokens|
  {
    assert |multiset(TokensOf(results)) + multiset(pending)| == |multiset(tokens)|;
  }

  /** Token t is answered by the batch, and not as finished among the first n replies. */
  predicate Waiting(batch: seq<Result>, n: nat, t: Token) {
    exists k :: 0 <= k < |batch| && batch[k].token == t && (k < n ==> !Finished(batch[k]))
  }

  lemma WaitingAfter(batch: seq<Result>, n: nat)
    requires n < |batch| && forall i, j | 0 <= i < j < |batch| :: batch[i].token != batch[j].token
    ensures Waiting(batch, n, batch[n].token)
    ensures forall t :: Waiting(batch, n + 1, t)
                        <==> Waiting(batch, n, t) && (t == batch[n].token ==> !Finished(batch[n]))
  {
    forall t ensures Waiting(batch, n + 1, t)
                     <==> Waiting(batch, n, t) && (t == batch[n].token ==> !Finished(batch[n]))
    {
      if Waiting(batch, n, t) {
        var k :| 0 <= k < |batch| && batch[k].token == t && (k < n ==> !Finished(batch[k]));
        assert k == n <==> t == batch[n].token;
      }
    }
  }

  /** A reply of the batch says that the token is in the queue (1) or being processed (2). */
  predicate StillRunning(batch: seq<Result>, t: Token) {
    exists i :: 0 <= i < |batch| && batch[i].token == t && (batch[i].statusId == 1 || batch[i].statusId == 2)
  }

  /** No result is one of a token in the queue or being processed. */
  predicate NoneRunning(results: seq<Result>) {
    forall i | 0 <= i < |results| :: results[i].statusId != 1 && results[i].statusId != 2
  }

  lemma WaitingIsRunning(batch: seq<Result>, pending0: seq<Token>, pending: seq<Token>)
    requires AnswersEach(pending0, batch) && forall t :: t in pending <==> Waiting(batch, |batch|, t)
    ensures forall t :: t in pending <==> StillRunning(batch, t)
    ensures forall i | 0 <= i < |batch| ::
              batch[i].token in pending <==> batch[i].statusId == 1 || batch[i].statusId == 2
  {
    forall t ensures Waiting(batch, |batch|, t) <==> StillRunning(batch, t) {
      if Waiting(batch, |batch|, t) {
        var k :| 0 <= k < |batch| && batch[k].token == t && !Finished(batch[k]);
        assert batch[k].statusId == 1 || batch[k].statusId == 2;
      }
    }
    forall i | 0 <= i < |batch|
      ensures batch[i].token in pending <==> batch[i].statusId == 1 || batch[i].statusId == 2
    {
      assert StillRunning(batch, batch[i].token) <==> batch[i].statusId == 1 || batch[i].statusId == 2;
    }
  }

  /** The replies of one round: finished tokens move from pending to results. */
  method TakeBatch(batch: seq<Result>, results0: seq<Result>, pending0: seq<Token>, ghost tokens: seq<Token>)
    returns (results: seq<Result>, pending: seq<Token>)
    requires Partition(tokens, results0, pending0) && AnswersEach(pending0, batch)
    ensures Partition(tokens, results, pending)
    ensures results0 <= results && forall i | |results0| <= i < |results| :: results[i] in batch
    ensures NoneRunning(results)
    ensures forall t :: t in pending <==> StillRunning(batch, t)
    ensures forall i | 0 <= i < |batch| ::
              batch[i].token in pending <==> batch[i].statusId == 1 || batch[i].statusId == 2
  {
    results, pending := results0, pending0;
    assert forall t :: t in pending <==> Waiting(batch, 0, t);
    var i := 0;
    while i < |batch|
      invariant i <= |batch|
      invariant Partition(tokens, results, pending)
      invariant results0 <= results && forall k | |results0| <= k < |results| :: results[k] in batch
      invariant forall t :: t in pending <==> Waiting(batch, i, t)
    {
      hide Partition, Without, TokensOf, Waiting;
      var result := batch[i];
      WaitingAfter(batch, i);
      if result.statusId != 1 && result.statusId != 2 {
        MoveKeepsPartition(tokens, results, pending, result);
        results := results + [result];
        pending := Without(pending, result.token);
      }
      i := i + 1;
    }
    WaitingIsRunning(batch, pending0, pending);
  }

  ghost predicate AllRunning(batch: seq<Result>, pending: seq<Token>) {
    forall t | t in pending :: StillRunning(batch, t)
  }

  ghost predicate RoundSaw(j: Judge0, round: nat, asked: seq<Token>, pending: seq<Token>) {
    AllRunning(j.replies(round, asked), pending)
  }

  /** The last round, if there was one, found every pending token in the queue or being processed. */
  ghost predicate LastSeenRunning(j: Judge0, rounds: nat, pending: seq<Token>) {
    rounds > 0 ==> exists round: nat, asked: seq<Token> :: round + 1 == rounds && RoundSaw(j, round, asked, pending)
  }

  lemma SawRound(j: Judge0, rounds: nat, asked: seq<Token>, pending: seq<Token>)
    requires forall t | t in pending :: StillRunning(j.replies(rounds, asked), t)
    ensures LastSeenRunning(j, rounds + 1, pending)
  {
    assert RoundSaw(j, rounds, asked, pending);
  }

  lemma HonestRound(j: Judge0, round: nat, tokens: seq<Token>, results: seq<Result>, pending: seq<Token>)
    requires Honest(j) && Partition(tokens, results, pending)
    ensures AnswersEach(pending, j.replies(round, pending)) && j.sleepMs(round) >= POLL_INTERVAL_MS
  {}

  /** Judge0 gave this result in some round. */
  ghost predicate WasReplied(j: Judge0, rounds: nat, r: Result) {
    exists round: nat, asked: seq<Token> :: round < rounds && r in j.replies(round, asked)
  }

  ghost predicate AllReplied(j: Judge0, rounds: nat, results: seq<Result>) {
    forall i | 0 <= i < |results| :: WasReplied(j, rounds, results[i])
  }

  lemma RepliedStays(j: Judge0, rounds: nat, r: Result)
    requires WasReplied(j, rounds, r)
    ensures WasReplied(j, rounds + 1, r)
  {
    var round: nat, asked: seq<Token> :| round < rounds && r in j.replies(round, asked);
    assert round < rounds + 1 && r in j.replies(round, asked);
  }

  lemma RoundIsReplied(j: Judge0, rounds: nat, asked: seq<Token>, before: seq<Result>, results: seq<Result>)
    requires AllReplied(j, rounds, before) && before <= results
    requires forall i | |before| <= i < |results| :: results[i] in j.replies(rounds, asked)
    ensures AllReplied(j, rounds + 1, results)
  {
    forall i | 0 <= i < |results| ensures WasReplied(j, rounds + 1, results[i]) {
      if i < |before| {
        assert results[i] == before[i];
        RepliedStays(j, rounds, before[i]);
      }
    }
  }

  /** The polling loop. */
  method Poll(tokens: seq<Token>, judge0: Judge0)
    returns (results: seq<Result>, pending: seq<Token>, rounds: nat, elapsed: nat)
    requires Distinct(tokens) && Honest(judge0)
    ensures Partition(tokens, results, pending)
    ensures rounds <= 60 && (tokens != [] ==> rounds > 0)
    ensures pending == [] || elapsed >= 30_000
    ensures NoneRunning(results) && AllReplied(judge0, rounds, results)
    ensures LastSeenRunning(judge0, rounds, pending)
  {
    results, pending, rounds, elapsed := [], tokens, 0, 0;
    while |pending| > 0 && elapsed < MAX_WAIT_MS
      invariant Partition(tokens, results, pending)
      invariant rounds <= MAX_ROUNDS && (|pending| > 0 ==> elapsed >= rounds * POLL_INTERVAL_MS)
      invariant NoneRunning(results) && (rounds == 0 ==> pending == tokens && elapsed == 0)
      invariant AllReplied(judge0, rounds, results) && LastSeenRunning(judge0, rounds, pending)
      decreases if |pending| > 0 then 1 else 0, MAX_WAIT_MS - elapsed
    {
      hide Partition, NoneRunning, AllReplied, AnswersEach, StillRunning, LastSeenRunning, Honest;
      var batch := judge0.replies(rounds, pending);
      elapsed := elapsed + judge0.requestMs(rounds);
      HonestRound(judge0, rounds, tokens, results, pending);
      ghost var before, asked := results, pending;
      results, pending := TakeBatch(batch, results, pending, tokens);
      RoundIsReplied(judge0, rounds, asked, before, results);
      SawRound(judge0, rounds, asked, pending);
      if |pending| > 0 {
        elapsed := elapsed + judge0.sleepMs(rounds);
      }
      rounds := rounds + 1;
    }
  }

  function Passed(results: seq<Result>): seq<Result> {
    if results == [] then [] else
    var last := results[|results| - 1];
    Passed(results[..|results| - 1]) + (if last.statusId == 3 then [last] else [])
  }

  function NotPassed(results: seq<Result>): seq<Result> {
    if results == [] then [] else
    var last := results[|results| - 1];
    NotPassed(results[..|results| - 1]) + (if last.statusId == 3 then [] else [last])
  }

  lemma {:induction false} PassedCounts(results: seq<Result>)
    ensures |Passed(results)| + |NotPassed(results)| == |results|
    ensures |Passed(results)| == |results| <==> forall i | 0 <= i < |results| :: results[i].statusId == 3
    ensures |Passed(results)| > 0 <==> exists i :: 0 <= i < |results| && results[i].statusId == 3
  {
    if results != [] {
      var n := |results| - 1;
      PassedCounts(results[..n]);
      assert forall i | 0 <= i < n :: results[..n][i] == results[i];
    }
  }

  /** The failures keep their order: each comes after as many others as failed before it. */
  lemma {:induction false} NotPassedInOrder(results: seq<Result>, i: nat)
    requires i < |results| && results[i].statusId != 3
    ensures |NotPassed(results[..i])| < |NotPassed(results)|
    ensures NotPassed(results)[|NotPassed(results[..i])|] == results[i]
  {
    var n := |results| - 1;
    if i < n {
      assert results[..n][..i] == results[..i];
      NotPassedInOrder(results[..n], i);
    }
  }

  /** What is told of a failed case: the first output that is not empty, and the status text. */
  function Report(r: Result): FailedCase {
    FailedCase(r.stdin, r.expectedOutput,
               if r.stdout != "" then r.stdout else if r.stderr != "" then r.stderr else r.compileOutput,
               r.description)
  }

  function TotalMs(results: seq<Result>): real {
    if results == [] then 0.0 else TotalMs(results[..|results| - 1]) + results[|results| - 1].seconds * 1000.0
  }

  function TotalKb(results: seq<Result>): nat {
    if results == [] then 0 else TotalKb(results[..|results| - 1]) + results[|results| - 1].memoryKb
  }

  /** What the case printed, else what it complained, else what the compiler said. */
  lemma ReportTells(r: Result)
    ensures Report(r).input == r.stdin && Report(r).expectedOutput == r.expectedOutput
    ensures Report(r).error == r.description
    ensures Report(r).actualOutput in [r.stdout, r.stderr, r.compileOutput]
    ensures Report(r).actualOutput == "" ==> r.stdout == r.stderr == r.compileOutput == ""
    ensures r.stdout != "" ==> Report(r).actualOutput == r.stdout
    ensures r.stderr != "" ==> Report(r).actualOutput == r.stderr || r.stdout != ""
  {}

  /** The totals are in milliseconds and kilobytes, and add up over any split of the results. */
  lemma {:induction false} TotalsAdd(a: seq<Result>, b: seq<Result>)
    ensures TotalMs(a + b) == TotalMs(a) + TotalMs(b) && TotalKb(a + b) == TotalKb(a) + TotalKb(b)
    ensures |b| == 1 ==> TotalMs(b) == b[0].seconds * 1000.0 && TotalKb(b) == b[0].memoryKb
  {
    if b == [] {
      assert a + b == a;
    } else {
      var n := |b| - 1;
      assert (a + b)[..|a| + n] == a + b[..n];
      TotalsAdd(a, b[..n]);
    }
  }

  /** Math.round(total / n) || undefined, where 0 / 0 is not a number. */
  function RoundedMean(total: real, n: nat): (r: Option<int>)
    ensures n == 0 ==> r.None?
    ensures n > 0 ==> var m := if r.None? then 0 else r.value;
                      m as real - 0.5 <= total / n as real < m as real + 0.5
    ensures r != Some(0)
  {
    if n == 0 then None else
    var m := (total / n as real + 0.5).Floor;
    if m == 0 then None else Some(m)
  }

  /** The first three failures, reported in order. */
  predicate FirstFailures(failed: seq<FailedCase>, results: seq<Result>) {
    && |failed| == (if |NotPassed(results)| < 3 then |NotPassed(results)| else 3)
    && forall i | 0 <= i < |failed| :: failed[i] == Report(NotPassed(results)[i])
  }

  /** All of them when there are less than three. */
  lemma FirstFailuresAre(failed: seq<FailedCase>, results: seq<Result>)
    requires FirstFailures(failed, results)
    ensures var failures := NotPassed(results);
            failed == if |failures| == 0 then []
                      else if |failures| == 1 then [Report(failures[0])]
                      else if |failures| == 2 then [Report(failures[0]), Report(failures[1])]
                      else [Report(failures[0]), Report(failures[1]), Report(failures[2])]
  {
    hide Report, NotPassed;
  }

  /** The context agrees with the results: counts, means over all results, and the first failures. */
  predicate SumsUp(ctx: Context, results: seq<Result>, totalTestcases: nat) {
    && ctx.passedTestcases == |Passed(results)| && ctx.totalTestcases == totalTestcases
    && ctx.status == (if |Passed(results)| == totalTestcases then ACCEPTED
                      else if |Passed(results)| > 0 then PARTIAL else REJECTED)
    && ctx.runtimeMs == RoundedMean(TotalMs(results), |results|)
    && ctx.memoryKb == RoundedMean(TotalKb(results) as real, |results|)
    && ctx.failedTestCases.Some? && FirstFailures(ctx.failedTestCases.value, results)
  }

  /** The loop over the finished results, and the verdict. */
  method SumUp(results: seq<Result>, totalTestcases: nat) returns (ctx: Context)
    ensures SumsUp(ctx, results, totalTestcases)
  {
    var passedCount, totalRuntime, totalMemory := 0, 0.0, 0;
    var failed: seq<FailedCase> := [];
    for i := 0 to |results|
      invariant passedCount == |Passed(results[..i])| && |failed| == |NotPassed(results[..i])|
      invariant forall j | 0 <= j < |failed| :: failed[j] == Report(NotPassed(results[..i])[j])
      invariant totalRuntime == TotalMs(results[..i]) && totalMemory == TotalKb(results[..i])
    {
      var result := results[i];
      assert results[..i + 1][..i] == results[..i];
      if result.statusId == 3 {
        passedCount := passedCount + 1;
      } else {
        var output := if result.stdout != "" then result.stdout
                      else if result.stderr != "" then result.stderr else result.compileOutput;
        failed := failed + [FailedCase(result.stdin, result.expectedOutput, output, result.description)];
      }
      totalRuntime := totalRuntime + result.seconds * 1000.0;
      totalMemory := totalMemory + result.memoryKb;
    }
    assert results[..|results|] == results;
    var status := if passedCount == totalTestcases then ACCEPTED else if passedCount > 0 then PARTIAL else REJECTED;
    ctx := Context(passedCount, totalTestcases, status, RoundedMean(totalRuntime, |results|),
                   RoundedMean(totalMemory as real, |results|), Some(if |failed| <= 3 then failed else failed[..3]));
  }

  /**
   executeCodeSync.  tokens are the tokens Judge0 gave, one for each payload; a problem without a
   test-case file and a submission without payloads are rejected outright.
   */
  method ExecuteCodeSync(hasTestcaseFile: bool, tokens: seq<Token>, judge0: Judge0)
    returns (ctx: Context, results: seq<Result>, pending: seq<Token>)
    requires Distinct(tokens) && Honest(judge0)
    ensures !hasTestcaseFile || tokens == [] ==> ctx == Context(0, 0, REJECTED, None, None, None)
    ensures hasTestcaseFile && tokens != [] ==>
      && Partition(tokens, results, pending) && NoneRunning(results) && SumsUp(ctx, results, |tokens|)
      && ctx.totalTestcases == |tokens|
      && (ctx.status == ACCEPTED <==> pending == [] && forall i | 0 <= i < |results| :: results[i].statusId == 3)
      && (ctx.status == REJECTED <==> forall i | 0 <= i < |results| :: results[i].statusId != 3)
  {
    results, pending := [], tokens;
    if !hasTestcaseFile {
      return Context(0, 0, REJECTED, None, None, None), results, pending;
    }
    if |tokens| == 0 {
      return Context(0, 0, REJECTED, None, None, None), results, pending;
    }
    var rounds, elapsed;
    results, pending, rounds, elapsed := Poll(tokens, judge0);
    ctx := SumUp(results, |tokens|);
    PartitionCounts(tokens, results, pending);
    PassedCounts(results);
  }

  lemma PlacesCount(s: seq<Token>, i: nat, j: nat)
    requires i < j < |s| && s[i] == s[j]
    ensures s[i] in multiset(s) && multiset(s)[s[i]] >= 2
  {
    var head, rest := s[..j], s[j..];
    assert s == head + rest;
    assert head[i] in multiset(head) && rest[0] in multiset(rest);
    assert multiset(s) == multiset(head) + multiset(rest);
  }

  lemma DistinctPlaces(s: seq<Token>, i: nat, j: nat)
    requires Distinct(s) && i < |s| && j < |s| && s[i] == s[j]
    ensures i == j
  {
    if i < j {
      PlacesCount(s, i, j);
    } else if j < i {
      PlacesCount(s, j, i);
    }
  }

  lemma PartitionIsDistinct(tokens: seq<Token>, results: seq<Result>, pending: seq<Token>)
    requires Distinct(tokens) && Partition(tokens, results, pending)
    ensures Distinct(TokensOf(results))
    ensures forall t | t in TokensOf(results) :: t in tokens && t !in pending
    ensures forall t | t in pending :: t in tokens
    ensures forall t | t in tokens :: t in TokensOf(results) || t in pending
  {
    hide TokensOf, Finished;
    var got := TokensOf(results);
    forall t
      ensures multiset(got)[t] + multiset(pending)[t] == multiset(tokens)[t]
      ensures (t in tokens <==> t in multiset(tokens)) && (t in got <==> t in multiset(got))
              && (t in pending <==> t in multiset(pending))
    {
      assert (multiset(got) + multiset(pending))[t] == multiset(tokens)[t];
    }
    forall t | t in multiset(got) ensures multiset(got)[t] == 1 {
      assert multiset(got)[t] + multiset(pending)[t] == multiset(tokens)[t] == 1;
    }
    forall t | t in tokens ensures t in got || t in pending {
      assert t in multiset(tokens);
    }
    forall t | t in got ensures t in tokens && t !in pending {
      assert t in multiset(got) && t in multiset(tokens);
    }
  }

  predicate HasPassed(results: seq<Result>, t: Token) {
    exists i :: 0 <= i < |results| && results[i].token == t && results[i].statusId == 3
  }

  /** After a poll, ACCEPTED means that every single test case finished with status 3. */
  lemma AcceptedIffEveryTokenPassed(tokens: seq<Token>, results: seq<Result>, pending: seq<Token>)
    requires Distinct(tokens) && Partition(tokens, results, pending)
    ensures |Passed(results)| == |tokens| <==> forall t | t in tokens :: HasPassed(results, t)
  {
    PartitionCounts(tokens, results, pending);
    PassedCounts(results);
    if |Passed(results)| == |tokens| {
      forall t | t in tokens ensures HasPassed(results, t) {
        PartitionIsDistinct(tokens, results, pending);
        var i :| 0 <= i < |results| && TokensOf(results)[i] == t;
      }
    }
    if forall t | t in tokens :: HasPassed(results, t) {
      AllPassed(tokens, results, pending);
    }
  }

  lemma PassedIsNotPending(results: seq<Result>, pending: seq<Token>, t: Token)
    requires HasPassed(results, t) && forall i | 0 <= i < |results| :: results[i].token !in pending
    ensures t !in pending
  {}

  lemma AllPassed(tokens: seq<Token>, results: seq<Result>, pending: seq<Token>)
    requires Distinct(tokens) && Partition(tokens, results, pending)
    requires forall t | t in tokens :: HasPassed(results, t)
    ensures pending == [] && forall i | 0 <= i < |results| :: results[i].statusId == 3
  {
    PartitionIsDistinct(tokens, results, pending);
    hide Partition, Distinct, TokensOf, HasPassed;
    var got := TokensOf(results);
    assert forall i | 0 <= i < |results| :: got[i] == results[i].token && got[i] in got;
    if pending != [] {
      PassedIsNotPending(results, pending, pending[0]);
    }
    forall i | 0 <= i < |results| ensures results[i].statusId == 3 {
      ResultPassed(results, got, i);
    }
  }

  lemma ResultPassed(results: seq<Result>, got: seq<Token>, i: nat)
    requires got == TokensOf(results) && Distinct(got) && i < |results| && HasPassed(results, got[i])
    ensures results[i].statusId == 3
  {
    hide Distinct;
    var k: nat :| k < |results| && results[k].token == got[i] && results[k].statusId == 3;
    DistinctPlaces(got, i, k);
  }
}
