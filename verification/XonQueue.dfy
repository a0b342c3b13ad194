/**
 The queue in front of XposedOrNot: one question at a time for the whole server, never closer than
 the spacing, later after a refusal, and only so many requests of one account waiting.
 */
module XonQueue {
  import opened Clock
  import opened Counters
  import opened Prelude

  const LONGEST_DURATION: nat := (U64 - 1) * SECOND + 999_999_999

  datatype Limits = Limits(spacing: nat, retries: nat, longestPause: nat, longestWait: nat, perAccount: nat)

  // ----- Places in the queue -----

  datatype Places = Places(waiting: Counts, live: multiset<string>)

  /** `enter` leaves the entry behind even when there is no place. */
  function Entered(waiting: Counts, perAccount: nat, account: string): Counts {
    if Get(waiting, account) >= perAccount then waiting[account := Get(waiting, account)] else Raise(waiting, account)
  }

  datatype PlaceStep = Enter(account: string) | Leave(account: string)

  ghost predicate NextPlaces(perAccount: nat, p: Places, step: PlaceStep, p': Places) {
    match step
    case Enter(account) =>
      p' == Places(Entered(p.waiting, perAccount, account),
                   if Get(p.waiting, account) < perAccount then p.live + multiset{account} else p.live)
    case Leave(account) =>
      account in p.live && Get(p.waiting, account) > 0 && p' == Places(Lower(p.waiting, account), p.live - multiset{account})
  }

  ghost predicate FollowPlaces(perAccount: nat, p: Places, p': Places) {
    exists step :: NextPlaces(perAccount, p, step, p')
  }

  ghost predicate PlacesRun(perAccount: nat, run: seq<Places>) {
    && |run| > 0 && run[0] == Places(map[], multiset{})
    && forall i | 0 < i < |run| :: FollowPlaces(perAccount, run[i - 1], run[i])
  }

  /** Every counter is the number of the account's live places, of which there are few. */
  ghost predicate Counted(perAccount: nat, p: Places) {
    forall account :: Get(p.waiting, account) == p.live[account] <= perAccount
  }

  lemma EnteredCounts(perAccount: nat, p: Places, account: string, a: string)
    requires Get(p.waiting, account) == p.live[account] && Get(p.waiting, a) == p.live[a] <= perAccount
    ensures var waiting := Entered(p.waiting, perAccount, account);
            var live := if p.live[account] < perAccount then p.live + multiset{account} else p.live;
            && Get(waiting, a) == live[a] <= perAccount
            && (a in waiting && (a in p.waiting ==> p.waiting[a] > 0) && perAccount >= 1 ==> waiting[a] > 0)
  {
  }

  lemma LeftCounts(perAccount: nat, p: Places, account: string, a: string)
    requires Get(p.waiting, account) == p.live[account] > 0 && Get(p.waiting, a) == p.live[a] <= perAccount
    ensures Get(Lower(p.waiting, account), a) == (p.live - multiset{account})[a] <= perAccount
    ensures a in Lower(p.waiting, account) && (a in p.waiting ==> p.waiting[a] > 0) ==> Lower(p.waiting, account)[a] > 0
  {
  }

  lemma PlaceStepCounts(perAccount: nat, p: Places, p': Places, account: string)
    requires Counted(perAccount, p) && FollowPlaces(perAccount, p, p')
    ensures Get(p'.waiting, account) == p'.live[account] <= perAccount
    ensures perAccount >= 1 && (account in p.waiting ==> p.waiting[account] > 0) && account in p'.waiting ==>
              p'.waiting[account] > 0
  {
    var step :| NextPlaces(perAccount, p, step, p');
    assert Get(p.waiting, account) == p.live[account] <= perAccount;
    assert Get(p.waiting, step.account) == p.live[step.account];
    if step.Enter? {
      EnteredCounts(perAccount, p, step.account, account);
    } else {
      LeftCounts(perAccount, p, step.account, account);
    }
  }

  lemma {:induction false} PlacesAreCounted(perAccount: nat, run: seq<Places>, i: nat)
    requires PlacesRun(perAccount, run) && i < |run|
    ensures Counted(perAccount, run[i])
    ensures perAccount >= 1 ==> NoZero(run[i].waiting)
  {
    if i > 0 {
      PlacesAreCounted(perAccount, run, i - 1);
      assert FollowPlaces(perAccount, run[i - 1], run[i]);
      forall account
        ensures Get(run[i].waiting, account) == run[i].live[account] <= perAccount
        ensures perAccount >= 1 && account in run[i].waiting ==> run[i].waiting[account] > 0
      {
        PlaceStepCounts(perAccount, run[i - 1], run[i], account);
      }
    }
  }

  ghost predicate NothingLeftBehind(perAccount: nat) {
    forall run: seq<Places> | PlacesRun(perAccount, run) :: NoZero(run[|run| - 1].waiting)
  }

  /** A counter of zero stays behind just where no account may wait at all. */
  lemma NothingLeftBehindIfAnyMayWait(perAccount: nat)
    ensures NothingLeftBehind(perAccount) <==> perAccount >= 1
  {
    if perAccount == 0 {
      var p := Places(map["a" := 0], multiset{});
      var run := [Places(map[], multiset{}), p];
      assert NextPlaces(0, run[0], Enter("a"), p);
      assert PlacesRun(0, run) && p.waiting["a"] == 0;
    } else {
      forall run: seq<Places> | PlacesRun(perAccount, run)
        ensures NoZero(run[|run| - 1].waiting)
      {
        PlacesAreCounted(perAccount, run, |run| - 1);
      }
    }
  }

  // ----- Questions -----

  datatype Outcome = Answered(status: nat, retryAfter: Option<nat>) | NoAnswer | GoneWhileAsking

  predicate Refusal(outcome: Outcome) {
    outcome.Answered? && (outcome.status == 429 || 500 <= outcome.status < 600)
  }

  /** `2u32.saturating_pow(n)`. */
  function SaturatingPower2(n: nat): nat {
    Min(Power2(n), U32 - 1)
  }

  function Wanted(limits: Limits, retryAfter: Option<nat>, attempt: nat): nat {
    match retryAfter
    case Some(seconds) => seconds * SECOND
    case None => Min(Max(limits.spacing, SECOND) * SaturatingPower2(attempt + 1), LONGEST_DURATION)
  }

  function Pause(limits: Limits, retryAfter: Option<nat>, attempt: nat): (pause: nat)
    ensures pause <= limits.longestPause
    ensures limits.spacing <= limits.longestPause ==> limits.spacing <= pause
    ensures pause >= Min(Wanted(limits, retryAfter, attempt), limits.longestPause)
  {
    Min(Max(Wanted(limits, retryAfter, attempt), limits.spacing), limits.longestPause)
  }

  /** A question, and how many the same request asked before it. */
  datatype Asked = Asked(begin: Instant, end: Instant, outcome: Outcome, attempt: nat)

  /** The request whose turn it is: when it came, and how many questions it asked. */
  datatype Turn = Turn(started: Instant, attempt: nat)

  datatype Queue = Queue(next: Instant, turn: Option<Turn>, asked: seq<Asked>, clock: Instant)

  datatype Step =
    | Take(started: Instant, now: Instant)
    | Busy(now: Instant)
    | Ask(now: Instant, begin: Instant, end: Instant, outcome: Outcome)
    | Leave(now: Instant)

  /** Asks again after this answer. */
  predicate Again(limits: Limits, outcome: Outcome, attempt: nat) {
    Refusal(outcome) && attempt < limits.retries
  }

  /** What must pass after this answer; nothing is set when the request is dropped before it comes. */
  function Gap(limits: Limits, a: Asked): nat {
    if a.outcome.GoneWhileAsking? then 0
    else if Again(limits, a.outcome, a.attempt) then Pause(limits, a.outcome.retryAfter, a.attempt)
    else limits.spacing
  }

  ghost function AfterAsk(limits: Limits, q: Queue, a: Asked): Queue
    requires q.turn.Some?
  {
    Queue(if a.outcome.GoneWhileAsking? then q.next else a.end + Gap(limits, a),
          if Again(limits, a.outcome, a.attempt) then Some(Turn(q.turn.value.started, a.attempt + 1)) else None,
          q.asked + [a], a.end)
  }

  ghost predicate Next(limits: Limits, q: Queue, step: Step, q': Queue) {
    match step
    case Take(started, now) =>
      q.turn.None? && q.clock <= now && started <= now && q' == q.(turn := Some(Turn(started, 0)), clock := now)
    case Busy(now) =>
      && q.turn.Some? && q.clock <= now < q.next && q.next - q.turn.value.started > limits.longestWait
      && q' == q.(turn := None, clock := now)
    case Ask(now, begin, end, outcome) =>
      && q.turn.Some? && q.clock <= now <= begin <= end && q.next <= begin
      && (q.next > now ==> q.next - q.turn.value.started <= limits.longestWait)
      && q' == AfterAsk(limits, q, Asked(begin, end, outcome, q.turn.value.attempt))
    case Leave(now) =>
      q.turn.Some? && q.clock <= now && q' == q.(turn := None, clock := now)
  }

  ghost predicate Follows(limits: Limits, q: Queue, q': Queue) {
    exists step :: Next(limits, q, step, q')
  }

  ghost predicate Run(limits: Limits, run: seq<Queue>) {
    && |run| > 0 && run[0].turn == None && run[0].asked == []
    && forall i | 0 < i < |run| :: Follows(limits, run[i - 1], run[i])
  }

  ghost predicate GapsKept(limits: Limits, asked: seq<Asked>) {
    forall j, k | 0 <= j < k < |asked| && k == j + 1 :: asked[j].end + Gap(limits, asked[j]) <= asked[k].begin
  }

  /** A request asks at most once more than it may retry, and only what was refused. */
  ghost predicate FewRetries(limits: Limits, asked: seq<Asked>) {
    && (forall k | 0 <= k < |asked| :: asked[k].attempt <= limits.retries)
    && (forall j, k | 0 <= j < k < |asked| && k == j + 1 && asked[k].attempt > 0 ::
          Again(limits, asked[j].outcome, asked[j].attempt) && asked[k].attempt == asked[j].attempt + 1)
  }

  ghost predicate Inv(limits: Limits, q: Queue) {
    && GapsKept(limits, q.asked) && FewRetries(limits, q.asked)
    && (q.turn.Some? ==> q.turn.value.attempt <= limits.retries)
    && (q.asked != [] ==>
          var last := q.asked[|q.asked| - 1];
          && last.end <= q.clock
          && (!last.outcome.GoneWhileAsking? ==> q.next == last.end + Gap(limits, last))
          && (q.turn.Some? && q.turn.value.attempt > 0 ==>
                Again(limits, last.outcome, last.attempt) && q.turn.value.attempt == last.attempt + 1))
    && (q.asked == [] && q.turn.Some? ==> q.turn.value.attempt == 0)
  }

  lemma AskKeeps(limits: Limits, q: Queue, a: Asked)
    requires Inv(limits, q) && q.turn.Some? && a.attempt == q.turn.value.attempt
    requires q.clock <= a.begin <= a.end && q.next <= a.begin
    ensures Inv(limits, AfterAsk(limits, q, a))
  {
    var after := AfterAsk(limits, q, a);
    assert GapsKept(limits, after.asked) by {
      assert q.asked != [] ==> q.asked[|q.asked| - 1].end + Gap(limits, q.asked[|q.asked| - 1]) <= a.begin;
    }
    assert FewRetries(limits, after.asked);
  }

  lemma StepKeeps(limits: Limits, q: Queue, q': Queue)
    requires Inv(limits, q) && Follows(limits, q, q')
    ensures Inv(limits, q')
  {
    var step :| Next(limits, q, step, q');
    if step.Ask? {
      AskKeeps(limits, q, Asked(step.begin, step.end, step.outcome, q.turn.value.attempt));
    } else {
      OthersKeep(limits, q, step, q');
    }
  }

  lemma OthersKeep(limits: Limits, q: Queue, step: Step, q': Queue)
    requires Inv(limits, q) && Next(limits, q, step, q') && !step.Ask?
    ensures Inv(limits, q')
  {
  }

  /** Every question waits out what the answer before it asks for. */
  lemma {:induction false} RunKeepsGaps(limits: Limits, run: seq<Queue>, i: nat)
    requires Run(limits, run) && i < |run|
    ensures Inv(limits, run[i])
  {
    if i > 0 {
      RunKeepsGaps(limits, run, i - 1);
      StepKeeps(limits, run[i - 1], run[i]);
    }
  }

  // ----- How long is waited, in so many seconds -----

  /** Asks to wait: 429, or an error of the server. */
  predicate AsksToWait(status: nat) {
    status == 429 || (500 <= status && status < 600)
  }

  /** With `Retry-After` the pause is what it says, between the spacing and the longest pause. */
  lemma PauseAsTold(limits: Limits, seconds: nat, attempt: nat)
    ensures Pause(limits, Some(seconds), attempt) == Min(Max(seconds * SECOND, limits.spacing), limits.longestPause)
  {
  }

  lemma {:induction false} PowerGrows(n: nat, m: nat)
    requires n <= m
    ensures Power2(n) <= Power2(m)
  {
    if n < m {
      PowerGrows(n, m - 1);
    }
  }

  lemma PowerOf31()
    ensures Power2(31) == 0x8000_0000 && Power2(32) == U32
  {
    assert Power2(8) == 256;
    assert Power2(16) == 0x1_0000;
    assert Power2(24) == 0x100_0000;
    assert Power2(31) == 0x8000_0000;
  }

  /**
   Without `Retry-After` it is twice the spacing, or twice a second if that is longer, and doubles with
   each refusal up to the longest pause; from the 32nd on it stays, where the power is at its top.
   */
  lemma PauseDoubles(limits: Limits, attempt: nat)
    requires limits.longestPause <= LONGEST_DURATION
    ensures attempt <= 30 ==>
              Pause(limits, None, attempt) == Min(Max(limits.spacing, SECOND) * Power2(attempt + 1), limits.longestPause)
    ensures attempt >= 31 ==>
              Pause(limits, None, attempt) == Min(Max(limits.spacing, SECOND) * (U32 - 1), limits.longestPause)
    ensures Pause(limits, None, 0) == Min(2 * Max(limits.spacing, SECOND), limits.longestPause)
  {
    var base := Max(limits.spacing, SECOND);
    PowerOf31();
    if attempt <= 30 {
      PowerGrows(attempt + 1, 31);
    } else {
      PowerGrows(32, attempt + 1);
    }
    assert SaturatingPower2(attempt + 1) == if attempt <= 30 then Power2(attempt + 1) else U32 - 1;
    AtLeastOnce(base, SaturatingPower2(attempt + 1));
    assert SaturatingPower2(1) == 2;
  }

  lemma AtLeastOnce(base: nat, times: nat)
    requires times >= 1
    ensures base * times >= base
  {
  }

  /** What must pass after a question before the next one, by what came of it. */
  ghost predicate PassesAfter(limits: Limits, a: Asked, passes: nat) {
    if a.outcome.Answered? && AsksToWait(a.outcome.status) && a.attempt < limits.retries then
      passes == match a.outcome.retryAfter
        case Some(seconds) => Min(Max(seconds * SECOND, limits.spacing), limits.longestPause)
        case None =>
          Min(Max(limits.spacing, SECOND) * (if a.attempt <= 30 then Power2(a.attempt + 1) else U32 - 1), limits.longestPause)
    else passes == limits.spacing
  }

  lemma GapIsExact(limits: Limits, a: Asked)
    requires limits.longestPause <= LONGEST_DURATION && !a.outcome.GoneWhileAsking?
    ensures PassesAfter(limits, a, Gap(limits, a))
  {
    if Again(limits, a.outcome, a.attempt) {
      if a.outcome.retryAfter.Some? {
        PauseAsTold(limits, a.outcome.retryAfter.value, a.attempt);
      } else {
        PauseDoubles(limits, a.attempt);
      }
    }
  }

  /** The last question whose request was not dropped while it asked. */
  ghost function LastHeard(asked: seq<Asked>): (heard: Option<Asked>)
    ensures heard.Some? ==> heard.value in asked && !heard.value.outcome.GoneWhileAsking?
  {
    if asked == [] then None
    else if asked[|asked| - 1].outcome.GoneWhileAsking? then LastHeard(asked[..|asked| - 1])
    else Some(asked[|asked| - 1])
  }

  lemma HeardOneMore(asked: seq<Asked>, a: Asked)
    ensures LastHeard(asked + [a]) == if a.outcome.GoneWhileAsking? then LastHeard(asked) else Some(a)
  {
    assert (asked + [a])[..|asked|] == asked;
  }

  /** Whatever a step is, it either leaves `next` and the questions as they are or asks. */
  lemma StepAsks(limits: Limits, q: Queue, q': Queue) returns (a: Asked)
    requires Follows(limits, q, q')
    ensures || (q'.next == q.next && q'.asked == q.asked)
            || (q'.asked == q.asked + [a] && q'.next == if a.outcome.GoneWhileAsking? then q.next else a.end + Gap(limits, a))
  {
    var step :| Next(limits, q, step, q');
    if step.Ask? {
      a := Asked(step.begin, step.end, step.outcome, q.turn.value.attempt);
      assert q' == AfterAsk(limits, q, a);
    } else {
      a := Asked(0, 0, NoAnswer, 0);
    }
  }

  lemma {:induction false} NextByLastHeard(limits: Limits, run: seq<Queue>, i: nat)
    requires Run(limits, run) && i < |run|
    ensures var heard := LastHeard(run[i].asked);
            run[i].next == if heard.Some? then heard.value.end + Gap(limits, heard.value) else run[0].next
  {
    if i > 0 {
      NextByLastHeard(limits, run, i - 1);
      var a := StepAsks(limits, run[i - 1], run[i]);
      HeardOneMore(run[i - 1].asked, a);
    }
  }

  /**
   The next question may go out exactly when what the last one asks for that was not dropped has
   passed: `next` is that instant, and whoever has the turn and does not wait too long may ask then.
   */
  lemma NextIsExact(limits: Limits, run: seq<Queue>, i: nat, outcome: Outcome)
    requires limits.longestPause <= LONGEST_DURATION && Run(limits, run) && i < |run|
    ensures var (q, heard) := (run[i], LastHeard(run[i].asked));
            && (if heard.Some? then heard.value.end <= q.next && PassesAfter(limits, heard.value, q.next - heard.value.end)
                else q.next == run[0].next)
            && (q.turn.Some? && q.next - q.turn.value.started <= limits.longestWait ==>
                  var at := Max(q.next, q.clock);
                  exists q' :: Next(limits, q, Ask(q.clock, at, at, outcome), q'))
  {
    NextByLastHeard(limits, run, i);
    var (q, heard) := (run[i], LastHeard(run[i].asked));
    if heard.Some? {
      GapIsExact(limits, heard.value);
    }
    if q.turn.Some? && q.next - q.turn.value.started <= limits.longestWait {
      var at := Max(q.next, q.clock);
      assert Next(limits, q, Ask(q.clock, at, at, outcome), AfterAsk(limits, q, Asked(at, at, outcome, q.turn.value.attempt)));
    }
  }

  /** And no question begins earlier. */
  lemma WaitedBetween(limits: Limits, run: seq<Queue>, i: nat, j: nat) returns (passes: nat)
    requires limits.longestPause <= LONGEST_DURATION && Run(limits, run) && i < |run| && j + 1 < |run[i].asked|
    requires !run[i].asked[j].outcome.GoneWhileAsking?
    ensures PassesAfter(limits, run[i].asked[j], passes)
    ensures run[i].asked[j].end + passes <= run[i].asked[j + 1].begin
  {
    RunKeepsGaps(limits, run, i);
    GapIsExact(limits, run[i].asked[j]);
    passes := Gap(limits, run[i].asked[j]);
  }

  // ----- When the spacing and `Retry-After` hold -----

  ghost predicate NoneDropped(q: Queue) {
    forall a | a in q.asked :: !a.outcome.GoneWhileAsking?
  }

  ghost predicate Apart(spacing: nat, asked: seq<Asked>) {
    forall j, k | 0 <= j < k < |asked| && k == j + 1 :: asked[j].end + spacing <= asked[k].begin
  }

  ghost predicate WaitedOut(limits: Limits, asked: seq<Asked>) {
    forall j, k | 0 <= j < k < |asked| && k == j + 1 && Refusal(asked[j].outcome) && asked[j].outcome.retryAfter.Some? ::
      asked[j].end + Min(asked[j].outcome.retryAfter.value * SECOND, limits.longestPause) <= asked[k].begin
  }

  ghost predicate AlwaysApart(limits: Limits) {
    forall run: seq<Queue> | Run(limits, run) && NoneDropped(run[|run| - 1]) :: Apart(limits.spacing, run[|run| - 1].asked)
  }

  ghost predicate AlwaysWaitedOut(limits: Limits) {
    forall run: seq<Queue> | Run(limits, run) && NoneDropped(run[|run| - 1]) :: WaitedOut(limits, run[|run| - 1].asked)
  }

  ghost predicate ApartEvenIfDropped(limits: Limits) {
    forall run: seq<Queue> | Run(limits, run) :: Apart(limits.spacing, run[|run| - 1].asked)
  }

  lemma Extend(limits: Limits, run: seq<Queue>, step: Step, q: Queue)
    requires Run(limits, run) && Next(limits, run[|run| - 1], step, q)
    ensures Run(limits, run + [q])
  {
    forall i | 0 < i < |run + [q]|
      ensures Follows(limits, (run + [q])[i - 1], (run + [q])[i])
    {
      if i < |run| {
        assert Follows(limits, run[i - 1], run[i]);
      }
    }
  }

  /** A request's next question, as early as it may be, with no time passing till the answer. */
  lemma AskNow(limits: Limits, run: seq<Queue>, outcome: Outcome) returns (run': seq<Queue>)
    requires Run(limits, run) && run[|run| - 1].turn.Some?
    ensures Run(limits, run') && |run'| > 0
    ensures var q := run[|run| - 1];
            var at := Max(q.next, q.clock);
            run'[|run'| - 1] == AfterAsk(limits, q, Asked(at, at, outcome, q.turn.value.attempt))
  {
    var q := run[|run| - 1];
    var at := Max(q.next, q.clock);
    var after := AfterAsk(limits, q, Asked(at, at, outcome, q.turn.value.attempt));
    Extend(limits, run, Ask(at, at, at, outcome), after);
    run' := run + [after];
  }

  lemma TakeNow(limits: Limits, run: seq<Queue>) returns (run': seq<Queue>)
    requires Run(limits, run) && run[|run| - 1].turn.None?
    ensures Run(limits, run') && |run'| > 0
    ensures var q := run[|run| - 1];
            run'[|run'| - 1] == q.(turn := Some(Turn(q.clock, 0)))
  {
    var q := run[|run| - 1];
    Extend(limits, run, Take(q.clock, q.clock), q.(turn := Some(Turn(q.clock, 0))));
    run' := run + [q.(turn := Some(Turn(q.clock, 0)))];
  }

  const REFUSED_AT_ONCE: Outcome := Answered(429, Some(0))

  /** A request that was refused `n` times and has its turn still. */
  lemma {:induction false} Refusals(limits: Limits, n: nat) returns (run: seq<Queue>)
    requires n <= limits.retries
    ensures Run(limits, run) && NoneDropped(run[|run| - 1])
    ensures var q := run[|run| - 1];
            && q.turn.Some? && q.turn.value.attempt == n == |q.asked|
            && (n > 0 ==> q.asked[n - 1].end == q.clock && q.next == q.clock + Pause(limits, Some(0), n - 1))
  {
    if n == 0 {
      run := TakeNow(limits, [Queue(0, None, [], 0)]);
    } else {
      var before := Refusals(limits, n - 1);
      run := AskNow(limits, before, REFUSED_AT_ONCE);
    }
  }

  /**
   With every request staying for its answer, questions keep the spacing exactly where the longest
   pause is no shorter than it, or nothing is asked again.
   */
  lemma ApartIfPausesAreNotShort(limits: Limits)
    ensures AlwaysApart(limits) <==> limits.spacing <= limits.longestPause || limits.retries == 0
  {
    if limits.spacing <= limits.longestPause || limits.retries == 0 {
      forall run: seq<Queue> | Run(limits, run) && NoneDropped(run[|run| - 1])
        ensures Apart(limits.spacing, run[|run| - 1].asked)
      {
        RunKeepsGaps(limits, run, |run| - 1);
        var asked := run[|run| - 1].asked;
        assert forall j | 0 <= j < |asked| :: asked[j] in asked && Gap(limits, asked[j]) >= limits.spacing;
      }
    } else {
      var refused := Refusals(limits, 1);
      var run := AskNow(limits, refused, NoAnswer);
      var asked := run[|run| - 1].asked;
      assert asked[0].end + limits.spacing > asked[1].begin;
      assert !Apart(limits.spacing, asked);
    }
  }

  lemma LongSpacingWaitsOut(limits: Limits, run: seq<Queue>)
    requires limits.longestPause <= limits.spacing && Run(limits, run) && NoneDropped(run[|run| - 1])
    ensures WaitedOut(limits, run[|run| - 1].asked)
  {
    RunKeepsGaps(limits, run, |run| - 1);
    var asked := run[|run| - 1].asked;
    assert forall j | 0 <= j < |asked| :: asked[j] in asked && Gap(limits, asked[j]) >= limits.longestPause;
  }

  /** After the last retry only the spacing is waited. */
  lemma LastRetryIsNotWaitedOut(limits: Limits) returns (run: seq<Queue>)
    requires limits.longestPause > limits.spacing
    ensures Run(limits, run) && NoneDropped(run[|run| - 1]) && !WaitedOut(limits, run[|run| - 1].asked)
  {
    var n := limits.retries;
    run := Refusals(limits, n);
    run := AskNow(limits, run, Answered(429, Some(limits.longestPause)));
    run := TakeNow(limits, run);
    run := AskNow(limits, run, NoAnswer);
    var asked := run[|run| - 1].asked;
    assert limits.longestPause <= limits.longestPause * SECOND;
    assert asked[n].end + limits.spacing == asked[n + 1].begin;
  }

  /** What `Retry-After` asks for, up to the longest pause, is always waited exactly where the spacing is that long. */
  lemma WaitedOutIfSpacingIsLong(limits: Limits)
    ensures AlwaysWaitedOut(limits) <==> limits.longestPause <= limits.spacing
  {
    if limits.longestPause <= limits.spacing {
      forall run: seq<Queue> | Run(limits, run) && NoneDropped(run[|run| - 1])
        ensures WaitedOut(limits, run[|run| - 1].asked)
      {
        LongSpacingWaitsOut(limits, run);
      }
    } else {
      var run := LastRetryIsNotWaitedOut(limits);
    }
  }

  /** `XonLimits::default`. */
  const DEFAULT_LIMITS: Limits := Limits(SECOND, 4, 120 * SECOND, 60 * SECOND, 4)

  /** With these the spacing is kept and no zero counter is left; `Retry-After` is not always waited out. */
  lemma DefaultLimitsKeepTheSpacing()
    ensures AlwaysApart(DEFAULT_LIMITS) && NothingLeftBehind(DEFAULT_LIMITS.perAccount)
    ensures !AlwaysWaitedOut(DEFAULT_LIMITS)
  {
    ApartIfPausesAreNotShort(DEFAULT_LIMITS);
    NothingLeftBehindIfAnyMayWait(DEFAULT_LIMITS.perAccount);
    WaitedOutIfSpacingIsLong(DEFAULT_LIMITS);
  }

  /** A request dropped while it asks sets no pause: the next question may follow at once. */
  lemma NothingAfterADrop(limits: Limits)
    ensures ApartEvenIfDropped(limits) <==> limits.spacing == 0
  {
    if limits.spacing == 0 {
      forall run: seq<Queue> | Run(limits, run)
        ensures Apart(0, run[|run| - 1].asked)
      {
        RunKeepsGaps(limits, run, |run| - 1);
      }
    } else {
      var run := Refusals(limits, 0);
      run := AskNow(limits, run, GoneWhileAsking);
      run := TakeNow(limits, run);
      run := AskNow(limits, run, NoAnswer);
      var asked := run[|run| - 1].asked;
      assert asked[0].end == asked[1].begin;
      assert !Apart(limits.spacing, asked);
    }
  }

  // ----- The queue as it runs -----

  /** How it goes with one question: whether it is never asked; when the request looks, wakes up, and is answered. */
  datatype Happening = Happening(leaves: bool, idle: nat, late: nat, takes: nat, outcome: Outcome)

  /** `Gone`: the request was dropped, and nobody is told anything. */
  datatype Result = Told(status: nat) | BusyFor(wait: nat) | Failed | Gone

  /** How waiting for the turn ends. */
  datatype Lock = Locked | TooLong | GoneWhileWaiting

  /** The question that a request asks when it has waited for its turn. */
  ghost function Question(q: Queue, h: Happening): Asked
    requires q.turn.Some?
  {
    var begin := Max(q.clock + h.idle, q.next) + h.late;
    Asked(begin, begin + h.takes, h.outcome, q.turn.value.attempt)
  }

  /** That begins at the first instant that is not before `next`, unless the request wakes up late. */
  lemma QuestionAsSoonAsItMay(q: Queue, h: Happening, at: Instant)
    requires q.turn.Some? && q.clock + h.idle <= at && q.next <= at
    ensures Question(q, h.(late := 0)).begin <= at
    ensures Question(q, h).begin == Question(q, h.(late := 0)).begin + h.late
    ensures q.clock + h.idle <= Question(q, h).begin && q.next <= Question(q, h).begin
  {
  }

  /** The request whose turn it is asks until it is told, may retry no more, or would wait too long. */
  ghost function Asking(limits: Limits, q: Queue, env: nat -> Happening, k: nat): (Queue, Result)
    requires q.turn.Some? && q.turn.value.attempt <= limits.retries
    decreases limits.retries - q.turn.value.attempt
  {
    var now := q.clock + env(k).idle;
    if q.next > now && q.next - q.turn.value.started > limits.longestWait then
      (q.(turn := None, clock := now), BusyFor(q.next - now))
    else if env(k).leaves then (q.(turn := None, clock := now), Gone)
    else
      var a := Question(q, env(k));
      if Again(limits, a.outcome, a.attempt) then Asking(limits, AfterAsk(limits, q, a), env, k + 1)
      else (AfterAsk(limits, q, a), ResultOf(a.outcome))
  }

  /** What a request is told that does not ask again. */
  ghost function ResultOf(outcome: Outcome): Result {
    if outcome.GoneWhileAsking? then Gone
    else if outcome.Answered? && !Refusal(outcome) then Told(outcome.status)
    else Failed
  }

  /** The request gets its turn at `now`, and goes on from there. */
  ghost predicate Goes(limits: Limits, before: Queue, started: Instant, now: Instant, env: nat -> Happening, after: Queue,
                       result: Result) {
    (after, result) == Asking(limits, before.(turn := Some(Turn(started, 0)), clock := now), env, 0)
  }

  /** A request gives up before it asks exactly when it would wait too long in all. */
  lemma BusyExactly(limits: Limits, q: Queue, env: nat -> Happening, k: nat)
    requires q.turn.Some? && q.turn.value.attempt <= limits.retries
    ensures var (after, result) := Asking(limits, q, env, k);
            var now := q.clock + env(k).idle;
            |after.asked| == |q.asked| && result.BusyFor? <==>
            q.next > now && q.next - q.turn.value.started > limits.longestWait
  {
    AskedMore(limits, q, env, k);
  }

  lemma {:induction false} AskedMore(limits: Limits, q: Queue, env: nat -> Happening, k: nat)
    requires q.turn.Some? && q.turn.value.attempt <= limits.retries
    ensures |Asking(limits, q, env, k).0.asked| >= |q.asked|
    ensures q.next <= q.clock + env(k).idle && !env(k).leaves ==> |Asking(limits, q, env, k).0.asked| > |q.asked|
    ensures q.next - q.turn.value.started <= limits.longestWait && !env(k).leaves ==>
              |Asking(limits, q, env, k).0.asked| > |q.asked|
    decreases limits.retries - q.turn.value.attempt
  {
    var a := Question(q, env(k));
    if Again(limits, a.outcome, a.attempt) {
      AskedMore(limits, AfterAsk(limits, q, a), env, k + 1);
    }
  }

  ghost predicate Refused(outcome: Outcome) {
    outcome.Answered? && AsksToWait(outcome.status)
  }

  /** Why a request ended with its `n`-th question, the first of which was number `first` of its questions. */
  ghost predicate Ended(limits: Limits, env: nat -> Happening, k: nat, first: nat, n: nat, result: Result) {
    match result
    case Told(status) => n > 0 && env(k + n - 1).outcome.Answered? && env(k + n - 1).outcome.status == status && !AsksToWait(status)
    case Failed =>
      && n > 0
      && (env(k + n - 1).outcome.NoAnswer? || (Refused(env(k + n - 1).outcome) && first + n - 1 == limits.retries))
    case Gone => (n > 0 && env(k + n - 1).outcome.GoneWhileAsking?) || env(k + n).leaves
    case BusyFor(wait) => wait > 0
  }

  /** Of `n` questions from number `k` on all were refused but perhaps the last, and it ended as it had to. */
  ghost predicate Whole(limits: Limits, env: nat -> Happening, k: nat, first: nat, n: nat, result: Result) {
    && first + n <= limits.retries + 1 && Ended(limits, env, k, first, n, result)
    && (forall i: nat | k <= i && i + 1 < k + n :: Refused(env(i).outcome))
    && (n > 0 && !env(k + n - 1).outcome.GoneWhileAsking? && (result.BusyFor? || result.Gone?) ==>
          Refused(env(k + n - 1).outcome))
  }

  lemma OneMoreRefused(limits: Limits, env: nat -> Happening, k: nat, first: nat, more: nat, result: Result)
    requires Whole(limits, env, k + 1, first + 1, more, result) && Refused(env(k).outcome)
    ensures Whole(limits, env, k, first, more + 1, result)
  {
  }

  ghost predicate GivesUp(limits: Limits, q: Queue, h: Happening)
    requires q.turn.Some?
  {
    h.leaves || (q.next > q.clock + h.idle && q.next - q.turn.value.started > limits.longestWait)
  }

  lemma NotAsked(limits: Limits, q: Queue, env: nat -> Happening, k: nat)
    requires q.turn.Some? && q.turn.value.attempt <= limits.retries && GivesUp(limits, q, env(k))
    ensures var (after, result) := Asking(limits, q, env, k);
            && after.asked == q.asked && after.turn == None && Whole(limits, env, k, q.turn.value.attempt, 0, result)
            && (result.BusyFor? ==>
                  result.wait == after.next - after.clock && after.next - q.turn.value.started > limits.longestWait)
  {
  }

  lemma LastAsked(limits: Limits, q: Queue, env: nat -> Happening, k: nat)
    requires q.turn.Some? && q.turn.value.attempt <= limits.retries && !GivesUp(limits, q, env(k))
    requires !Again(limits, env(k).outcome, q.turn.value.attempt)
    ensures var (after, result) := Asking(limits, q, env, k);
            && |after.asked| == |q.asked| + 1 && after.turn == None && !result.BusyFor?
            && Whole(limits, env, k, q.turn.value.attempt, 1, result)
  {
  }

  /**
   A request asks on as long as it is refused and may ask again: it ends with an answer, with no
   answer, with its last refusal, by being dropped, or because it would have to wait too long.
   */
  lemma {:induction false} AskingIsWhole(limits: Limits, q: Queue, env: nat -> Happening, k: nat) returns (n: nat)
    requires q.turn.Some? && q.turn.value.attempt <= limits.retries
    ensures var (after, result) := Asking(limits, q, env, k);
            && |after.asked| == |q.asked| + n && after.turn == None
            && Whole(limits, env, k, q.turn.value.attempt, n, result)
            && (result.BusyFor? ==>
                  result.wait == after.next - after.clock && after.next - q.turn.value.started > limits.longestWait)
    decreases limits.retries - q.turn.value.attempt
  {
    var a := Question(q, env(k));
    if GivesUp(limits, q, env(k)) {
      NotAsked(limits, q, env, k);
      n := 0;
    } else if !Again(limits, a.outcome, a.attempt) {
      LastAsked(limits, q, env, k);
      n := 1;
    } else {
      var after := AfterAsk(limits, q, a);
      assert Asking(limits, q, env, k) == Asking(limits, after, env, k + 1);
      n := AskingIsWhole(limits, after, env, k + 1);
      OneMoreRefused(limits, env, k, a.attempt, n, Asking(limits, after, env, k + 1).1);
      n := n + 1;
    }
  }

  /** Asking is a run of single questions. */
  lemma {:induction false} AskingIsARun(limits: Limits, run: seq<Queue>, env: nat -> Happening, k: nat) returns (run': seq<Queue>)
    requires Run(limits, run) && run[|run| - 1].turn.Some? && run[|run| - 1].turn.value.attempt <= limits.retries
    ensures |run| < |run'| && run'[..|run|] == run && Run(limits, run')
    ensures run'[|run'| - 1] == Asking(limits, run[|run| - 1], env, k).0
    decreases limits.retries - run[|run| - 1].turn.value.attempt
  {
    var q := run[|run| - 1];
    var now := q.clock + env(k).idle;
    if q.next > now && q.next - q.turn.value.started > limits.longestWait {
      Extend(limits, run, Busy(now), q.(turn := None, clock := now));
      run' := run + [q.(turn := None, clock := now)];
    } else if env(k).leaves {
      Extend(limits, run, Step.Leave(now), q.(turn := None, clock := now));
      run' := run + [q.(turn := None, clock := now)];
    } else {
      var a := Question(q, env(k));
      Extend(limits, run, Ask(now, a.begin, a.end, a.outcome), AfterAsk(limits, q, a));
      run' := run + [AfterAsk(limits, q, a)];
      if Again(limits, a.outcome, a.attempt) {
        var longer := AskingIsARun(limits, run', env, k + 1);
        assert longer[..|run|] == longer[..|run'|][..|run|] == run;
        run' := longer;
      }
    }
  }

  /** So is a whole turn. */
  lemma TurnIsARun(limits: Limits, run: seq<Queue>, started: Instant, now: Instant, env: nat -> Happening)
      returns (run': seq<Queue>)
    requires Run(limits, run) && run[|run| - 1].turn == None && started <= now && run[|run| - 1].clock <= now
    ensures |run| < |run'| && run'[..|run|] == run && Run(limits, run') && run'[|run'| - 1].turn == None
    ensures run'[|run'| - 1] == Asking(limits, run[|run| - 1].(turn := Some(Turn(started, 0)), clock := now), env, 0).0
  {
    var q := run[|run| - 1].(turn := Some(Turn(started, 0)), clock := now);
    Extend(limits, run, Take(started, now), q);
    run' := AskingIsARun(limits, run + [q], env, 0);
    assert run'[..|run|] == run'[..|run + [q]|][..|run|];
    AskingLeavesNoTurn(limits, q, env, 0);
  }

  lemma {:induction false} AskingLeavesNoTurn(limits: Limits, q: Queue, env: nat -> Happening, k: nat)
    requires q.turn.Some? && q.turn.value.attempt <= limits.retries
    ensures Asking(limits, q, env, k).0.turn == None
    decreases limits.retries - q.turn.value.attempt
  {
    var a := Question(q, env(k));
    if Again(limits, a.outcome, a.attempt) {
      AskingLeavesNoTurn(limits, AfterAsk(limits, q, a), env, k + 1);
    }
  }

  lemma EnterCounts(perAccount: nat, waiting: Counts, live: multiset<string>, account: string)
    requires Counted(perAccount, Places(waiting, live))
    ensures Get(waiting, account) == live[account]
    ensures Counted(perAccount, Places(Entered(waiting, perAccount, account),
                                       if live[account] < perAccount then live + multiset{account} else live))
  {
    var p := Places(waiting, live);
    assert Get(p.waiting, account) == p.live[account];
    forall a
      ensures Get(Entered(waiting, perAccount, account), a)
           == (if live[account] < perAccount then live + multiset{account} else live)[a] <= perAccount
    {
      assert Get(p.waiting, a) == p.live[a] <= perAccount;
      EnteredCounts(perAccount, p, account, a);
    }
  }

  lemma LeaveCounts(perAccount: nat, waiting: Counts, live: multiset<string>, account: string)
    requires Counted(perAccount, Places(waiting, live)) && account in live
    ensures account in waiting && waiting[account] == live[account] > 0
    ensures Counted(perAccount, Places(Lower(waiting, account), live - multiset{account}))
  {
    var p := Places(waiting, live);
    assert Get(p.waiting, account) == p.live[account];
    forall a
      ensures Get(Lower(waiting, account), a) == (live - multiset{account})[a] <= perAccount
    {
      assert Get(p.waiting, a) == p.live[a] <= perAccount;
      LeftCounts(perAccount, p, account, a);
    }
  }

  class XonQueue {
    const limits: Limits
    var waiting: Counts
    var next: Instant
    ghost var live: multiset<string>
    ghost var run: seq<Queue>

    ghost predicate PlacesValid()
      reads `waiting, `live
    {
      Counted(limits.perAccount, Places(waiting, live))
    }

    ghost predicate TurnsValid()
      reads `next, `run
    {
      Run(limits, run) && run[|run| - 1].next == next && run[|run| - 1].turn == None
    }

    ghost predicate Valid()
      reads this
    {
      PlacesValid() && TurnsValid()
    }

    constructor (limits: Limits, now: Instant)
      ensures Valid() && waiting == map[] && next == now && fresh(this)
    {
      this.limits := limits;
      waiting, next := map[], now;
      live, run := multiset{}, [Queue(now, None, [], now)];
    }

    /** A place for `account`, unless it has its share. */
    method Enter(account: string) returns (place: bool)
      requires PlacesValid()
      modifies this`waiting, this`live
      ensures PlacesValid() && waiting == Entered(old(waiting), limits.perAccount, account)
      ensures place <==> old(live)[account] < limits.perAccount
      ensures live == if place then old(live) + multiset{account} else old(live)
    {
      EnterCounts(limits.perAccount, waiting, live, account);
      assert Get(waiting, account) == live[account];
      var count := if account in waiting then waiting[account] else 0;
      place := count < limits.perAccount;
      waiting := waiting[account := if place then count + 1 else count];
      if place {
        live := live + multiset{account};
      }
    }

    /** The place is given back. */
    method Drop(account: string)
      requires PlacesValid() && account in live
      modifies this`waiting, this`live
      ensures PlacesValid() && waiting == Lower(old(waiting), account) && live == old(live) - multiset{account}
    {
      LeaveCounts(limits.perAccount, waiting, live, account);
      waiting := waiting[account := waiting[account] - 1];
      if waiting[account] == 0 {
        waiting := waiting - {account};
      }
      live := live - multiset{account};
    }

    /**
     Asks until there is an answer, or until the request is dropped, wherever it is. `lock` says how
     waiting for the turn went; the run gets longer by what this request asked from `now` on.
     */
    method Ask(account: string, started: Instant, lock: Lock, now: Instant, env: nat -> Happening) returns (result: Result)
      requires Valid() && started <= now && run[|run| - 1].clock <= now
      modifies this
      ensures Valid() && live == old(live) && |old(run)| <= |run| && run[..|old(run)|] == old(run)
      ensures old(live)[account] >= limits.perAccount ==>
                result == BusyFor(2 * Max(limits.spacing, SECOND)) && run == old(run)
      ensures old(live)[account] < limits.perAccount && lock == TooLong ==>
                result == BusyFor(Max(limits.spacing, SECOND)) && run == old(run)
      ensures old(live)[account] < limits.perAccount && lock == GoneWhileWaiting ==> result == Gone && run == old(run)
      ensures old(live)[account] < limits.perAccount && lock == Locked ==>
                Goes(limits, old(run[|run| - 1]), started, now, env, run[|run| - 1], result)
    {
      var place := Enter(account);
      if !place {
        return BusyFor(2 * Max(limits.spacing, SECOND));
      }
      assert old(live) + multiset{account} - multiset{account} == old(live);
      match lock {
        case Locked => result := AskInTurn(started, now, env);
        case TooLong => result := BusyFor(Max(limits.spacing, SECOND));
        case GoneWhileWaiting => result := Gone;
      }
      Drop(account);
    }

    method AskInTurn(started: Instant, now: Instant, env: nat -> Happening) returns (result: Result)
      requires TurnsValid() && started <= now && run[|run| - 1].clock <= now
      modifies this`next, this`run
      ensures TurnsValid() && |old(run)| <= |run| && run[..|old(run)|] == old(run)
      ensures Goes(limits, old(run[|run| - 1]), started, now, env, run[|run| - 1], result)
    {
      var attempt: nat := 0;
      var k: nat := 0;
      ghost var q := run[|run| - 1].(turn := Some(Turn(started, 0)), clock := now);
      ghost var longer := TurnIsARun(limits, run, started, now, env);
      ghost var goal := Asking(limits, q, env, 0);
      run := longer;
      var clock := now;
      while true
        invariant attempt <= limits.retries && q.turn == Some(Turn(started, attempt))
        invariant q.next == next && q.clock == clock
        invariant goal == Asking(limits, q, env, k)
        invariant run == longer
        decreases limits.retries - attempt
      {
        var h := env(k);
        var at := clock + h.idle;
        if next > at && next - started > limits.longestWait {
          return BusyFor(next - at);
        }
        if h.leaves {
          return Gone;
        }
        var begin := Max(at, next) + h.late;
        clock := begin + h.takes;
        q := AfterAsk(limits, q, Question(q, h));
        if h.outcome.GoneWhileAsking? {
          return Gone;
        }
        next := clock + limits.spacing;
        if !Refusal(h.outcome) {
          return if h.outcome.Answered? then Told(h.outcome.status) else Failed;
        }
        if attempt >= limits.retries {
          return Failed;
        }
        next := clock + Pause(limits, h.outcome.retryAfter, attempt);
        attempt := attempt + 1;
        k := k + 1;
      }
    }
  }
}
