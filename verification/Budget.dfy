/**
 The budget for questions about addresses: at most so many an hour, a day, and a day for each
 account, never closer than the spacing, and none for an hour after the source said 429. The
 state keeps the instants of the last day only.
 */
module Budget {
  import opened Clock
  import opened Prelude

  /** What a request about addresses waits at most, and how many it may ask anew. */
  const EMAIL_WAIT: nat := 30_000_000_000
  const FRESH_PER_REQUEST: nat := 5

  datatype Limits = Limits(spacing: nat, perHour: nat, perDay: nat, perAccountDay: nat)

  predicate Positive(limits: Limits) {
    limits.perHour >= 1 && limits.perDay >= 1 && limits.perAccountDay >= 1
  }

  datatype State = State(last: Option<Instant>, asked: seq<Instant>, blockedUntil: Option<Instant>,
                         accounts: map<string, seq<Instant>>)

  const NOTHING_ASKED: State := State(None, [], None, map[])

  // ----- What the three operations compute -----

  function Until(now: Instant, at: Instant, window: nat): nat {
    if at + window >= now then at + window - now else 0
  }

  /** Without those in front that are `window` old. */
  function Drop(asked: seq<Instant>, window: nat, now: Instant): seq<Instant> {
    if asked != [] && Since(now, asked[0]) >= window then Drop(asked[1..], window, now) else asked
  }

  function DropOld(asked: seq<Instant>, now: Instant): seq<Instant> {
    Drop(asked, DAY, now)
  }

  function Forgotten(st: State, now: Instant): State {
    st.(asked := DropOld(st.asked, now),
        accounts := map a | a in st.accounts && DropOld(st.accounts[a], now) != [] :: DropOld(st.accounts[a], now))
  }

  function InHour(asked: seq<Instant>, now: Instant): seq<Instant> {
    if asked == [] then []
    else (if Since(now, asked[0]) < HOUR then [asked[0]] else []) + InHour(asked[1..], now)
  }

  function Later(wait: Option<nat>, duration: nat): Option<nat> {
    Some(if wait.Some? then Max(wait.value, duration) else duration)
  }

  /** The delay until the first of `counted` leaves its window, if there are `most` of them. */
  function WindowWait(wait: Option<nat>, counted: seq<Instant>, most: nat, window: nat, now: Instant): Option<nat> {
    if |counted| >= most && counted != [] then Later(wait, Until(now, counted[0], window)) else wait
  }

  function AskedBy(st: State, account: string): seq<Instant> {
    if account in st.accounts then st.accounts[account] else []
  }

  function WaitFor(st: State, limits: Limits, account: string, now: Instant): Option<nat> {
    var blocked :=
      if st.blockedUntil.Some? && st.blockedUntil.value > now then Later(None, st.blockedUntil.value - now) else None;
    var hour := WindowWait(blocked, InHour(st.asked, now), limits.perHour, HOUR, now);
    var day := WindowWait(hour, st.asked, limits.perDay, DAY, now);
    WindowWait(day, AskedBy(st, account), limits.perAccountDay, DAY, now)
  }

  function Recorded(st: State, account: string, now: Instant): State {
    st.(last := Some(now), asked := st.asked + [now], accounts := st.accounts[account := AskedBy(st, account) + [now]])
  }

  // ----- Runs -----

  datatype Question = Question(at: Instant, account: string)

  /** An answer 429, and how many questions had been asked by then. */
  datatype Refusal = Refusal(at: Instant, asked: nat)

  /** The state with all that ever happened. */
  datatype World = World(state: State, clock: Instant, questions: seq<Question>, refusals: seq<Refusal>)

  ghost predicate Start(w: World) {
    w.state == NOTHING_ASKED && w.questions == [] && w.refusals == []
  }

  datatype Step = Look(now: Instant) | Ask(account: string, now: Instant, at: Instant) | Refused(at: Instant)

  ghost function Looked(w: World, now: Instant): World {
    World(Forgotten(w.state, now), now, w.questions, w.refusals)
  }

  ghost function Answered(w: World, account: string, at: Instant): World {
    World(Recorded(w.state, account, at), at, w.questions + [Question(at, account)], w.refusals)
  }

  ghost function TurnedAway(w: World, at: Instant): World {
    World(w.state.(blockedUntil := Some(at + HOUR)), at, w.questions, w.refusals + [Refusal(at, |w.questions|)])
  }

  ghost predicate Next(limits: Limits, w: World, step: Step, w': World) {
    match step
    case Look(now) => w.clock <= now && w' == Looked(w, now)
    case Ask(account, now, at) =>
      var looked := Looked(w, now);
      && w.clock <= now <= at
      && WaitFor(looked.state, limits, account, now) == None
      && (looked.state.last.Some? ==> looked.state.last.value + limits.spacing <= at)
      && w' == Answered(looked, account, at)
    case Refused(at) => w.clock <= at && w' == TurnedAway(w, at)
  }

  ghost predicate Follows(limits: Limits, w: World, w': World) {
    exists step :: Next(limits, w, step, w')
  }

  ghost predicate Run(limits: Limits, run: seq<World>) {
    && |run| > 0
    && Start(run[0])
    && forall i | 0 < i < |run| :: Follows(limits, run[i - 1], run[i])
  }

  ghost function Times(questions: seq<Question>): (times: seq<Instant>)
    ensures |times| == |questions| && forall i | 0 <= i < |times| :: times[i] == questions[i].at
  {
    seq(|questions|, i requires 0 <= i < |questions| => questions[i].at)
  }

  ghost function TimesOf(questions: seq<Question>, account: string): seq<Instant> {
    if questions == [] then []
    else
      var last := questions[|questions| - 1];
      TimesOf(questions[..|questions| - 1], account) + (if last.account == account then [last.at] else [])
  }

  /** How many of `times` lie in the window of length `window` that begins at `from`. */
  ghost function Within(times: seq<Instant>, from: Instant, window: nat): nat {
    if times == [] then 0
    else Within(times[..|times| - 1], from, window) + (if from <= times[|times| - 1] < from + window then 1 else 0)
  }

  ghost predicate AtMost(times: seq<Instant>, most: nat, window: nat) {
    forall from: Instant :: Within(times, from, window) <= most
  }

  /** What the source asks for, about everything that ever happened. */
  ghost predicate Kept(limits: Limits, w: World) {
    && AtMost(Times(w.questions), limits.perHour, HOUR)
    && AtMost(Times(w.questions), limits.perDay, DAY)
    && (forall account :: AtMost(TimesOf(w.questions, account), limits.perAccountDay, DAY))
    && (forall i | 0 < i < |w.questions| :: w.questions[i].at >= w.questions[i - 1].at + limits.spacing)
    && (forall r, i | r in w.refusals && r.asked <= i < |w.questions| :: w.questions[i].at >= r.at + HOUR)
  }

  ghost predicate AlwaysKept(limits: Limits) {
    forall run | Run(limits, run) :: Kept(limits, run[|run| - 1])
  }

  // ----- The invariant of a run -----

  ghost predicate Sorted(times: seq<Instant>) {
    forall i, j | 0 <= i < j < |times| :: times[i] <= times[j]
  }

  /** Any `most + 1` in a row span at least the window. */
  ghost predicate Apart(times: seq<Instant>, most: nat, window: nat) {
    forall i, j | 0 <= i && i + most <= j < |times| :: times[j] >= times[i] + window
  }

  /** `kept` are the latest of `all`; what is missing is a day old. */
  ghost predicate Recent(kept: seq<Instant>, all: seq<Instant>, clock: Instant) {
    && |kept| <= |all|
    && kept == all[|all| - |kept|..]
    && forall i | 0 <= i < |all| - |kept| :: all[i] + DAY <= clock
  }

  ghost predicate UpTo(times: seq<Instant>, clock: Instant) {
    forall i | 0 <= i < |times| :: times[i] <= clock
  }

  /** One list of instants with all it was kept from. */
  ghost predicate Tracked(kept: seq<Instant>, all: seq<Instant>, clock: Instant, most: nat) {
    Sorted(all) && UpTo(all, clock) && Recent(kept, all, clock) && Apart(all, most, DAY)
  }

  /** Blocked for an hour from the last refusal on, and not longer. */
  ghost predicate BlockedByLast(w: World) {
    && w.state.blockedUntil == (if w.refusals == [] then None else Some(w.refusals[|w.refusals| - 1].at + HOUR))
    && forall r | r in w.refusals :: r.at <= w.refusals[|w.refusals| - 1].at
  }

  ghost predicate RefusalsHeeded(w: World) {
    && (forall r | r in w.refusals :: r.at <= w.clock && r.asked <= |w.questions|
                                      && w.state.blockedUntil.Some? && r.at + HOUR <= w.state.blockedUntil.value)
    && (forall r, i | r in w.refusals && r.asked <= i < |w.questions| :: w.questions[i].at >= r.at + HOUR)
  }

  ghost predicate AccountsTracked(limits: Limits, w: World) {
    forall a :: Tracked(AskedBy(w.state, a), TimesOf(w.questions, a), w.clock, limits.perAccountDay)
  }

  ghost predicate Inv(limits: Limits, w: World) {
    && Tracked(w.state.asked, Times(w.questions), w.clock, limits.perDay)
    && Apart(Times(w.questions), limits.perHour, HOUR)
    && AccountsTracked(limits, w)
    && Apart(Times(w.questions), 1, limits.spacing)
    && w.state.last == (if w.questions == [] then None else Some(w.questions[|w.questions| - 1].at))
    && RefusalsHeeded(w) && BlockedByLast(w)
  }

  // ----- Windows -----

  lemma {:induction false} WithinAtMost(times: seq<Instant>, from: Instant, window: nat, before: nat)
    requires before <= |times| && forall i | 0 <= i < before :: times[i] < from
    ensures Within(times, from, window) <= |times| - before
  {
    if before < |times| {
      WithinAtMost(times[..|times| - 1], from, window, before);
    } else if times != [] {
      WithinAtMost(times[..|times| - 1], from, window, before - 1);
    }
  }

  /** Instants that far apart never crowd a window, wherever it begins. */
  lemma {:induction false} ApartIsAtMost(times: seq<Instant>, most: nat, window: nat, from: Instant)
    requires Sorted(times) && Apart(times, most, window)
    ensures Within(times, from, window) <= most
  {
    if times != [] {
      var last := |times| - 1;
      if from <= times[last] < from + window {
        if most <= last {
          assert times[last] >= times[last - most] + window;
          WithinAtMost(times, from, window, last - most + 1);
        } else {
          WithinAtMost(times, from, window, 0);
        }
      } else {
        ApartIsAtMost(times[..last], most, window, from);
      }
    }
  }

  lemma InvMeansKept(limits: Limits, w: World)
    requires Inv(limits, w)
    ensures Kept(limits, w)
  {
    var times := Times(w.questions);
    forall from: Instant
      ensures Within(times, from, HOUR) <= limits.perHour && Within(times, from, DAY) <= limits.perDay
    {
      ApartIsAtMost(times, limits.perHour, HOUR, from);
      ApartIsAtMost(times, limits.perDay, DAY, from);
    }
    forall account, from: Instant
      ensures Within(TimesOf(w.questions, account), from, DAY) <= limits.perAccountDay
    {
      assert Tracked(AskedBy(w.state, account), TimesOf(w.questions, account), w.clock, limits.perAccountDay);
      ApartIsAtMost(TimesOf(w.questions, account), limits.perAccountDay, DAY, from);
    }
    forall i | 0 < i < |w.questions|
      ensures w.questions[i].at >= w.questions[i - 1].at + limits.spacing
    {
      assert times[i] >= times[i - 1] + limits.spacing;
    }
  }

  // ----- Every step keeps the invariant -----

  /** In a sorted list, `Drop` takes away exactly those that are `window` old. */
  lemma {:induction false} DropTakesTheOld(asked: seq<Instant>, window: nat, now: Instant) returns (from: nat)
    requires Sorted(asked)
    ensures from <= |asked| && Drop(asked, window, now) == asked[from..]
    ensures forall i | 0 <= i < from :: Since(now, asked[i]) >= window
    ensures forall i | from <= i < |asked| :: Since(now, asked[i]) < window
  {
    from := 0;
    if asked != [] && Since(now, asked[0]) >= window {
      from := DropTakesTheOld(asked[1..], window, now);
      from := from + 1;
      assert asked == [asked[0]] + asked[1..];
    }
  }

  lemma DropOldIsRecent(kept: seq<Instant>, all: seq<Instant>, clock: Instant, now: Instant)
    requires Sorted(all) && Recent(kept, all, clock) && clock <= now
    ensures Recent(DropOld(kept, now), all, now)
    ensures DropOld(kept, now) != [] ==> Since(now, DropOld(kept, now)[0]) < DAY
  {
    var gone := |all| - |kept|;
    var from := DropTakesTheOld(kept, DAY, now);
    assert kept[from..] == all[gone + from..];
    forall i | 0 <= i < gone + from
      ensures all[i] + DAY <= now
    {
      assert i >= gone ==> all[i] == kept[i - gone];
    }
  }

  lemma {:induction false} AllInHour(asked: seq<Instant>, now: Instant)
    requires forall i | 0 <= i < |asked| :: Since(now, asked[i]) < HOUR
    ensures InHour(asked, now) == asked
  {
    if asked != [] {
      AllInHour(asked[1..], now);
    }
  }

  /** In a sorted list, those of the last hour are its end. */
  lemma {:induction false} InHourIsTheEnd(asked: seq<Instant>, now: Instant)
    requires Sorted(asked)
    ensures InHour(asked, now) == Drop(asked, HOUR, now)
  {
    if asked != [] {
      if Since(now, asked[0]) >= HOUR {
        InHourIsTheEnd(asked[1..], now);
      } else {
        AllInHour(asked, now);
      }
    }
  }

  lemma AskedByForgotten(st: State, account: string, now: Instant)
    ensures AskedBy(Forgotten(st, now), account) == DropOld(AskedBy(st, account), now)
  {
  }

  lemma ForgettingKeepsInv(limits: Limits, w: World, now: Instant)
    requires Inv(limits, w) && w.clock <= now
    ensures Inv(limits, Looked(w, now))
  {
    DropOldIsRecent(w.state.asked, Times(w.questions), w.clock, now);
    forall a
      ensures Tracked(AskedBy(Forgotten(w.state, now), a), TimesOf(w.questions, a), now, limits.perAccountDay)
    {
      assert Tracked(AskedBy(w.state, a), TimesOf(w.questions, a), w.clock, limits.perAccountDay);
      AskedByForgotten(w.state, a, now);
      DropOldIsRecent(AskedBy(w.state, a), TimesOf(w.questions, a), w.clock, now);
    }
  }

  /** A window with room: the instant `most` questions ago is out of it. */
  lemma RoomKeepsApart(all: seq<Instant>, inside: seq<Instant>, most: nat, window: nat, now: Instant, at: Instant)
    requires most >= 1 && Apart(all, most, window) && now <= at
    requires |inside| < most && |inside| <= |all|
    requires forall i | 0 <= i < |all| - |inside| :: all[i] + window <= now
    ensures Apart(all + [at], most, window)
  {
  }

  lemma AskingTracks(kept: seq<Instant>, all: seq<Instant>, most: nat, now: Instant, at: Instant)
    requires most >= 1 && Tracked(kept, all, now, most) && |kept| < most && now <= at
    ensures Tracked(kept + [at], all + [at], at, most)
  {
    RoomKeepsApart(all, kept, most, DAY, now, at);
  }

  lemma TrackedLater(kept: seq<Instant>, all: seq<Instant>, clock: Instant, later: Instant, most: nat)
    requires Tracked(kept, all, clock, most) && clock <= later
    ensures Tracked(kept, all, later, most)
  {
  }

  lemma HourHasRoom(kept: seq<Instant>, all: seq<Instant>, most: nat, now: Instant, at: Instant)
    requires most >= 1 && Sorted(all) && Recent(kept, all, now) && Apart(all, most, HOUR)
    requires |InHour(kept, now)| < most && now <= at
    ensures Apart(all + [at], most, HOUR)
  {
    var gone := |all| - |kept|;
    InHourIsTheEnd(kept, now);
    var from := DropTakesTheOld(kept, HOUR, now);
    forall i | 0 <= i < gone + from
      ensures all[i] + HOUR <= now
    {
      assert i >= gone ==> all[i] == kept[i - gone];
    }
    RoomKeepsApart(all, kept[from..], most, HOUR, now, at);
  }

  lemma OneMoreOf(questions: seq<Question>, q: Question, a: string)
    ensures TimesOf(questions + [q], a) == if q.account == a then TimesOf(questions, a) + [q.at] else TimesOf(questions, a)
  {
    assert (questions + [q])[..|questions|] == questions;
  }

  lemma RecordedFor(st: State, account: string, at: Instant, a: string)
    ensures AskedBy(Recorded(st, account, at), a) == if a == account then AskedBy(st, a) + [at] else AskedBy(st, a)
  {
  }

  lemma AskingKeepsAccounts(limits: Limits, w: World, account: string, at: Instant, a: string)
    requires limits.perAccountDay >= 1 && w.clock <= at && |AskedBy(w.state, account)| < limits.perAccountDay
    requires Tracked(AskedBy(w.state, a), TimesOf(w.questions, a), w.clock, limits.perAccountDay)
    ensures Tracked(AskedBy(Recorded(w.state, account, at), a), TimesOf(w.questions + [Question(at, account)], a),
                    at, limits.perAccountDay)
  {
    OneMoreOf(w.questions, Question(at, account), a);
    RecordedFor(w.state, account, at, a);
    if a == account {
      AskingTracks(AskedBy(w.state, a), TimesOf(w.questions, a), limits.perAccountDay, w.clock, at);
    } else {
      TrackedLater(AskedBy(w.state, a), TimesOf(w.questions, a), w.clock, at, limits.perAccountDay);
    }
  }

  lemma NoWaitMeansRoom(st: State, limits: Limits, account: string, now: Instant)
    requires Positive(limits) && WaitFor(st, limits, account, now) == None
    ensures |InHour(st.asked, now)| < limits.perHour
    ensures |st.asked| < limits.perDay
    ensures |AskedBy(st, account)| < limits.perAccountDay
    ensures st.blockedUntil.Some? ==> st.blockedUntil.value <= now
  {
  }

  lemma TimesAppend(questions: seq<Question>, q: Question)
    ensures Times(questions + [q]) == Times(questions) + [q.at]
  {
  }

  lemma AskingKeepsInv(limits: Limits, w: World, account: string, at: Instant)
    requires Positive(limits) && Inv(limits, w) && w.clock <= at
    requires WaitFor(w.state, limits, account, w.clock) == None
    requires w.state.last.Some? ==> w.state.last.value + limits.spacing <= at
    ensures Inv(limits, Answered(w, account, at))
  {
    NoWaitMeansRoom(w.state, limits, account, w.clock);
    var times := Times(w.questions);
    var w' := Answered(w, account, at);
    TimesAppend(w.questions, Question(at, account));
    AskingTracks(w.state.asked, times, limits.perDay, w.clock, at);
    HourHasRoom(w.state.asked, times, limits.perHour, w.clock, at);
    SpacedApart(times, limits.spacing, at);
    forall a
      ensures Tracked(AskedBy(w'.state, a), TimesOf(w'.questions, a), at, limits.perAccountDay)
    {
      assert Tracked(AskedBy(w.state, a), TimesOf(w.questions, a), w.clock, limits.perAccountDay);
      AskingKeepsAccounts(limits, w, account, at, a);
    }
    AskingHeedsRefusals(w, account, at);
  }

  lemma SpacedApart(times: seq<Instant>, spacing: nat, at: Instant)
    requires Apart(times, 1, spacing) && (times != [] ==> times[|times| - 1] + spacing <= at)
    ensures Apart(times + [at], 1, spacing)
  {
  }

  lemma AskingHeedsRefusals(w: World, account: string, at: Instant)
    requires RefusalsHeeded(w) && w.clock <= at && (w.state.blockedUntil.Some? ==> w.state.blockedUntil.value <= at)
    ensures RefusalsHeeded(Answered(w, account, at))
  {
  }

  lemma StepKeepsInv(limits: Limits, w: World, step: Step, w': World)
    requires Positive(limits) && Inv(limits, w) && Next(limits, w, step, w')
    ensures Inv(limits, w')
  {
    match step
    case Look(now) => ForgettingKeepsInv(limits, w, now);
    case Ask(account, now, at) =>
      ForgettingKeepsInv(limits, w, now);
      AskingKeepsInv(limits, Looked(w, now), account, at);
    case Refused(at) => RefusingKeepsInv(limits, w, at);
  }

  lemma RefusingKeepsInv(limits: Limits, w: World, at: Instant)
    requires Inv(limits, w) && w.clock <= at
    ensures Inv(limits, TurnedAway(w, at))
  {
    var after := TurnedAway(w, at);
    TrackedLater(w.state.asked, Times(w.questions), w.clock, at, limits.perDay);
    forall a
      ensures Tracked(AskedBy(after.state, a), TimesOf(after.questions, a), at, limits.perAccountDay)
    {
      TrackedLater(AskedBy(w.state, a), TimesOf(w.questions, a), w.clock, at, limits.perAccountDay);
      assert AskedBy(after.state, a) == AskedBy(w.state, a);
    }
    RefusingHeedsRefusals(w, at);
  }

  lemma RefusingHeedsRefusals(w: World, at: Instant)
    requires RefusalsHeeded(w) && w.clock <= at
    ensures RefusalsHeeded(TurnedAway(w, at))
  {
    var after := TurnedAway(w, at);
    assert forall r :: r in after.refusals <==> r in w.refusals || r == Refusal(at, |w.questions|);
  }

  lemma {:induction false} RunKeepsInv(limits: Limits, run: seq<World>)
    requires Positive(limits) && Run(limits, run)
    ensures Inv(limits, run[|run| - 1])
  {
    var n := |run| - 1;
    if n > 0 {
      RunKeepsInv(limits, run[..n]);
      assert Follows(limits, run[n - 1], run[n]);
      var step :| Next(limits, run[n - 1], step, run[n]);
      StepKeepsInv(limits, run[n - 1], step, run[n]);
    }
  }

  /** With nothing asked yet, any limits let the first question through. */
  lemma FirstQuestionPasses(limits: Limits, account: string) returns (run: seq<World>)
    ensures Run(limits, run) && run[|run| - 1].questions == [Question(0, account)]
    ensures run[|run| - 1].state == Recorded(NOTHING_ASKED, account, 0) && run[|run| - 1].clock == 0
  {
    var w := World(NOTHING_ASKED, 0, [], []);
    var w' := World(Recorded(NOTHING_ASKED, account, 0), 0, [Question(0, account)], []);
    assert Forgotten(NOTHING_ASKED, 0) == NOTHING_ASKED;
    assert Next(limits, w, Ask(account, 0, 0), w');
    run := [w, w'];
  }

  /** The limits are kept in every run exactly when none of them is zero. */
  lemma KeptUnlessALimitIsZero(limits: Limits)
    ensures AlwaysKept(limits) <==> Positive(limits)
  {
    if Positive(limits) {
      forall run | Run(limits, run)
        ensures Kept(limits, run[|run| - 1])
      {
        RunKeepsInv(limits, run);
        InvMeansKept(limits, run[|run| - 1]);
      }
    } else {
      var run := FirstQuestionPasses(limits, "");
      var questions := run[|run| - 1].questions;
      assert Times(questions) == [0];
      assert TimesOf(questions[..0], "") == [] && TimesOf(questions, "") == [0];
      OneWithin(HOUR);
      OneWithin(DAY);
    }
  }

  /** `BudgetLimits::default`. */
  const DEFAULT_LIMITS: Limits := Limits(600_000_000, 24, 96, 24)

  lemma DefaultLimitsAreKept()
    ensures AlwaysKept(DEFAULT_LIMITS)
  {
    KeptUnlessALimitIsZero(DEFAULT_LIMITS);
  }

  lemma OneWithin(window: nat)
    requires window > 0
    ensures Within([0], 0, window) == 1
  {
    var one: seq<Instant> := [0];
    assert one[..0] == [];
  }

  // ----- The delay is exact -----

  /** Two waits at once. */
  function Both(a: Option<nat>, b: Option<nat>): Option<nat> {
    if a.None? then b else if b.None? then a else Some(Max(a.value, b.value))
  }

  /** What is left of a wait that began at `now` when it is `t`. */
  function Left(wait: Option<nat>, now: Instant, t: Instant): Option<nat>
    requires now <= t
  {
    if wait.Some? && t < now + wait.value then Some(now + wait.value - t) else None
  }

  lemma InsideAtMost(all: seq<Instant>, most: nat, window: nat, from: nat, now: Instant)
    requires Apart(all, most, window) && UpTo(all, now) && from < |all| && all[from] + window > now
    ensures |all| - from <= most
  {
    var first, last := all[from], all[|all| - 1];
    if |all| - from > most {
      assert false;
    }
  }

  /** The wait of one window runs down to nothing as its first instant leaves. */
  lemma WindowRunsDown(kept: seq<Instant>, all: seq<Instant>, most: nat, window: nat, now: Instant, t: Instant)
    requires most >= 1 && window > 0 && now <= t
    requires Sorted(all) && UpTo(all, now) && Recent(kept, all, now) && Apart(all, most, window)
    ensures WindowWait(None, Drop(kept, window, t), most, window, t)
         == Left(WindowWait(None, Drop(kept, window, now), most, window, now), now, t)
  {
    var from := DropTakesTheOld(kept, window, now);
    var later := DropTakesTheOld(kept, window, t);
    FirstLeaves(kept, window, now, t, from, later);
    if from < |kept| {
      var gone := |all| - |kept|;
      assert kept[from] == all[gone + from];
      if all[gone + from] + window > now {
        InsideAtMost(all, most, window, gone + from, now);
      }
      FirstRunsDown(kept, most, window, now, t, from, later);
    }
  }

  lemma FirstRunsDown(kept: seq<Instant>, most: nat, window: nat, now: Instant, t: Instant, from: nat, later: nat)
    requires most >= 1 && from < |kept| && from <= later <= |kept| && now <= t && now >= kept[from] && now < kept[from] + window
    requires |kept| - from <= most
    requires t < kept[from] + window ==> later == from
    requires t >= kept[from] + window ==> later > from
    ensures WindowWait(None, kept[later..], most, window, t) == Left(WindowWait(None, kept[from..], most, window, now), now, t)
  {
  }

  lemma FirstLeaves(kept: seq<Instant>, window: nat, now: Instant, t: Instant, from: nat, later: nat)
    requires window > 0 && from <= |kept| && later <= |kept| && now <= t
    requires forall i | 0 <= i < from :: Since(now, kept[i]) >= window
    requires forall i | 0 <= i < later :: Since(t, kept[i]) >= window
    requires forall i | later <= i < |kept| :: Since(t, kept[i]) < window
    ensures from <= later
    ensures from < |kept| && t < kept[from] + window ==> later == from
    ensures from < |kept| && t >= kept[from] + window && now >= kept[from] ==> later > from
  {
    assert forall i | 0 <= i < from :: Since(t, kept[i]) >= window;
    assert later < |kept| ==> Since(t, kept[later]) < window;
  }

  /** Nothing that is a day old counts for the hour. */
  lemma {:induction false} HourAfterDay(asked: seq<Instant>, t: Instant)
    ensures Drop(Drop(asked, DAY, t), HOUR, t) == Drop(asked, HOUR, t)
  {
    if asked != [] && Since(t, asked[0]) >= DAY {
      HourAfterDay(asked[1..], t);
    }
  }

  lemma HourIsDropped(kept: seq<Instant>, all: seq<Instant>, now: Instant, t: Instant)
    requires Sorted(all) && Recent(kept, all, now)
    ensures InHour(kept, now) == Drop(kept, HOUR, now)
    ensures InHour(DropOld(kept, t), t) == Drop(kept, HOUR, t)
  {
    var day := DropTakesTheOld(kept, DAY, t);
    InHourIsTheEnd(kept, now);
    InHourIsTheEnd(DropOld(kept, t), t);
    HourAfterDay(kept, t);
  }

  /** The delay runs down as time passes and nothing else is asked, and is over at its end, not before. */
  lemma WaitIsExact(limits: Limits, w: World, account: string, t: Instant)
    requires Positive(limits) && Inv(limits, w) && w.clock <= t
    requires Forgotten(w.state, w.clock) == w.state
    ensures WaitFor(Forgotten(w.state, t), limits, account, t) == Left(WaitFor(w.state, limits, account, w.clock), w.clock, t)
  {
    var (now, st) := (w.clock, w.state);
    assert Tracked(AskedBy(st, account), TimesOf(w.questions, account), now, limits.perAccountDay);
    AskedByForgotten(st, account, t);
    AskedByForgotten(st, account, now);
    DropOldIsRecent(st.asked, Times(w.questions), now, now);
    DropOldIsRecent(AskedBy(st, account), TimesOf(w.questions, account), now, now);
    WindowRunsDown(st.asked, Times(w.questions), limits.perDay, DAY, now, t);
    WindowRunsDown(AskedBy(st, account), TimesOf(w.questions, account), limits.perAccountDay, DAY, now, t);
    WindowRunsDown(st.asked, Times(w.questions), limits.perHour, HOUR, now, t);
    HourIsDropped(st.asked, Times(w.questions), now, t);
    AllFourRunDown(st, limits, account, now, t);
  }

  lemma AllFourRunDown(st: State, limits: Limits, account: string, now: Instant, t: Instant)
    requires now <= t
    requires WindowWait(None, InHour(DropOld(st.asked, t), t), limits.perHour, HOUR, t)
          == Left(WindowWait(None, InHour(st.asked, now), limits.perHour, HOUR, now), now, t)
    requires WindowWait(None, DropOld(st.asked, t), limits.perDay, DAY, t)
          == Left(WindowWait(None, st.asked, limits.perDay, DAY, now), now, t)
    requires WindowWait(None, DropOld(AskedBy(st, account), t), limits.perAccountDay, DAY, t)
          == Left(WindowWait(None, AskedBy(st, account), limits.perAccountDay, DAY, now), now, t)
    ensures WaitFor(Forgotten(st, t), limits, account, t) == Left(WaitFor(st, limits, account, now), now, t)
  {
    var blocked, hour := Blocked(st, now), WindowWait(None, InHour(st.asked, now), limits.perHour, HOUR, now);
    var day, mine := WindowWait(None, st.asked, limits.perDay, DAY, now),
                     WindowWait(None, AskedBy(st, account), limits.perAccountDay, DAY, now);
    AskedByForgotten(st, account, t);
    WaitIsAllFour(st, limits, account, now);
    WaitIsAllFour(Forgotten(st, t), limits, account, t);
    LeftOfBoth(blocked, hour, now, t);
    LeftOfBoth(Both(blocked, hour), day, now, t);
    LeftOfBoth(Both(Both(blocked, hour), day), mine, now, t);
    assert Blocked(Forgotten(st, t), t) == Left(blocked, now, t);
  }

  lemma LeftOfBoth(a: Option<nat>, b: Option<nat>, now: Instant, t: Instant)
    requires now <= t
    ensures Left(Both(a, b), now, t) == Both(Left(a, now, t), Left(b, now, t))
  {
  }

  function Blocked(st: State, now: Instant): Option<nat> {
    if st.blockedUntil.Some? && st.blockedUntil.value > now then Some(st.blockedUntil.value - now) else None
  }

  lemma WaitIsAllFour(st: State, limits: Limits, account: string, now: Instant)
    ensures WaitFor(st, limits, account, now)
         == Both(Both(Both(Blocked(st, now), WindowWait(None, InHour(st.asked, now), limits.perHour, HOUR, now)),
                      WindowWait(None, st.asked, limits.perDay, DAY, now)),
                 WindowWait(None, AskedBy(st, account), limits.perAccountDay, DAY, now))
  {
  }

  // ----- When a question may be asked, by what happened -----

  /** How many of `times` are less than `window` old at `t`. */
  ghost function Lately(times: seq<Instant>, t: Instant, window: nat): nat {
    Within(times, t - window + 1, window)
  }

  /** No refusal within the hour, and every window has room for one more: said of all that ever happened. */
  ghost predicate Free(limits: Limits, w: World, account: string, t: Instant) {
    && (forall r | r in w.refusals :: r.at + HOUR <= t)
    && Lately(Times(w.questions), t, HOUR) < limits.perHour
    && Lately(Times(w.questions), t, DAY) < limits.perDay
    && Lately(TimesOf(w.questions, account), t, DAY) < limits.perAccountDay
  }

  lemma {:induction false} WithinIsTheEnd(times: seq<Instant>, from: Instant, window: nat, before: nat)
    requires before <= |times| && forall i | 0 <= i < before :: times[i] < from
    requires forall i | before <= i < |times| :: from <= times[i] < from + window
    ensures Within(times, from, window) == |times| - before
  {
    if times != [] {
      WithinIsTheEnd(times[..|times| - 1], from, window, if before < |times| then before else before - 1);
    }
  }

  lemma WindowCounts(kept: seq<Instant>, all: seq<Instant>, clock: Instant, window: nat, t: Instant)
    requires Sorted(all) && UpTo(all, clock) && Recent(kept, all, clock) && clock <= t && window <= DAY
    ensures |Drop(kept, window, t)| == Lately(all, t, window)
  {
    var gone := |all| - |kept|;
    var from := DropTakesTheOld(kept, window, t);
    forall i | 0 <= i < |all|
      ensures i < gone + from ==> all[i] < t - window + 1
      ensures i >= gone + from ==> t - window + 1 <= all[i] < t + 1
    {
      assert i >= gone ==> all[i] == kept[i - gone];
    }
    WithinIsTheEnd(all, t - window + 1, window, gone + from);
  }

  lemma NoWaitIsRoom(st: State, limits: Limits, account: string, now: Instant)
    requires Positive(limits)
    ensures WaitFor(st, limits, account, now) == None
       <==> && (st.blockedUntil.Some? ==> st.blockedUntil.value <= now)
            && |InHour(st.asked, now)| < limits.perHour && |st.asked| < limits.perDay
            && |AskedBy(st, account)| < limits.perAccountDay
  {
  }

  lemma UnblockedIsHeeded(w: World, t: Instant)
    requires BlockedByLast(w)
    ensures (w.state.blockedUntil.Some? ==> w.state.blockedUntil.value <= t) <==> forall r | r in w.refusals :: r.at + HOUR <= t
  {
    if w.refusals != [] {
      assert w.refusals[|w.refusals| - 1] in w.refusals;
    }
  }

  /** A question is let through exactly when the last hour and the last day leave room for it. */
  lemma AskedExactlyWhenFree(limits: Limits, w: World, account: string, t: Instant)
    requires Positive(limits) && Inv(limits, w) && w.clock <= t
    ensures WaitFor(Forgotten(w.state, t), limits, account, t) == None <==> Free(limits, w, account, t)
  {
    var times, mine := Times(w.questions), TimesOf(w.questions, account);
    assert Tracked(AskedBy(w.state, account), mine, w.clock, limits.perAccountDay);
    AskedByForgotten(w.state, account, t);
    WindowCounts(w.state.asked, times, w.clock, DAY, t);
    WindowCounts(AskedBy(w.state, account), mine, w.clock, DAY, t);
    WindowCounts(w.state.asked, times, w.clock, HOUR, t);
    HourIsDropped(w.state.asked, times, w.clock, t);
    NoWaitIsRoom(Forgotten(w.state, t), limits, account, t);
    UnblockedIsHeeded(w, t);
  }

  /**
   The delay is exact, by what happened: with nothing else asked, a question is free at no instant
   before its end and at every one from there on.
   */
  lemma DelayIsExact(limits: Limits, w: World, account: string, now: Instant, t: Instant)
    requires Positive(limits) && Inv(limits, w) && w.clock <= now <= t
    ensures var wait := WaitFor(Forgotten(w.state, now), limits, account, now);
            Free(limits, w, account, t) <==> wait == None || now + wait.value <= t
  {
    WaitIsOver(limits, w, account, now, t);
    var looked := Looked(w, now);
    StepKeepsInv(limits, w, Look(now), looked);
    AskedExactlyWhenFree(limits, looked, account, t);
  }

  // ----- The program's state, updated in place -----

  /** Whether the request breaks off: while it sleeps, or once it asked, with what was answered lost. */
  datatype Break = GoesOn | Sleeping | Questioning

  /** How a question goes, as durations: until its turn, over the time it had to sleep, until the answer. */
  datatype Moment = Moment(before: nat, over: nat, answer: nat, tooMany: bool, breaks: Break)

  /** What came of one request: the state with all that happened, how many it asked, and what it is told to wait. */
  datatype Outcome = Outcome(world: World, questions: nat, retryAfter: Option<nat>)

  /** The instant a question goes out that was let through at `now`. */
  function AskedAt(limits: Limits, st: State, now: Instant, over: nat): Instant {
    (if st.last.Some? then Max(now, st.last.value + limits.spacing) else now) + over
  }

  /** That is the first instant from `now` on that keeps the spacing, unless the sleep is longer. */
  lemma AskedAsSoonAsItMay(limits: Limits, st: State, now: Instant, over: nat, at: Instant)
    requires now <= at && (st.last.Some? ==> st.last.value + limits.spacing <= at)
    ensures now <= AskedAt(limits, st, now, 0) <= at
    ensures st.last.Some? ==> st.last.value + limits.spacing <= AskedAt(limits, st, now, 0)
    ensures AskedAt(limits, st, now, over) == AskedAt(limits, st, now, 0) + over
  {
  }

  /** Whole seconds, the rest left off, and at least one. */
  function RetryAfter(wait: nat): nat {
    Max(wait / SECOND, 1)
  }

  /** What came of one address: asked or not, the last one or not, told to wait or not, and when it was over. */
  datatype One = One(world: World, asked: bool, ended: bool, retryAfter: Option<nat>, clock: Instant)

  ghost function AskingOne(limits: Limits, account: string, w: World, moment: Moment, n: nat, started: Instant,
                           clock: Instant): One {
    var now := clock + moment.before;
    var looked := Looked(w, now);
    var wait := WaitFor(looked.state, limits, account, now);
    if n >= FRESH_PER_REQUEST || now - started >= EMAIL_WAIT then One(looked, false, true, Some(1), now)
    else if wait.Some? then One(looked, false, true, Some(RetryAfter(wait.value)), now)
    else
      var at := AskedAt(limits, looked.state, now, moment.over);
      var (answered, end) := (Answered(looked, account, at), at + moment.answer);
      if moment.breaks == Sleeping then One(looked, false, true, None, at)
      else if moment.breaks == Questioning then One(answered, true, true, None, end)
      else if moment.tooMany then One(TurnedAway(answered, end), true, true, Some(HOUR / SECOND), end)
      else One(answered, true, false, None, end)
  }

  /** The request's addresses from the `n`-th on. */
  ghost function Asking(limits: Limits, account: string, w: World, moments: seq<Moment>, n: nat, started: Instant,
                        clock: Instant): Outcome
    decreases |moments| - n
  {
    if n >= |moments| then Outcome(w, n, None)
    else
      var one := AskingOne(limits, account, w, moments[n], n, started, clock);
      if one.ended then Outcome(one.world, if one.asked then n + 1 else n, one.retryAfter)
      else Asking(limits, account, one.world, moments, n + 1, started, one.clock)
  }

  lemma RunGoesOn(limits: Limits, run: seq<World>, step: Step, w: World)
    requires Run(limits, run) && Next(limits, run[|run| - 1], step, w)
    ensures Run(limits, run + [w])
  {
    var longer := run + [w];
    forall i | 0 < i < |longer|
      ensures Follows(limits, longer[i - 1], longer[i])
    {
      assert i < |run| ==> Follows(limits, run[i - 1], run[i]);
    }
  }

  lemma AskedOnes(limits: Limits, account: string, w: World, moments: seq<Moment>, n: nat, started: Instant, clock: Instant)
    requires n < |moments|
    ensures var one := AskingOne(limits, account, w, moments[n], n, started, clock);
            && (one.asked ==> n < FRESH_PER_REQUEST) && (!one.ended ==> one.asked && one.retryAfter == None)
            && Asking(limits, account, w, moments, n, started, clock)
               == if one.ended then Outcome(one.world, if one.asked then n + 1 else n, one.retryAfter)
                  else Asking(limits, account, one.world, moments, n + 1, started, one.clock)
  {
  }

  lemma OneByWait(limits: Limits, account: string, w: World, moment: Moment, n: nat, started: Instant, clock: Instant)
    ensures var one := AskingOne(limits, account, w, moment, n, started, clock);
            var now := clock + moment.before;
            var passes := WaitFor(Forgotten(w.state, now), limits, account, now) == None;
            && (one.asked <==> n < 5 && now - started < 30 * SECOND && passes && moment.breaks != Sleeping)
            && (one.ended <==> !one.asked || moment.breaks == Questioning || moment.tooMany)
            && (one.asked && moment.breaks == GoesOn ==> one.retryAfter == if moment.tooMany then Some(3600) else None)
            && (n >= 5 || now - started >= 30 * SECOND ==> one.retryAfter == Some(1))
            && (n < 5 && now - started < 30 * SECOND && !passes ==>
                  one.retryAfter == Some(Max(WaitFor(Forgotten(w.state, now), limits, account, now).value / SECOND, 1)))
  {
  }

  lemma OneLeaves(limits: Limits, account: string, w: World, moment: Moment, n: nat, started: Instant, clock: Instant)
    ensures var one := AskingOne(limits, account, w, moment, n, started, clock);
            && |one.world.questions| == |w.questions| + (if one.asked then 1 else 0)
            && |one.world.refusals| == |w.refusals| + (if one.asked && moment.breaks == GoesOn && moment.tooMany then 1 else 0)
  {
  }

  /**
   What makes a request go on and what ends it: its five questions, its 30 seconds, the budget, a break,
   a 429. Where the budget ends it, it is told the delay, in whole seconds.
   */
  lemma OneIsAskedExactly(limits: Limits, account: string, w: World, moment: Moment, n: nat, started: Instant, clock: Instant)
    requires Positive(limits) && Inv(limits, w) && w.clock <= clock + moment.before
    ensures var one := AskingOne(limits, account, w, moment, n, started, clock);
            var now := clock + moment.before;
            && (one.asked <==>
                  n < 5 && now - started < 30 * SECOND && Free(limits, w, account, now) && moment.breaks != Sleeping)
            && (one.ended <==> !one.asked || moment.breaks == Questioning || moment.tooMany)
            && (one.asked && moment.breaks == GoesOn ==> one.retryAfter == if moment.tooMany then Some(3600) else None)
            && |one.world.questions| == |w.questions| + (if one.asked then 1 else 0)
            && (n >= 5 || now - started >= 30 * SECOND ==> one.retryAfter == Some(1))
            && (n < 5 && now - started < 30 * SECOND && !Free(limits, w, account, now) ==>
                  var wait := WaitFor(Forgotten(w.state, now), limits, account, now);
                  wait.Some? && one.retryAfter == Some(Max(wait.value / SECOND, 1)))
  {
    AskedExactlyWhenFree(limits, w, account, clock + moment.before);
    OneByWait(limits, account, w, moment, n, started, clock);
    OneLeaves(limits, account, w, moment, n, started, clock);
  }

  lemma AskingOneIsARun(limits: Limits, account: string, run: seq<World>, moment: Moment, n: nat, started: Instant,
                        clock: Instant) returns (run': seq<World>)
    requires Run(limits, run) && run[|run| - 1].clock <= clock
    ensures Run(limits, run') && run <= run'
    ensures var one := AskingOne(limits, account, run[|run| - 1], moment, n, started, clock);
            run'[|run'| - 1] == one.world && one.world.clock <= one.clock
  {
    var (w, now) := (run[|run| - 1], clock + moment.before);
    var looked := Looked(w, now);
    if n >= FRESH_PER_REQUEST || now - started >= EMAIL_WAIT || moment.breaks == Sleeping
       || WaitFor(looked.state, limits, account, now).Some? {
      RunGoesOn(limits, run, Look(now), looked);
      run' := run + [looked];
    } else {
      var at := AskedAt(limits, looked.state, now, moment.over);
      var (answered, end) := (Answered(looked, account, at), at + moment.answer);
      RunGoesOn(limits, run, Ask(account, now, at), answered);
      run' := run + [answered];
      if moment.breaks == GoesOn && moment.tooMany {
        RunGoesOn(limits, run', Refused(end), TurnedAway(answered, end));
        run' := run' + [TurnedAway(answered, end)];
      }
    }
  }

  /** A request adds to the run so far. */
  lemma {:induction false} AskingIsARun(limits: Limits, account: string, run: seq<World>, moments: seq<Moment>, n: nat,
                                        started: Instant, clock: Instant) returns (run': seq<World>)
    requires Run(limits, run) && run[|run| - 1].clock <= clock
    ensures Run(limits, run') && run <= run'
    ensures run'[|run'| - 1] == Asking(limits, account, run[|run| - 1], moments, n, started, clock).world
    decreases |moments| - n
  {
    run' := run;
    if n < |moments| {
      var one := AskingOne(limits, account, run[|run| - 1], moments[n], n, started, clock);
      AskedOnes(limits, account, run[|run| - 1], moments, n, started, clock);
      run' := AskingOneIsARun(limits, account, run, moments[n], n, started, clock);
      if !one.ended {
        run' := AskingIsARun(limits, account, run', moments, n + 1, started, one.clock);
      }
    }
  }

  lemma {:induction false} DroppedTwice(asked: seq<Instant>, now: Instant)
    ensures DropOld(DropOld(asked, now), now) == DropOld(asked, now)
  {
    if asked != [] && Since(now, asked[0]) >= DAY {
      DroppedTwice(asked[1..], now);
    }
  }

  lemma ForgottenTwice(st: State, now: Instant)
    ensures Forgotten(Forgotten(st, now), now) == Forgotten(st, now)
  {
    DroppedTwice(st.asked, now);
    forall a | a in st.accounts
      ensures DropOld(DropOld(st.accounts[a], now), now) == DropOld(st.accounts[a], now)
    {
      DroppedTwice(st.accounts[a], now);
    }
    assert Forgotten(Forgotten(st, now), now).accounts == Forgotten(st, now).accounts;
  }

  lemma WholeSeconds(wait: nat)
    ensures wait <= RetryAfter(wait) * SECOND <==> wait < SECOND || wait % SECOND == 0
  {
  }

  lemma WaitIsOver(limits: Limits, w: World, account: string, now: Instant, t: Instant)
    requires Positive(limits) && Inv(limits, w) && w.clock <= now <= t
    ensures WaitFor(Forgotten(Forgotten(w.state, now), t), limits, account, t)
         == Left(WaitFor(Forgotten(w.state, now), limits, account, now), now, t)
  {
    var looked := Looked(w, now);
    StepKeepsInv(limits, w, Look(now), looked);
    ForgottenTwice(w.state, now);
    WaitIsExact(limits, looked, account, t);
  }

  /**
   What the client is told to wait is enough exactly when the delay is under a second or a whole
   number of seconds: the rest of a second is left off, so it may come back too early.
   */
  lemma RetryAfterSuffices(limits: Limits, account: string, w: World, now: Instant)
    requires Positive(limits) && Inv(limits, w) && w.clock <= now && !Free(limits, w, account, now)
    ensures WaitFor(Forgotten(w.state, now), limits, account, now).Some?
    ensures var wait := WaitFor(Forgotten(w.state, now), limits, account, now).value;
            Free(limits, w, account, now + RetryAfter(wait) * SECOND) <==> wait < SECOND || wait % SECOND == 0
  {
    AskedExactlyWhenFree(limits, w, account, now);
    var wait := WaitFor(Forgotten(w.state, now), limits, account, now).value;
    DelayIsExact(limits, w, account, now, now + RetryAfter(wait) * SECOND);
    WholeSeconds(wait);
  }

  lemma OneAskedWaits(now: Instant)
    requires 0 < now < DAY
    ensures var st := Recorded(NOTHING_ASKED, "", 0);
            && Forgotten(Forgotten(st, 1), now) == Forgotten(st, now) == st
            && WaitFor(st, Limits(0, 1, 1, 1), "", now) == Some(DAY - now)
  {
    var st := Recorded(NOTHING_ASKED, "", 0);
    assert forall t | 0 < t < DAY :: DropOld([0], t) == [0];
    assert Forgotten(st, now).accounts == st.accounts && Forgotten(st, 1).accounts == st.accounts;
    assert Forgotten(st, now) == st && Forgotten(st, 1) == st;
    assert st.asked == [0] && AskedBy(st, "") == [0] && st.blockedUntil == None;
    assert st.asked[1..] == [];
    assert InHour(st.asked, now) == if now < HOUR then [0] else [];
    assert WindowWait(None, InHour(st.asked, now), 1, HOUR, now) == if now < HOUR then Some(HOUR - now) else None;
  }

  /** One a day for each account, and one just asked: who comes back as told comes nearly a second too early. */
  lemma ComesBackTooEarly() returns (limits: Limits, run: seq<World>)
    ensures Positive(limits) && Run(limits, run)
    ensures var (w, now) := (run[|run| - 1], run[|run| - 1].clock + 1);
            var wait := WaitFor(Forgotten(w.state, now), limits, "", now);
            && wait.Some?
            && var back := now + RetryAfter(wait.value) * SECOND;
            WaitFor(Forgotten(Forgotten(w.state, now), back), limits, "", back).Some?
  {
    limits := Limits(0, 1, 1, 1);
    run := FirstQuestionPasses(limits, "");
    OneAskedWaits(1);
    OneAskedWaits(1 + RetryAfter(DAY - 1) * SECOND);
  }

  class BudgetState {
    var last: Option<Instant>
    var asked: seq<Instant>
    var blockedUntil: Option<Instant>
    var accounts: map<string, seq<Instant>>

    ghost function Value(): State
      reads this
    {
      State(last, asked, blockedUntil, accounts)
    }

    constructor ()
      ensures Value() == NOTHING_ASKED
    {
      last, asked, blockedUntil, accounts := None, [], None, map[];
    }

    method ForgetOld(now: Instant)
      modifies this
      ensures Value() == Forgotten(old(Value()), now)
    {
      while asked != [] && Since(now, asked[0]) >= DAY
        invariant last == old(last) && blockedUntil == old(blockedUntil) && accounts == old(accounts)
        invariant DropOld(asked, now) == DropOld(old(asked), now)
        decreases |asked|
      {
        asked := asked[1..];
      }
      var kept: map<string, seq<Instant>> := map[];
      var left := accounts.Keys;
      while left != {}
        invariant left <= accounts.Keys
        invariant kept == map a | a in accounts && a !in left && DropOld(accounts[a], now) != [] :: DropOld(accounts[a], now)
        decreases left
      {
        var a :| a in left;
        var mine := accounts[a];
        while mine != [] && Since(now, mine[0]) >= DAY
          invariant DropOld(mine, now) == DropOld(accounts[a], now)
          decreases |mine|
        {
          mine := mine[1..];
        }
        if mine != [] {
          kept := kept[a := mine];
        }
        left := left - {a};
      }
      accounts := kept;
    }

    method Wait(limits: Limits, account: string, now: Instant) returns (wait: Option<nat>)
      ensures wait == WaitFor(Value(), limits, account, now)
    {
      wait := None;
      if blockedUntil.Some? && blockedUntil.value > now {
        wait := Later(wait, blockedUntil.value - now);
      }
      var inHour := InHour(asked, now);
      if |inHour| >= limits.perHour && inHour != [] {
        wait := Later(wait, Until(now, inHour[0], HOUR));
      }
      if |asked| >= limits.perDay && asked != [] {
        wait := Later(wait, Until(now, asked[0], DAY));
      }
      if account in accounts {
        var mine := accounts[account];
        if |mine| >= limits.perAccountDay && mine != [] {
          wait := Later(wait, Until(now, mine[0], DAY));
        }
      }
    }

    method Record(account: string, now: Instant)
      modifies this
      ensures Value() == Recorded(old(Value()), account, now)
    {
      last := Some(now);
      asked := asked + [now];
      var mine := if account in accounts then accounts[account] else [];
      accounts := accounts[account := mine + [now]];
    }

    /** One address of a request, its `n`-th. */
    method AskOne(limits: Limits, account: string, moment: Moment, n: nat, started: Instant, clock: Instant, ghost w: World)
        returns (questioned: bool, ended: bool, retryAfter: Option<nat>, end: Instant, ghost w': World)
      requires w.state == Value()
      modifies this
      ensures One(w', questioned, ended, retryAfter, end) == AskingOne(limits, account, w, moment, n, started, clock)
      ensures w'.state == Value()
    {
      var now := clock + moment.before;
      ForgetOld(now);
      w' := Looked(w, now);
      if n >= FRESH_PER_REQUEST || now - started >= EMAIL_WAIT {
        return false, true, Some(1), now, w';
      }
      var wait := Wait(limits, account, now);
      if wait.Some? {
        return false, true, Some(RetryAfter(wait.value)), now, w';
      }
      var at := (if last.Some? then Max(now, last.value + limits.spacing) else now) + moment.over;
      if moment.breaks == Sleeping {
        return false, true, None, at, w';
      }
      Record(account, at);
      w' := Answered(w', account, at);
      end := at + moment.answer;
      if moment.breaks == Questioning {
        return true, true, None, end, w';
      }
      if moment.tooMany {
        blockedUntil := Some(end + HOUR);
        return true, true, Some(HOUR / SECOND), end, TurnedAway(w', end);
      }
      return true, false, None, end, w';
    }

    /**
     One request: its addresses in turn, until the budget, the source or the clock ends it. It
     adds to the run so far, so whatever holds of every run holds of every sequence of requests.
     */
    method AskAll(limits: Limits, account: string, moments: seq<Moment>, started: Instant, locked: Instant,
                  ghost before: seq<World>)
        returns (questions: nat, retryAfter: Option<nat>, ghost run: seq<World>)
      requires Run(limits, before) && before[|before| - 1].state == Value()
      requires before[|before| - 1].clock <= locked && started <= locked
      modifies this
      ensures Run(limits, run) && before <= run && run[|run| - 1].state == Value()
      ensures Outcome(run[|run| - 1], questions, retryAfter)
           == Asking(limits, account, before[|before| - 1], moments, 0, started, locked)
      ensures questions <= Min(|moments|, FRESH_PER_REQUEST)
    {
      run := AskingIsARun(limits, account, before, moments, 0, started, locked);
      ghost var w := before[|before| - 1];
      questions, retryAfter := 0, None;
      var clock := locked;
      ghost var goal := Asking(limits, account, w, moments, 0, started, locked);
      while questions < |moments|
        invariant questions <= Min(|moments|, FRESH_PER_REQUEST)
        invariant w.state == Value() && retryAfter == None
        invariant goal == Asking(limits, account, w, moments, questions, started, clock)
      {
        AskedOnes(limits, account, w, moments, questions, started, clock);
        var questioned, ended;
        questioned, ended, retryAfter, clock, w := AskOne(limits, account, moments[questions], questions, started, clock, w);
        if questioned {
          questions := questions + 1;
        }
        if ended {
          return;
        }
      }
    }
  }
}
