/**
 Emergency access: a grantor names a contact, who accepts and is confirmed with a key; when the
 contact asks, access is approved by the grantor or by the end of the wait, unless it is refused.
 Every request works on a copy it loaded and saves it only if the grant has not changed since.
 */
module Emergency {
  import opened Prelude

  /** Microseconds, the way times are written in the database. */
  type Instant = int

  const DAY: nat := 86_400_000_000

  const INVITED: int := 0
  const ACCEPTED: int := 1
  const CONFIRMED: int := 2
  const ASKED: int := 3
  const APPROVED: int := 4

  const VIEW: int := 0
  const TAKEOVER: int := 1

  /** The longest key. */
  const MAX_NOTE: nat := 10_000

  datatype Grant = Grant(grantor: string, grantee: Option<string>, email: string, key: Option<string>, kind: int,
                         status: int, waitDays: int, token: Option<string>, asked: Option<Instant>,
                         notified: Option<Instant>, revision: Instant)

  predicate TermsOk(kind: int, waitDays: int) {
    (kind == VIEW || kind == TAKEOVER) && 1 <= waitDays <= 90
  }

  function Invitation(grantor: string, email: string, kind: int, waitDays: int, now: Instant): Grant {
    Grant(grantor, None, email, None, kind, INVITED, waitDays, None, None, None, now)
  }

  // ----- What each request makes of the grant it loaded -----

  /**
   A request. A token stands for its hash; `checked` and `at` are when the request looked at the
   clock; `found` says whether the other side's account is there.
   */
  datatype Op =
    | Reinvite(user: string, token: string)
    | Accept(user: string, email: string, given: Option<string>, checked: Instant, invitationDays: nat)
    | Confirm(user: string, key: string, found: bool)
    | Initiate(user: string, found: bool, at: Instant)
    | Approve(user: string)
    | Reject(user: string)
    | Update(user: string, kind: int, waitDays: int, newKey: Option<string>)

  /** What the request saves, or nothing if it refuses. */
  function Change(op: Op, g: Grant): Option<Grant> {
    match op
    case Reinvite(user, token) =>
      if g.grantor == user && g.status == INVITED then Some(g.(token := Some(token))) else None
    case Accept(user, email, given, checked, days) =>
      if g.status == INVITED && (given == None || g.token == given) && g.revision > checked - days * DAY && g.email == email
      then Some(g.(grantee := Some(user), status := ACCEPTED, token := None)) else None
    case Confirm(user, key, found) =>
      if g.grantor == user && g.status == ACCEPTED && 0 < |key| <= MAX_NOTE && found
      then Some(g.(status := CONFIRMED, key := Some(key))) else None
    case Initiate(user, found, at) =>
      if g.grantee == Some(user) && g.status == CONFIRMED && found
      then Some(g.(status := ASKED, asked := Some(at), notified := Some(at))) else None
    case Approve(user) =>
      if g.grantor == user && g.status == ASKED then Some(g.(status := APPROVED)) else None
    case Reject(user) =>
      if g.grantor == user && (g.status == ASKED || g.status == APPROVED)
      then Some(g.(status := CONFIRMED, asked := None)) else None
    case Update(user, kind, waitDays, newKey) =>
      if g.grantor == user && TermsOk(kind, waitDays)
      then Some(g.(kind := kind, waitDays := waitDays, key := if newKey.Some? && newKey.value != "" then newKey else g.key))
      else None
  }

  /** `approved`: what a view or a takeover asks before it hands anything out. */
  predicate May(row: Option<Grant>, user: string, kind: int) {
    row.Some? && row.value.grantee == Some(user) && row.value.status == APPROVED && row.value.kind == kind
  }

  predicate WaitOver(g: Grant, now: Instant) {
    g.status == ASKED && g.asked.Some? && g.asked.value + g.waitDays * DAY <= now
  }

  // ----- Runs of one grant: any requests, each with a copy of any age -----

  datatype Event =
    | DidAccept(user: string, email: string)
    | DidConfirm(who: string)
    | DidAsk(user: string, at: Instant)
    | DidApprove(who: string)
    | DidWait(days: int, at: Instant)
    | DidReject(who: string)

  function Told(op: Op): seq<Event> {
    match op
    case Accept(user, email, _, _, _) => [DidAccept(user, email)]
    case Confirm(user, _, _) => [DidConfirm(user)]
    case Initiate(user, _, at) => [DidAsk(user, at)]
    case Approve(user) => [DidApprove(user)]
    case Reject(user) => [DidReject(user)]
    case _ => []
  }

  /** What bears on an access that was let through: another word on it, other terms, the end of the grant. */
  datatype Act = Allowed | Refused | KindSet(kind: int) | Removed

  function Bearing(op: Op): seq<Act> {
    match op
    case Approve(_) => [Allowed]
    case Reject(_) => [Refused]
    case Update(_, kind, _, _) => [KindSet(kind)]
    case _ => []
  }

  /** `approved` let `user` through, with the row and all that had happened by then. */
  datatype Check = Check(user: string, kind: int, row: Grant, log: seq<Event>, acts: nat)

  /** The vault was read, or the new password written, for check number `check`. */
  datatype Use = Use(check: nat, row: Option<Grant>, log: seq<Event>, acts: nat)

  /** The row, all it ever was, what was done to it, and the accesses let through and taken. */
  datatype World = World(row: Option<Grant>, versions: seq<Grant>, log: seq<Event>, acts: seq<Act>, checks: seq<Check>,
                         uses: seq<Use>, clock: Instant)

  datatype Step =
    | Save(op: Op, copy: nat, now: Instant)
    | Wait(now: Instant)
    | Remind(now: Instant)
    | Rotate(key: string, now: Instant)
    | Remove
    | Pass(user: string, kind: int)
    | Take(check: nat)

  ghost predicate Start(w: World) {
    exists grantor, email, kind, waitDays ::
      && TermsOk(kind, waitDays)
      && w == World(Some(Invitation(grantor, email, kind, waitDays, w.clock)),
                    [Invitation(grantor, email, kind, waitDays, w.clock)], [], [], [], [], w.clock)
  }

  ghost function Written(w: World, g: Grant, events: seq<Event>, acts: seq<Act>, now: Instant): World {
    World(Some(g), w.versions + [g], w.log + events, w.acts + acts, w.checks, w.uses, now)
  }

  /** The request is saved. */
  ghost function Saved(w: World, op: Op, copy: nat, now: Instant): World
    requires copy < |w.versions| && Change(op, w.versions[copy]).Some?
  {
    Written(w, Change(op, w.versions[copy]).value.(revision := now), Told(op), Bearing(op), now)
  }

  ghost function Waited(w: World, now: Instant): World
    requires w.row.Some?
  {
    Written(w, w.row.value.(status := APPROVED, revision := now), [DidWait(w.row.value.waitDays, now)], [Allowed], now)
  }

  ghost function Passed(w: World, user: string, kind: int): World
    requires w.row.Some?
  {
    w.(checks := w.checks + [Check(user, kind, w.row.value, w.log, |w.acts|)])
  }

  ghost function Taken(w: World, check: nat): World {
    w.(uses := w.uses + [Use(check, w.row, w.log, |w.acts|)])
  }

  /** A clock may say anything: the time of a step is the revision it writes, or what it remembers. */
  ghost predicate Next(w: World, step: Step, w': World) {
    match step
    case Save(op, copy, now) =>
      && copy < |w.versions|
      && var loaded := w.versions[copy];
      && Change(op, loaded).Some?
      && w' == (if w.row.Some? && w.row.value.revision == loaded.revision
                then Saved(w, op, copy, now) else w.(clock := now))
    case Wait(now) => w.row.Some? && WaitOver(w.row.value, now) && w' == Waited(w, now)
    case Remind(now) =>
      && w.row.Some? && w.row.value.status == ASKED
      && w' == Written(w, w.row.value.(notified := Some(now)), [], [], now)
    case Rotate(key, now) =>
      && w.row.Some? && w.row.value.key.Some?
      && w' == Written(w, w.row.value.(key := Some(key), revision := now), [], [], now)
    case Remove => w' == w.(row := None, acts := w.acts + [Removed])
    case Pass(user, kind) => May(w.row, user, kind) && w' == Passed(w, user, kind)
    case Take(check) => check < |w.checks| && w' == Taken(w, check)
  }

  ghost predicate Follows(w: World, w': World) {
    exists step :: Next(w, step, w')
  }

  ghost predicate Run(run: seq<World>) {
    |run| > 0 && Start(run[0]) && forall i | 0 < i < |run| :: Follows(run[i - 1], run[i])
  }

  /** Versions with one revision are the same, reminders aside: no two writes were given the same time. */
  ghost predicate Distinct(w: World) {
    forall i, j | 0 <= i < |w.versions| && 0 <= j < |w.versions| && w.versions[i].revision == w.versions[j].revision ::
      w.versions[i].(notified := None) == w.versions[j].(notified := None)
  }

  // ----- Runs on a clock that never goes back -----

  /** A write that sets the revision comes at least `gap` after the last. */
  ghost predicate InTime(gap: nat, w: World, now: Instant) {
    w.clock <= now && (w.row.Some? ==> w.row.value.revision + gap <= now)
  }

  ghost predicate Timely(gap: nat, w: World, step: Step) {
    match step
    case Save(op, copy, now) =>
      InTime(gap, w, now) && (op.Initiate? && copy < |w.versions| ==> w.versions[copy].revision <= op.at <= now)
    case Wait(now) => InTime(gap, w, now)
    case Remind(now) => w.clock <= now
    case Rotate(_, now) => InTime(gap, w, now)
    case _ => true
  }

  ghost predicate FollowsInTime(gap: nat, w: World, w': World) {
    exists step :: Next(w, step, w') && Timely(gap, w, step)
  }

  ghost predicate TimedRun(gap: nat, run: seq<World>) {
    |run| > 0 && Start(run[0]) && forall i | 0 < i < |run| :: FollowsInTime(gap, run[i - 1], run[i])
  }

  lemma TimedIsRun(gap: nat, run: seq<World>)
    requires TimedRun(gap, run)
    ensures Run(run)
  {
    forall i | 0 < i < |run|
      ensures Follows(run[i - 1], run[i])
    {
      assert FollowsInTime(gap, run[i - 1], run[i]);
    }
  }

  /** The row is the last version, and no version is younger. */
  ghost predicate Latest(w: World) {
    w.row.Some? ==>
      && |w.versions| > 0 && w.row.value == w.versions[|w.versions| - 1]
      && forall i | 0 <= i < |w.versions| :: w.versions[i].revision <= w.row.value.revision
  }

  lemma LaterStaysDistinct(w: World, g: Grant, events: seq<Event>, acts: seq<Act>, now: Instant)
    requires Distinct(w) && Latest(w) && w.row.Some?
    requires w.row.value.revision < g.revision || g.(notified := w.row.value.notified) == w.row.value
    ensures Distinct(Written(w, g, events, acts, now)) && Latest(Written(w, g, events, acts, now))
  {
    var w' := Written(w, g, events, acts, now);
    forall i | 0 <= i < |w.versions| && w.versions[i].revision == g.revision
      ensures w.versions[i].(notified := None) == g.(notified := None)
    {
      assert w.versions[i].(notified := None) == w.row.value.(notified := None);
    }
  }

  lemma TimelyStaysDistinct(gap: nat, w: World, step: Step, w': World)
    requires gap >= 1 && Distinct(w) && Latest(w) && Next(w, step, w') && Timely(gap, w, step)
    ensures Distinct(w') && Latest(w')
  {
    match step
    case Save(op, copy, now) =>
      if w.row.Some? && w.row.value.revision == w.versions[copy].revision {
        LaterStaysDistinct(w, Change(op, w.versions[copy]).value.(revision := now), Told(op), Bearing(op), now);
      }
    case Wait(now) =>
      LaterStaysDistinct(w, w.row.value.(status := APPROVED, revision := now), [DidWait(w.row.value.waitDays, now)],
                         [Allowed], now);
    case Remind(now) => LaterStaysDistinct(w, w.row.value.(notified := Some(now)), [], [], now);
    case Rotate(key, now) => LaterStaysDistinct(w, w.row.value.(key := Some(key), revision := now), [], [], now);
    case _ =>
  }

  lemma {:induction false} ApartMeansDistinct(gap: nat, run: seq<World>, i: nat)
    requires gap >= 1 && TimedRun(gap, run) && i < |run|
    ensures Distinct(run[i]) && Latest(run[i])
  {
    if i > 0 {
      ApartMeansDistinct(gap, run, i - 1);
      assert FollowsInTime(gap, run[i - 1], run[i]);
      var step :| Next(run[i - 1], step, run[i]) && Timely(gap, run[i - 1], step);
      TimelyStaysDistinct(gap, run[i - 1], step, run[i]);
    }
  }

  // ----- What every row is, whatever the clock does -----

  /**
   The contact is set just past the invitation, a key is there from the confirmation on, and the
   time of asking is set just while access is asked for or approved.
   */
  ghost predicate RowRight(g: Grant) {
    && INVITED <= g.status <= APPROVED && g.kind in {0, 1} && 1 <= g.waitDays <= 90
    && (g.grantee.Some? <==> g.status >= ACCEPTED)
    && (g.status >= CONFIRMED ==> g.key.Some?)
    && (g.asked.Some? <==> g.status >= ASKED)
    && (g.token.Some? ==> g.status == INVITED)
  }

  ghost predicate RowsRight(w: World) {
    && (forall i | 0 <= i < |w.versions| :: RowRight(w.versions[i]))
    && (w.row.Some? ==> RowRight(w.row.value))
  }

  lemma ChangeKeepsRowRight(op: Op, g: Grant)
    requires RowRight(g) && Change(op, g).Some?
    ensures RowRight(Change(op, g).value)
  {
  }

  lemma WriteKeepsRowsRight(w: World, g: Grant, events: seq<Event>, acts: seq<Act>, now: Instant)
    requires RowsRight(w) && RowRight(g)
    ensures RowsRight(Written(w, g, events, acts, now))
  {
  }

  lemma StepKeepsRowsRight(w: World, w': World)
    requires RowsRight(w) && Follows(w, w')
    ensures RowsRight(w')
  {
    var step :| Next(w, step, w');
    match step
    case Save(op, copy, now) =>
      ChangeKeepsRowRight(op, w.versions[copy]);
      WriteKeepsRowsRight(w, Change(op, w.versions[copy]).value.(revision := now), Told(op), Bearing(op), now);
    case Wait(now) =>
      WriteKeepsRowsRight(w, w.row.value.(status := APPROVED, revision := now), [DidWait(w.row.value.waitDays, now)],
                          [Allowed], now);
    case Remind(now) => WriteKeepsRowsRight(w, w.row.value.(notified := Some(now)), [], [], now);
    case Rotate(key, now) => WriteKeepsRowsRight(w, w.row.value.(key := Some(key), revision := now), [], [], now);
    case _ =>
  }

  lemma {:induction false} RunKeepsRowsRight(run: seq<World>, i: nat)
    requires Run(run) && i < |run|
    ensures RowsRight(run[i])
  {
    if i > 0 {
      RunKeepsRowsRight(run, i - 1);
      StepKeepsRowsRight(run[i - 1], run[i]);
    }
  }

  // ----- What must have happened before access -----

  /** The wait ran out, or the grantor approved. */
  predicate Allows(event: Event, grantor: string, asked: Instant) {
    event == DidApprove(grantor) || (event.DidWait? && asked + event.days * DAY <= event.at)
  }

  /**
   The contact accepted, logged in with the address that was invited; the grantor confirmed; and last
   of all the contact asked and the grantor approved or the wait ran out: nothing was refused since.
   */
  predicate Granted(log: seq<Event>, grantor: string, email: string, user: string) {
    && |log| >= 4 && log[0] == DidAccept(user, email) && log[1] == DidConfirm(grantor)
    && var (asked, allowed) := (log[|log| - 2], log[|log| - 1]);
    && asked.DidAsk? && asked.user == user && Allows(allowed, grantor, asked.at)
  }

  /** The status as the events tell it. */
  ghost predicate Agrees(g: Grant, log: seq<Event>) {
    && (g.status == INVITED <==> log == [])
    && (g.status >= ACCEPTED ==> |log| >= 1 && g.grantee.Some? && log[0] == DidAccept(g.grantee.value, g.email))
    && (g.status == ACCEPTED ==> |log| == 1)
    && (g.status >= CONFIRMED ==> |log| >= 2 && log[1] == DidConfirm(g.grantor))
    && (g.status == CONFIRMED ==> log[|log| - 1].DidConfirm? || log[|log| - 1] == DidReject(g.grantor))
    && (g.status == ASKED ==>
          |log| >= 3 && g.asked.Some? && log[|log| - 1] == DidAsk(g.grantee.value, g.asked.value))
    && (g.status == APPROVED ==>
          |log| >= 4 && g.asked.Some? && log[|log| - 2] == DidAsk(g.grantee.value, g.asked.value)
          && Allows(log[|log| - 1], g.grantor, g.asked.value))
  }

  ghost predicate RowIsLast(w: World) {
    w.row.Some? ==> |w.versions| > 0 && w.row.value == w.versions[|w.versions| - 1]
  }

  ghost predicate Inv(w: World) {
    RowsRight(w) && RowIsLast(w) && (w.row.Some? ==> Agrees(w.row.value, w.log))
  }

  lemma ChangeAgrees(op: Op, loaded: Grant, g: Grant, log: seq<Event>, now: Instant)
    requires RowRight(g) && Agrees(g, log) && loaded.(notified := None) == g.(notified := None)
    requires Change(op, loaded).Some?
    ensures Agrees(Change(op, loaded).value.(revision := now), log + Told(op))
  {
  }

  /** A copy with the row's revision is the row, reminders aside. */
  lemma CopyIsRow(w: World, copy: nat)
    requires Distinct(w) && RowIsLast(w) && w.row.Some? && copy < |w.versions|
    requires w.row.value.revision == w.versions[copy].revision
    ensures w.versions[copy].(notified := None) == w.row.value.(notified := None)
  {
  }

  lemma SaveKeeps(w: World, op: Op, copy: nat, now: Instant)
    requires Inv(w) && Distinct(w) && copy < |w.versions| && Change(op, w.versions[copy]).Some?
    requires w.row.Some? && w.row.value.revision == w.versions[copy].revision
    ensures Inv(Saved(w, op, copy, now))
  {
    var loaded := w.versions[copy];
    CopyIsRow(w, copy);
    ChangeKeepsRowRight(op, loaded);
    ChangeAgrees(op, loaded, w.row.value, w.log, now);
    WriteKeepsRowsRight(w, Change(op, loaded).value.(revision := now), Told(op), Bearing(op), now);
  }

  lemma WaitKeeps(w: World, now: Instant)
    requires Inv(w) && w.row.Some? && WaitOver(w.row.value, now)
    ensures Inv(Waited(w, now))
  {
    var g := w.row.value.(status := APPROVED, revision := now);
    WriteKeepsRowsRight(w, g, [DidWait(w.row.value.waitDays, now)], [Allowed], now);
  }

  /** Reminders and new keys change nothing that the events tell of. */
  lemma QuietKeeps(w: World, g: Grant, now: Instant)
    requires Inv(w) && w.row.Some? && RowRight(g)
    requires g.(notified := None, key := None, revision := 0) == w.row.value.(notified := None, key := None, revision := 0)
    ensures Inv(Written(w, g, [], [], now))
  {
    assert w.log + [] == w.log;
    assert g.status == w.row.value.status && g.grantee == w.row.value.grantee && g.asked == w.row.value.asked;
    assert g.grantor == w.row.value.grantor && g.email == w.row.value.email;
    WriteKeepsRowsRight(w, g, [], [], now);
  }

  lemma SaveStepKeeps(w: World, op: Op, copy: nat, now: Instant, w': World)
    requires Inv(w) && Distinct(w) && Next(w, Save(op, copy, now), w')
    ensures Inv(w')
  {
    if w.row.Some? && w.row.value.revision == w.versions[copy].revision {
      SaveKeeps(w, op, copy, now);
    }
  }

  /** Letting an access through, or taking it, leaves the grant as it is. */
  lemma SameGrantKeeps(w: World, w': World)
    requires Inv(w) && w'.row == w.row && w'.versions == w.versions && w'.log == w.log
    ensures Inv(w')
  {
  }

  lemma StepKeeps(w: World, step: Step, w': World)
    requires Inv(w) && Distinct(w) && Next(w, step, w')
    ensures Inv(w')
  {
    if step.Save? {
      SaveStepKeeps(w, step.op, step.copy, step.now, w');
    } else if step.Wait? {
      WaitKeeps(w, step.now);
    } else if step.Remind? {
      QuietKeeps(w, w.row.value.(notified := Some(step.now)), step.now);
    } else if step.Rotate? {
      QuietKeeps(w, w.row.value.(key := Some(step.key), revision := step.now), step.now);
    } else if step.Pass? || step.Take? {
      SameGrantKeeps(w, w');
    }
  }

  lemma StepGrows(w: World, w': World)
    requires Follows(w, w')
    ensures w.log <= w'.log && (w.row.None? ==> w'.row.None?)
    ensures w.versions <= w'.versions
  {
    var step :| Next(w, step, w');
  }

  lemma {:induction false} OnlyGrows(run: seq<World>, i: nat, j: nat)
    requires Run(run) && i <= j < |run|
    ensures run[i].log <= run[j].log && (run[i].row.None? ==> run[j].row.None?)
    ensures run[i].versions <= run[j].versions
  {
    if i < j {
      OnlyGrows(run, i, j - 1);
      StepGrows(run[j - 1], run[j]);
    }
  }

  lemma DistinctBefore(run: seq<World>, i: nat)
    requires Run(run) && i < |run| && Distinct(run[|run| - 1])
    ensures Distinct(run[i])
  {
    OnlyGrows(run, i, |run| - 1);
    var (w, last) := (run[i], run[|run| - 1]);
    assert forall k | 0 <= k < |w.versions| :: w.versions[k] == last.versions[k];
  }

  lemma {:induction false} RunKeeps(run: seq<World>, i: nat)
    requires Run(run) && i < |run| && Distinct(run[|run| - 1])
    ensures Inv(run[i])
  {
    if i > 0 {
      RunKeeps(run, i - 1);
      DistinctBefore(run, i - 1);
      assert Follows(run[i - 1], run[i]);
      var step :| Next(run[i - 1], step, run[i]);
      StepKeeps(run[i - 1], step, run[i]);
    }
  }

  // ----- The promises, and when they hold -----

  /** Whoever may see or take over was confirmed, asked, and was not refused since. */
  ghost predicate OnlyGranted(w: World) {
    forall user, kind | May(w.row, user, kind) :: Granted(w.log, w.row.value.grantor, w.row.value.email, user)
  }

  ghost predicate AccessIsGranted(gap: nat) {
    forall run: seq<World> | TimedRun(gap, run) :: OnlyGranted(run[|run| - 1])
  }

  ghost predicate SameContact(before: World, after: World) {
    before.row.Some? && after.row.Some? && before.row.value.grantee.Some? ==>
      after.row.value.grantee == before.row.value.grantee
  }

  /** The contact, once set, stays. */
  ghost predicate ContactStays(gap: nat) {
    forall run: seq<World>, i: nat | TimedRun(gap, run) && i < |run| :: SameContact(run[i], run[|run| - 1])
  }

  lemma ContactStaysIn(run: seq<World>, i: nat)
    requires Run(run) && i < |run| && Distinct(run[|run| - 1])
    ensures SameContact(run[i], run[|run| - 1])
  {
    OnlyGrows(run, i, |run| - 1);
    RunKeeps(run, i);
    RunKeeps(run, |run| - 1);
    if run[i].row.Some? && run[|run| - 1].row.Some? && run[i].row.value.grantee.Some? {
      assert run[i].log[0] == run[|run| - 1].log[0];
    }
  }

  lemma RunGoesOn(gap: nat, run: seq<World>, step: Step, w: World)
    requires TimedRun(gap, run) && Next(run[|run| - 1], step, w) && Timely(gap, run[|run| - 1], step)
    ensures TimedRun(gap, run + [w])
  {
    forall i | 0 < i < |run + [w]|
      ensures FollowsInTime(gap, (run + [w])[i - 1], (run + [w])[i])
    {
      if i < |run| {
        assert FollowsInTime(gap, run[i - 1], run[i]);
      }
    }
  }

  /** A request with the version `copy`, which the row has not outgrown. */
  lemma Extend(gap: nat, run: seq<World>, op: Op, copy: nat, now: Instant) returns (run': seq<World>)
    requires TimedRun(gap, run)
    requires var w := run[|run| - 1];
             && w.row.Some? && InTime(gap, w, now) && copy < |w.versions|
             && w.row.value.revision == w.versions[copy].revision && Change(op, w.versions[copy]).Some?
             && (op.Initiate? ==> w.versions[copy].revision <= op.at <= now)
    ensures TimedRun(gap, run') && |run'| == |run| + 1 && run'[..|run|] == run && run'[|run|] == Saved(run[|run| - 1], op, copy, now)
  {
    var w := run[|run| - 1];
    RunGoesOn(gap, run, Save(op, copy, now), Saved(w, op, copy, now));
    run' := run + [Saved(w, op, copy, now)];
  }

  const ACCEPTING: Op := Accept("mio", "mio@example.com", None, 0, 1)

  lemma InvitedAtZero(gap: nat) returns (run: seq<World>)
    ensures TimedRun(gap, run) && |run| == 1
    ensures var g := Invitation("nyu", "mio@example.com", TAKEOVER, 1, 0);
            run[0] == World(Some(g), [g], [], [], [], [], 0)
  {
    var g := Invitation("nyu", "mio@example.com", TAKEOVER, 1, 0);
    assert TermsOk(TAKEOVER, 1);
    run := [World(Some(g), [g], [], [], [], [], 0)];
    assert Start(run[0]);
  }

  /** The steps to an access, `gap` apart: so far as the contact has asked. */
  lemma AskedInSteps(gap: nat) returns (run: seq<World>)
    ensures TimedRun(gap, run)
    ensures var w := run[|run| - 1];
            && w.row.Some? && |w.versions| == 4 && w.row.value == w.versions[3]
            && w.row.value == Grant("nyu", Some("mio"), "mio@example.com", Some("key"), TAKEOVER, ASKED, 1, None,
                                    Some(3 * gap), Some(3 * gap), 3 * gap)
            && w.log == [DidAccept("mio", "mio@example.com"), DidConfirm("nyu"), DidAsk("mio", 3 * gap)]
            && w.acts == [] && w.checks == [] && w.uses == [] && w.clock == 3 * gap
  {
    run := InvitedAtZero(gap);
    run := Extend(gap, run, ACCEPTING, 0, gap);
    run := Extend(gap, run, Confirm("nyu", "key", true), 1, 2 * gap);
    run := Extend(gap, run, Initiate("mio", true, 3 * gap), 2, 3 * gap);
  }

  lemma ApprovedInSteps(gap: nat) returns (run: seq<World>)
    ensures TimedRun(gap, run)
    ensures var w := run[|run| - 1];
            && |w.versions| == 5 && w.row == Some(w.versions[4]) && May(w.row, "mio", TAKEOVER)
            && w.versions[3] == w.row.value.(status := ASKED, revision := 3 * gap)
            && w.row.value.grantor == "nyu" && w.row.value.email == "mio@example.com"
            && w.log == [DidAccept("mio", "mio@example.com"), DidConfirm("nyu"), DidAsk("mio", 3 * gap), DidApprove("nyu")]
            && w.acts == [Allowed] && w.checks == [] && w.uses == [] && w.row.value.revision == w.clock == 4 * gap
  {
    run := AskedInSteps(gap);
    run := Extend(gap, run, Approve("nyu"), 3, 4 * gap);
  }

  /** With all writes in one microsecond, an approval undoes the refusal that it never saw. */
  lemma ApprovedAfterRefusal() returns (run: seq<World>)
    ensures TimedRun(0, run) && May(run[|run| - 1].row, "mio", TAKEOVER)
    ensures var w := run[|run| - 1]; !Granted(w.log, w.row.value.grantor, w.row.value.email, "mio")
    ensures run[|run| - 1].checks == [] && run[|run| - 1].uses == []
  {
    run := ApprovedInSteps(0);
    var log := run[|run| - 1].log;
    run := Extend(0, run, Reject("nyu"), 4, 0);
    run := Extend(0, run, Approve("nyu"), 3, 0);
    assert run[|run| - 1].log == log + [DidReject("nyu")] + [DidApprove("nyu")];
    assert May(run[|run| - 1].row, "mio", TAKEOVER);
  }

  /** And a second invitation mail undoes the acceptance. */
  lemma ContactLost() returns (run: seq<World>)
    ensures TimedRun(0, run) && |run| > 1 && !SameContact(run[1], run[|run| - 1])
  {
    run := InvitedAtZero(0);
    run := Extend(0, run, ACCEPTING, 0, 0);
    var accepted := run;
    run := Extend(0, run, Reinvite("nyu", "token"), 0, 0);
    assert run[1] == run[..|accepted|][1] == accepted[1];
  }

  /** Access is only ever what was granted, exactly if no two writes fall into one microsecond. */
  lemma AccessIsGrantedIfWritesAreApart(gap: nat)
    ensures AccessIsGranted(gap) <==> gap >= 1
  {
    if gap >= 1 {
      forall run: seq<World> | TimedRun(gap, run)
        ensures OnlyGranted(run[|run| - 1])
      {
        TimedIsRun(gap, run);
        ApartMeansDistinct(gap, run, |run| - 1);
        RunKeeps(run, |run| - 1);
      }
    } else {
      var run := ApprovedAfterRefusal();
      assert TimedRun(gap, run) && !OnlyGranted(run[|run| - 1]);
    }
  }

  lemma ContactStaysIfWritesAreApart(gap: nat)
    ensures ContactStays(gap) <==> gap >= 1
  {
    if gap >= 1 {
      forall run: seq<World>, i: nat | TimedRun(gap, run) && i < |run|
        ensures SameContact(run[i], run[|run| - 1])
      {
        TimedIsRun(gap, run);
        ApartMeansDistinct(gap, run, |run| - 1);
        ContactStaysIn(run, i);
      }
    } else {
      var run := ContactLost();
      assert TimedRun(gap, run) && !SameContact(run[1], run[|run| - 1]);
    }
  }

  /** What was granted may be used, as long as the grant is there: nothing else is asked. */
  lemma GrantedMay(run: seq<World>, user: string)
    requires Run(run) && Distinct(run[|run| - 1]) && run[|run| - 1].row.Some?
    ensures var g := run[|run| - 1].row.value;
            Granted(run[|run| - 1].log, g.grantor, g.email, user) <==> May(run[|run| - 1].row, user, g.kind)
  {
    RunKeeps(run, |run| - 1);
  }

  // ----- Accesses that were let through and are taken later -----

  /** The last word on the access is a refusal. */
  ghost predicate RefusedLast(acts: seq<Act>) {
    if acts == [] then false
    else
      var last := acts[|acts| - 1];
      last.Refused? || (!last.Allowed? && RefusedLast(acts[..|acts| - 1]))
  }

  /** The last change of the terms made the access one of another kind. */
  ghost predicate KindLost(acts: seq<Act>, kind: int) {
    if acts == [] then false
    else
      var last := acts[|acts| - 1];
      if last.KindSet? then last.kind != kind else KindLost(acts[..|acts| - 1], kind)
  }

  /** The grant was not ended, not refused without being allowed anew, and not made one of another kind. */
  ghost predicate StillStands(acts: seq<Act>, kind: int) {
    Removed !in acts && !RefusedLast(acts) && !KindLost(acts, kind)
  }

  /** `row` is what `acts` make of the grant of a check. */
  ghost predicate Tracks(row: Option<Grant>, user: string, kind: int, acts: seq<Act>) {
    && (row.Some? <==> Removed !in acts)
    && (row.Some? ==>
          && row.value.grantee == Some(user)
          && (row.value.status == APPROVED <==> !RefusedLast(acts))
          && (row.value.kind == kind <==> !KindLost(acts, kind)))
  }

  ghost predicate CheckRight(w: World, c: Check) {
    && May(Some(c.row), c.user, c.kind) && Granted(c.log, c.row.grantor, c.row.email, c.user)
    && c.acts <= |w.acts| && Tracks(w.row, c.user, c.kind, w.acts[c.acts..])
  }

  ghost predicate UseRight(w: World, u: Use) {
    && u.check < |w.checks|
    && var c := w.checks[u.check];
    && c.acts <= u.acts <= |w.acts| && Tracks(u.row, c.user, c.kind, w.acts[c.acts..u.acts])
    && (May(u.row, c.user, c.kind) ==> Granted(u.log, u.row.value.grantor, u.row.value.email, c.user))
  }

  ghost predicate AccessesRight(w: World) {
    && (forall k | 0 <= k < |w.checks| :: CheckRight(w, w.checks[k]))
    && (forall k | 0 <= k < |w.uses| :: UseRight(w, w.uses[k]))
  }

  lemma OneMoreAct(acts: seq<Act>, act: Act, kind: int)
    ensures RefusedLast(acts + [act]) <==> act.Refused? || (!act.Allowed? && RefusedLast(acts))
    ensures KindLost(acts + [act], kind) <==> if act.KindSet? then act.kind != kind else KindLost(acts, kind)
    ensures Removed in acts + [act] <==> Removed in acts || act.Removed?
  {
    assert (acts + [act])[..|acts|] == acts;
  }

  lemma ChangeTracks(op: Op, loaded: Grant, g: Grant, user: string, kind: int, acts: seq<Act>, now: Instant)
    requires RowRight(g) && loaded.(notified := None) == g.(notified := None) && Change(op, loaded).Some?
    requires Tracks(Some(g), user, kind, acts)
    ensures Tracks(Some(Change(op, loaded).value.(revision := now)), user, kind, acts + Bearing(op))
  {
    assert loaded.status == g.status && loaded.kind == g.kind && loaded.grantee == g.grantee;
    if Bearing(op) == [] {
      assert acts + [] == acts;
    } else {
      OneMoreAct(acts, Bearing(op)[0], kind);
    }
  }

  /** A step that adds `more` to the acts and leaves the accesses as they are. */
  lemma ActsGoOn(w: World, w': World, more: seq<Act>)
    requires AccessesRight(w) && w'.acts == w.acts + more && w'.checks == w.checks && w'.uses == w.uses
    requires forall c | c in w.checks && CheckRight(w, c) :: Tracks(w'.row, c.user, c.kind, w.acts[c.acts..] + more)
    ensures AccessesRight(w')
  {
    forall k | 0 <= k < |w.checks|
      ensures CheckRight(w', w.checks[k])
    {
      var c := w.checks[k];
      assert c in w.checks && CheckRight(w, c);
      assert w'.acts[c.acts..] == w.acts[c.acts..] + more;
    }
    forall k | 0 <= k < |w.uses|
      ensures UseRight(w', w.uses[k])
    {
      var u := w.uses[k];
      assert UseRight(w, u);
      assert w'.acts[w.checks[u.check].acts..u.acts] == w.acts[w.checks[u.check].acts..u.acts];
    }
  }

  lemma SaveTracks(w: World, op: Op, copy: nat, now: Instant)
    requires Distinct(w) && Inv(w) && AccessesRight(w) && copy < |w.versions| && Change(op, w.versions[copy]).Some?
    requires w.row.Some? && w.row.value.revision == w.versions[copy].revision
    ensures AccessesRight(Saved(w, op, copy, now))
  {
    CopyIsRow(w, copy);
    forall c | c in w.checks && CheckRight(w, c)
      ensures Tracks(Saved(w, op, copy, now).row, c.user, c.kind, w.acts[c.acts..] + Bearing(op))
    {
      ChangeTracks(op, w.versions[copy], w.row.value, c.user, c.kind, w.acts[c.acts..], now);
    }
    ActsGoOn(w, Saved(w, op, copy, now), Bearing(op));
  }

  lemma WaitTracks(w: World, now: Instant)
    requires AccessesRight(w) && w.row.Some?
    ensures AccessesRight(Waited(w, now))
  {
    forall c | c in w.checks && CheckRight(w, c)
      ensures Tracks(Waited(w, now).row, c.user, c.kind, w.acts[c.acts..] + [Allowed])
    {
      OneMoreAct(w.acts[c.acts..], Allowed, c.kind);
    }
    ActsGoOn(w, Waited(w, now), [Allowed]);
  }

  lemma QuietTracks(w: World, w': World)
    requires AccessesRight(w) && w'.acts == w.acts && w'.checks == w.checks && w'.uses == w.uses
    requires w'.row.Some? && w.row.Some? && w'.row.value.status == w.row.value.status
    requires w'.row.value.kind == w.row.value.kind && w'.row.value.grantee == w.row.value.grantee
    ensures AccessesRight(w')
  {
    forall c | c in w.checks && CheckRight(w, c)
      ensures Tracks(w'.row, c.user, c.kind, w.acts[c.acts..] + [])
    {
      assert w.acts[c.acts..] + [] == w.acts[c.acts..];
    }
    assert w.acts + [] == w.acts;
    ActsGoOn(w, w', []);
  }

  lemma RemoveTracks(w: World)
    requires AccessesRight(w)
    ensures AccessesRight(w.(row := None, acts := w.acts + [Removed]))
  {
    forall c | c in w.checks && CheckRight(w, c)
      ensures Tracks(None, c.user, c.kind, w.acts[c.acts..] + [Removed])
    {
      OneMoreAct(w.acts[c.acts..], Removed, c.kind);
    }
    ActsGoOn(w, w.(row := None, acts := w.acts + [Removed]), [Removed]);
  }

  lemma PassTracks(w: World, user: string, kind: int)
    requires Inv(w) && AccessesRight(w) && May(w.row, user, kind)
    ensures AccessesRight(Passed(w, user, kind))
  {
    var w' := Passed(w, user, kind);
    assert w.acts[|w.acts|..] == [];
    forall k | 0 <= k < |w'.checks|
      ensures CheckRight(w', w'.checks[k])
    {
      assert k < |w.checks| ==> CheckRight(w, w.checks[k]);
    }
    forall k | 0 <= k < |w'.uses|
      ensures UseRight(w', w'.uses[k])
    {
      assert UseRight(w, w.uses[k]);
    }
  }

  lemma TakeTracks(w: World, check: nat)
    requires Inv(w) && AccessesRight(w) && check < |w.checks|
    ensures AccessesRight(Taken(w, check))
  {
    var w' := Taken(w, check);
    assert CheckRight(w, w.checks[check]);
    assert w.acts[w.checks[check].acts..|w.acts|] == w.acts[w.checks[check].acts..];
    forall k | 0 <= k < |w'.checks|
      ensures CheckRight(w', w'.checks[k])
    {
      assert CheckRight(w, w.checks[k]);
    }
    forall k | 0 <= k < |w'.uses|
      ensures UseRight(w', w'.uses[k])
    {
      assert k < |w.uses| ==> UseRight(w, w.uses[k]);
    }
  }

  lemma SaveStepTracks(w: World, op: Op, copy: nat, now: Instant, w': World)
    requires Distinct(w) && Inv(w) && AccessesRight(w) && Next(w, Save(op, copy, now), w')
    ensures AccessesRight(w')
  {
    if w.row.Some? && w.row.value.revision == w.versions[copy].revision {
      SaveTracks(w, op, copy, now);
    } else {
      LaterTracks(w, now);
    }
  }

  lemma LaterTracks(w: World, now: Instant)
    requires AccessesRight(w)
    ensures AccessesRight(w.(clock := now))
  {
    var w' := w.(clock := now);
    assert forall k | 0 <= k < |w.checks| :: CheckRight(w, w.checks[k]) ==> CheckRight(w', w.checks[k]);
    assert forall k | 0 <= k < |w.uses| :: UseRight(w, w.uses[k]) ==> UseRight(w', w.uses[k]);
  }

  lemma QuietStepTracks(w: World, g: Grant, now: Instant)
    requires AccessesRight(w) && w.row.Some?
    requires g.status == w.row.value.status && g.kind == w.row.value.kind && g.grantee == w.row.value.grantee
    ensures AccessesRight(Written(w, g, [], [], now))
  {
    assert w.acts + [] == w.acts;
    QuietTracks(w, Written(w, g, [], [], now));
  }

  lemma StepTracks(w: World, step: Step, w': World)
    requires Distinct(w) && Inv(w) && AccessesRight(w) && Next(w, step, w')
    ensures AccessesRight(w')
  {
    if step.Save? {
      SaveStepTracks(w, step.op, step.copy, step.now, w');
    } else if step.Pass? {
      PassTracks(w, step.user, step.kind);
    } else if step.Take? {
      TakeTracks(w, step.check);
    } else {
      OtherStepTracks(w, step, w');
    }
  }

  lemma OtherStepTracks(w: World, step: Step, w': World)
    requires AccessesRight(w) && Next(w, step, w') && (step.Wait? || step.Remind? || step.Rotate? || step.Remove?)
    ensures AccessesRight(w')
  {
    if step.Wait? {
      WaitTracks(w, step.now);
    } else if step.Remind? {
      QuietStepTracks(w, w.row.value.(notified := Some(step.now)), step.now);
    } else if step.Rotate? {
      QuietStepTracks(w, w.row.value.(key := Some(step.key), revision := step.now), step.now);
    } else {
      RemoveTracks(w);
    }
  }

  lemma {:induction false} RunTracks(run: seq<World>, i: nat)
    requires Run(run) && i < |run| && Distinct(run[|run| - 1])
    ensures AccessesRight(run[i])
  {
    if i > 0 {
      RunKeeps(run, i - 1);
      RunTracks(run, i - 1);
      DistinctBefore(run, i - 1);
      assert Follows(run[i - 1], run[i]);
      var step :| Next(run[i - 1], step, run[i]);
      StepTracks(run[i - 1], step, run[i]);
    }
  }

  /** Every access that was taken was let through when it was granted. */
  ghost predicate CheckedAsGranted(w: World) {
    forall k | 0 <= k < |w.uses| ::
      && w.uses[k].check < |w.checks|
      && var c := w.checks[w.uses[k].check];
      Granted(c.log, c.row.grantor, c.row.email, c.user)
  }

  /** Every access that was taken was granted still when it was. */
  ghost predicate TakenAsGranted(w: World) {
    forall k | 0 <= k < |w.uses| ::
      w.uses[k].check < |w.checks| && May(w.uses[k].row, w.checks[w.uses[k].check].user, w.checks[w.uses[k].check].kind)
  }

  ghost predicate TakeoversWereGranted(gap: nat) {
    forall run: seq<World> | TimedRun(gap, run) :: CheckedAsGranted(run[|run| - 1])
  }

  lemma CheckedIn(run: seq<World>)
    requires Run(run) && Distinct(run[|run| - 1])
    ensures CheckedAsGranted(run[|run| - 1])
  {
    var w := run[|run| - 1];
    RunTracks(run, |run| - 1);
    forall k | 0 <= k < |w.uses|
      ensures w.uses[k].check < |w.checks|
      ensures var c := w.checks[w.uses[k].check]; Granted(c.log, c.row.grantor, c.row.email, c.user)
    {
      assert UseRight(w, w.uses[k]);
      assert CheckRight(w, w.checks[w.uses[k].check]);
    }
  }

  lemma TakenUngranted() returns (run: seq<World>)
    ensures TimedRun(0, run) && !CheckedAsGranted(run[|run| - 1])
  {
    run := ApprovedAfterRefusal();
    var w := run[|run| - 1];
    run := PassAndTake(0, run, "mio", TAKEOVER);
    var taken := run[|run| - 1];
    assert taken.checks == [Check("mio", TAKEOVER, w.row.value, w.log, |w.acts|)] && taken.uses[0].check == 0;
  }

  lemma TakeoversWereGrantedIfWritesAreApart(gap: nat)
    ensures TakeoversWereGranted(gap) <==> gap >= 1
  {
    if gap >= 1 {
      forall run: seq<World> | TimedRun(gap, run)
        ensures CheckedAsGranted(run[|run| - 1])
      {
        TimedIsRun(gap, run);
        ApartMeansDistinct(gap, run, |run| - 1);
        CheckedIn(run);
      }
    } else {
      var run := TakenUngranted();
      assert TimedRun(gap, run);
    }
  }

  /**
   Whatever the clock does: in a run in which no two writes were given the same time, access is only
   ever what was granted, also when it is taken later, and the contact stays.
   */
  lemma GrantedIfRevisionsDiffer(run: seq<World>, i: nat)
    requires Run(run) && Distinct(run[|run| - 1]) && i < |run|
    ensures OnlyGranted(run[|run| - 1]) && CheckedAsGranted(run[|run| - 1]) && SameContact(run[i], run[|run| - 1])
  {
    RunKeeps(run, |run| - 1);
    CheckedIn(run);
    ContactStaysIn(run, i);
  }

  lemma PassAndTake(gap: nat, run: seq<World>, user: string, kind: int) returns (run': seq<World>)
    requires TimedRun(gap, run) && May(run[|run| - 1].row, user, kind) && run[|run| - 1].checks == []
    ensures TimedRun(gap, run') && run'[|run'| - 1] == Taken(Passed(run[|run| - 1], user, kind), 0)
  {
    var w := run[|run| - 1];
    RunGoesOn(gap, run, Pass(user, kind), Passed(w, user, kind));
    run' := run + [Passed(w, user, kind)];
    RunGoesOn(gap, run', Take(0), Taken(Passed(w, user, kind), 0));
    run' := run' + [Taken(Passed(w, user, kind), 0)];
  }

  /**
   An access that was let through is granted still when it is taken, and then for the same contact,
   exactly when in between the grant was not ended, not refused without being allowed anew, and not
   made one of another kind.
   */
  lemma TakenIfItStillStands(run: seq<World>, k: nat)
    requires Run(run) && Distinct(run[|run| - 1]) && k < |run[|run| - 1].uses|
    ensures var w := run[|run| - 1];
            var u := w.uses[k];
            && u.check < |w.checks| && w.checks[u.check].acts <= u.acts <= |w.acts|
            && var c := w.checks[u.check];
            && (May(u.row, c.user, c.kind) <==> StillStands(w.acts[c.acts..u.acts], c.kind))
            && (May(u.row, c.user, c.kind) ==> Granted(u.log, u.row.value.grantor, u.row.value.email, c.user))
  {
    RunTracks(run, |run| - 1);
    assert UseRight(run[|run| - 1], run[|run| - 1].uses[k]);
  }

  /** However far apart the writes are: the grantor refuses while the new password is being hashed. */
  lemma TakenAfterRefusal(gap: nat) returns (run: seq<World>)
    ensures TimedRun(gap, run) && !TakenAsGranted(run[|run| - 1])
    ensures var w := run[|run| - 1]; |w.uses| == |w.checks| == 1 && w.acts == [Allowed, Refused] && w.checks[0].acts == 1
  {
    run := ApprovedInSteps(gap);
    var w := run[|run| - 1];
    assert w.acts == [Allowed];
    RunGoesOn(gap, run, Pass("mio", TAKEOVER), Passed(w, "mio", TAKEOVER));
    run := run + [Passed(w, "mio", TAKEOVER)];
    run := Extend(gap, run, Reject("nyu"), 4, 5 * gap);
    var refused := run[|run| - 1];
    RunGoesOn(gap, run, Take(0), Taken(refused, 0));
    run := run + [Taken(refused, 0)];
    assert run[|run| - 1].checks == [Check("mio", TAKEOVER, w.row.value, w.log, 1)];
    assert run[|run| - 1].uses == [Use(0, refused.row, refused.log, 2)];
    var u := run[|run| - 1].uses[0];
    assert u.check == 0 && !May(u.row, "mio", TAKEOVER);
  }

  // ----- The store, and the requests as they run -----

  type Rows = map<string, Grant>

  /** `save_emergency_access`: written if the row is there and has the copy's revision. */
  function AfterSave(rows: Rows, id: string, copy: Grant, now: Instant): Rows {
    if id in rows && rows[id].revision == copy.revision then rows[id := copy.(revision := now)] else rows
  }

  /** A request with the copy it loaded: whether it was done, and the rows afterwards. */
  function AfterRequest(rows: Rows, id: string, loaded: Option<Grant>, op: Op, now: Instant): (Rows, bool) {
    if loaded.None? || Change(op, loaded.value).None? then (rows, false)
    else
      var copy := Change(op, loaded.value).value;
      (AfterSave(rows, id, copy, now), id in rows && rows[id].revision == copy.revision)
  }

  function AfterWaits(rows: Rows, now: Instant): Rows {
    map id | id in rows :: if WaitOver(rows[id], now) then rows[id].(status := APPROVED, revision := now) else rows[id]
  }

  predicate RemindDue(g: Grant, now: Instant) {
    g.status == ASKED && (g.notified.Some? ==> g.notified.value < now - DAY)
  }

  function AfterReminders(rows: Rows, now: Instant): Rows {
    map id | id in rows :: if RemindDue(rows[id], now) then rows[id].(notified := Some(now)) else rows[id]
  }

  predicate HoldsKey(g: Grant, grantor: string) {
    g.grantor == grantor && g.key.Some?
  }

  /** New keys, just if every contact that holds one gets one. */
  function AfterRotation(rows: Rows, grantor: string, keys: map<string, string>, now: Instant): Rows {
    if (set id | id in rows && HoldsKey(rows[id], grantor)) != keys.Keys then rows
    else map id | id in rows :: if id in keys then rows[id].(key := Some(keys[id]), revision := now) else rows[id]
  }

  class Store {
    var rows: Rows

    constructor ()
      ensures rows == map[]
    {
      rows := map[];
    }

    method Save(id: string, copy: Grant, now: Instant) returns (saved: bool)
      modifies this
      ensures rows == AfterSave(old(rows), id, copy, now)
      ensures saved <==> id in old(rows) && old(rows)[id].revision == copy.revision
    {
      saved := id in rows && rows[id].revision == copy.revision;
      if saved {
        rows := rows[id := copy.(revision := now)];
      }
    }

    /** A new token for the invitation's mail. */
    method Reinvites(id: string, loaded: Option<Grant>, user: string, token: string, now: Instant) returns (done: bool)
      modifies this
      ensures (rows, done) == AfterRequest(old(rows), id, loaded, Reinvite(user, token), now)
    {
      if loaded.None? || loaded.value.grantor != user || loaded.value.status != INVITED {
        return false;
      }
      done := Save(id, loaded.value.(token := Some(token)), now);
    }

    method Accepts(id: string, loaded: Option<Grant>, user: string, email: string, given: Option<string>, checked: Instant,
                   invitationDays: nat, now: Instant) returns (done: bool)
      modifies this
      ensures (rows, done) == AfterRequest(old(rows), id, loaded, Accept(user, email, given, checked, invitationDays), now)
    {
      if loaded.None? {
        return false;
      }
      var access := loaded.value;
      var tokenOk := given.None? || access.token == given;
      var current := access.revision > checked - invitationDays * DAY;
      if access.status != INVITED || !tokenOk || !current || access.email != email {
        return false;
      }
      access := access.(grantee := Some(user));
      access := access.(status := ACCEPTED);
      access := access.(token := None);
      done := Save(id, access, now);
    }

    method Confirms(id: string, loaded: Option<Grant>, user: string, key: string, found: bool, now: Instant)
        returns (done: bool)
      modifies this
      ensures (rows, done) == AfterRequest(old(rows), id, loaded, Confirm(user, key, found), now)
    {
      if loaded.None? || loaded.value.grantor != user {
        return false;
      }
      var access := loaded.value;
      if access.status != ACCEPTED || key == "" || |key| > MAX_NOTE || !found {
        return false;
      }
      access := access.(status := CONFIRMED);
      access := access.(key := Some(key));
      done := Save(id, access, now);
    }

    method Initiates(id: string, loaded: Option<Grant>, user: string, found: bool, at: Instant, now: Instant)
        returns (done: bool)
      modifies this
      ensures (rows, done) == AfterRequest(old(rows), id, loaded, Initiate(user, found, at), now)
    {
      if loaded.None? || loaded.value.grantee != Some(user) || loaded.value.status != CONFIRMED || !found {
        return false;
      }
      var access := loaded.value;
      access := access.(status := ASKED);
      access := access.(asked := Some(at));
      access := access.(notified := Some(at));
      done := Save(id, access, now);
    }

    method Approves(id: string, loaded: Option<Grant>, user: string, now: Instant) returns (done: bool)
      modifies this
      ensures (rows, done) == AfterRequest(old(rows), id, loaded, Approve(user), now)
    {
      if loaded.None? || loaded.value.grantor != user || loaded.value.status != ASKED {
        return false;
      }
      done := Save(id, loaded.value.(status := APPROVED), now);
    }

    method Rejects(id: string, loaded: Option<Grant>, user: string, now: Instant) returns (done: bool)
      modifies this
      ensures (rows, done) == AfterRequest(old(rows), id, loaded, Reject(user), now)
    {
      if loaded.None? || loaded.value.grantor != user {
        return false;
      }
      var access := loaded.value;
      if access.status != ASKED && access.status != APPROVED {
        return false;
      }
      access := access.(status := CONFIRMED);
      access := access.(asked := None);
      done := Save(id, access, now);
    }

    method Updates(id: string, loaded: Option<Grant>, user: string, kind: int, waitDays: int, newKey: Option<string>,
                   now: Instant) returns (done: bool)
      modifies this
      ensures (rows, done) == AfterRequest(old(rows), id, loaded, Update(user, kind, waitDays, newKey), now)
    {
      if !TermsOk(kind, waitDays) || loaded.None? || loaded.value.grantor != user {
        return false;
      }
      var access := loaded.value;
      access := access.(kind := kind);
      access := access.(waitDays := waitDays);
      if newKey.Some? && newKey.value != "" {
        access := access.(key := newKey);
      }
      done := Save(id, access, now);
    }

    /** Approves all whose wait is over. */
    method ApproveWaited(now: Instant) returns (approved: set<string>)
      modifies this
      ensures rows == AfterWaits(old(rows), now)
      ensures rows.Keys == old(rows).Keys
      ensures forall id :: id in approved <==>
                id in old(rows) && old(rows)[id].status == ASKED && old(rows)[id].asked.Some?
                && old(rows)[id].asked.value + old(rows)[id].waitDays * DAY <= now
      ensures forall id | id in rows ::
                rows[id] == if id in approved then old(rows)[id].(status := APPROVED, revision := now) else old(rows)[id]
    {
      approved := {};
      var left := rows.Keys;
      while left != {}
        invariant left <= old(rows).Keys && rows.Keys == old(rows).Keys
        invariant forall id | id in left :: rows[id] == old(rows)[id]
        invariant forall id | id in old(rows).Keys - left :: rows[id] == AfterWaits(old(rows), now)[id]
        invariant forall id :: id in approved <==> id in old(rows).Keys - left && WaitOver(old(rows)[id], now)
        decreases left
      {
        var id :| id in left;
        left := left - {id};
        if WaitOver(rows[id], now) {
          rows := rows[id := rows[id].(status := APPROVED, revision := now)];
          approved := approved + {id};
        }
      }
    }

    /** Marks as reminded those that wait and were not reminded for a day. */
    method RemindWaiting(now: Instant) returns (due: set<string>)
      modifies this
      ensures rows == AfterReminders(old(rows), now)
      ensures rows.Keys == old(rows).Keys
      ensures forall id :: id in due <==>
                id in old(rows) && old(rows)[id].status == ASKED
                && (old(rows)[id].notified.Some? ==> old(rows)[id].notified.value + DAY < now)
      ensures forall id | id in rows ::
                rows[id] == if id in due then old(rows)[id].(notified := Some(now)) else old(rows)[id]
    {
      due := set id | id in rows && RemindDue(rows[id], now);
      var left := due;
      while left != {}
        invariant left <= due && rows.Keys == old(rows).Keys
        invariant forall id | id in old(rows) ::
          rows[id] == if id in due - left then old(rows)[id].(notified := Some(now)) else old(rows)[id]
        decreases left
      {
        var id :| id in left;
        left := left - {id};
        rows := rows[id := rows[id].(notified := Some(now))];
      }
    }

    method RotateKeys(grantor: string, keys: map<string, string>, now: Instant) returns (done: bool)
      modifies this
      ensures rows == AfterRotation(old(rows), grantor, keys, now)
      ensures done <==>
                forall id :: id in keys <==> id in old(rows) && old(rows)[id].grantor == grantor && old(rows)[id].key.Some?
      ensures rows.Keys == old(rows).Keys
      ensures forall id | id in rows ::
                rows[id] == if done && id in keys then old(rows)[id].(key := Some(keys[id]), revision := now) else old(rows)[id]
    {
      var holding := set id | id in rows && HoldsKey(rows[id], grantor);
      done := holding == keys.Keys;
      if !done {
        return;
      }
      var left := keys.Keys;
      while left != {}
        invariant left <= keys.Keys && rows.Keys == old(rows).Keys
        invariant forall id | id in old(rows) ::
          rows[id] == if id in keys.Keys - left then old(rows)[id].(key := Some(keys[id]), revision := now) else old(rows)[id]
        decreases left
      {
        var id :| id in left;
        left := left - {id};
        rows := rows[id := rows[id].(key := Some(keys[id]), revision := now)];
      }
    }
  }

  function RowOf(rows: Rows, id: string): Option<Grant> {
    if id in rows then Some(rows[id]) else None
  }

  /** A request on the store is a step of its grant's run, and leaves the other grants alone. */
  lemma RequestIsStep(rows: Rows, id: string, w: World, copy: nat, op: Op, now: Instant)
    requires w.row == RowOf(rows, id) && copy < |w.versions|
    requires Change(op, w.versions[copy]).Some?
    ensures var rows' := AfterRequest(rows, id, Some(w.versions[copy]), op, now).0;
            && (exists w' :: Next(w, Save(op, copy, now), w') && w'.row == RowOf(rows', id))
            && (forall other | other != id :: RowOf(rows', other) == RowOf(rows, other))
  {
    var loaded := w.versions[copy];
    var w' := if w.row.Some? && w.row.value.revision == loaded.revision then Saved(w, op, copy, now) else w.(clock := now);
    assert Next(w, Save(op, copy, now), w');
  }

  /**
   Where no two writes were given the same time, a request is written exactly when nothing was since
   its copy was loaded, reminders aside; else nothing changes.
   */
  lemma SavedIfNothingWasWritten(run: seq<World>, rows: Rows, id: string, copy: nat, op: Op, now: Instant)
    requires Run(run) && Distinct(run[|run| - 1])
    requires copy < |run[|run| - 1].versions| && run[|run| - 1].row == RowOf(rows, id)
    requires Change(op, run[|run| - 1].versions[copy]).Some?
    ensures var loaded := run[|run| - 1].versions[copy];
            var (rows', done) := AfterRequest(rows, id, Some(loaded), op, now);
            && (done <==> id in rows && loaded.(notified := None) == rows[id].(notified := None))
            && (done ==> RowOf(rows', id) == Some(Change(op, loaded).value.(revision := now)))
            && (!done ==> rows' == rows)
  {
    RunKeeps(run, |run| - 1);
    if id in rows && run[|run| - 1].versions[copy].revision == rows[id].revision {
      CopyIsRow(run[|run| - 1], copy);
    }
  }

  /** So is what the server does by itself every hour, and a change of keys. */
  lemma WaitIsStep(rows: Rows, id: string, w: World, now: Instant)
    requires w.row == RowOf(rows, id)
    ensures var row := RowOf(AfterWaits(rows, now), id);
            row == w.row || exists w' :: Next(w, Wait(now), w') && w'.row == row
  {
    if w.row.Some? && WaitOver(w.row.value, now) {
      assert Next(w, Wait(now), Waited(w, now));
    }
  }

  lemma ReminderIsStep(rows: Rows, id: string, w: World, now: Instant)
    requires w.row == RowOf(rows, id)
    ensures var row := RowOf(AfterReminders(rows, now), id);
            row == w.row || exists w' :: Next(w, Remind(now), w') && w'.row == row
  {
    if w.row.Some? && RemindDue(w.row.value, now) {
      assert Next(w, Remind(now), Written(w, w.row.value.(notified := Some(now)), [], [], now));
    }
  }

  lemma RotationIsStep(rows: Rows, id: string, w: World, grantor: string, keys: map<string, string>, now: Instant)
    requires w.row == RowOf(rows, id)
    ensures var row := RowOf(AfterRotation(rows, grantor, keys, now), id);
            row == w.row || (id in keys && exists w' :: Next(w, Rotate(keys[id], now), w') && w'.row == row)
  {
    var holding := set other | other in rows && HoldsKey(rows[other], grantor);
    if holding == keys.Keys && id in keys {
      assert id in holding;
      var g := w.row.value;
      assert Next(w, Rotate(keys[id], now), Written(w, g.(key := Some(keys[id]), revision := now), [], [], now));
    }
  }

  // ----- What must not be refused -----

  /** After the hourly approval nobody waits whose wait is over, and nobody was let in before. */
  lemma NobodyWaitsTooLong(rows: Rows, now: Instant)
    ensures AfterWaits(rows, now).Keys == rows.Keys
    ensures forall id | id in rows ::
              var (g, g') := (rows[id], AfterWaits(rows, now)[id]);
              && (g'.status == ASKED && g'.asked.Some? ==> now < g'.asked.value + g'.waitDays * DAY)
              && (g'.status == APPROVED && g.status != APPROVED <==>
                    g.status == ASKED && g.asked.Some? && g.asked.value + g.waitDays * DAY <= now)
  {
  }

  /** Who asked last, and was not refused since, is let in by the next approval exactly from the end of the wait on. */
  lemma WaitLetsIn(run: seq<World>, rows: Rows, id: string, user: string, at: Instant, now: Instant)
    requires Run(run) && Distinct(run[|run| - 1])
    requires id in rows && run[|run| - 1].row == RowOf(rows, id)
    requires var log := run[|run| - 1].log; log != [] && log[|log| - 1] == DidAsk(user, at)
    ensures May(RowOf(AfterWaits(rows, now), id), user, rows[id].kind) <==> at + rows[id].waitDays * DAY <= now
  {
    RunKeeps(run, |run| - 1);
    assert rows[id].status == ASKED && rows[id].grantee == Some(user) && rows[id].asked == Some(at);
  }

  /** The grantor is reminded for the first time by the first reminders more than a day after the asking. */
  lemma FirstReminder(rows: Rows, id: string, before: Grant, user: string, at: Instant, now: Instant)
    requires id in rows && Change(Initiate(user, true, at), before) == Some(rows[id].(revision := before.revision))
    ensures AfterReminders(rows, now)[id].notified == Some(if at + DAY < now then now else at)
  {
  }

  function Then(row: Option<Grant>, op: Op, now: Instant): Option<Grant> {
    if row.Some? && Change(op, row.value).Some? then Some(Change(op, row.value).value.(revision := now)) else None
  }

  /**
   The way to an access is open exactly to those it is for: each step by the right account, within
   the days of the invitation, with its address and token, and with a key that is not too long.
   */
  lemma WayToAccess(invited: Grant, token: string, user: string, email: string, given: Option<string>, checked: Instant,
                    days: nat, confirmer: string, key: string, found: bool, asker: string, there: bool, at: Instant,
                    approver: string, times: seq<Instant>)
    requires invited.status == INVITED && |times| == 5
    ensures var sent := Then(Some(invited), Reinvite(invited.grantor, token), times[0]);
            var accepted := Then(sent, Accept(user, email, given, checked, days), times[1]);
            var confirmed := Then(accepted, Confirm(confirmer, key, found), times[2]);
            var asked := Then(confirmed, Initiate(asker, there, at), times[3]);
            var approved := Then(asked, Approve(approver), times[4]);
            && sent.Some?
            && (accepted.Some? <==>
                  email == invited.email && (given == None || given == Some(token)) && checked < times[0] + days * DAY)
            && (confirmed.Some? <==>
                  accepted.Some? && confirmer == invited.grantor && key != "" && |key| <= 10_000 && found)
            && (asked.Some? <==> confirmed.Some? && asker == user && there)
            && (approved.Some? <==> asked.Some? && approver == invited.grantor)
            && (approved.Some? ==>
                  && May(approved, user, invited.kind) && approved.value.key == Some(key)
                  && approved.value.asked == Some(at) && approved.value.waitDays == invited.waitDays)
  {
  }

  /** The grantor alone sets a new token, while the invitation waits; from then on no other token opens it. */
  lemma NewTokenCounts(g: Grant, inviter: string, token: string, now: Instant, user: string, email: string, given: string,
                       checked: Instant, days: nat, later: Instant)
    ensures var sent := Then(Some(g), Reinvite(inviter, token), now);
            && (sent.Some? <==> inviter == g.grantor && g.status == INVITED)
            && (sent.Some? ==>
                  (Then(sent, Accept(user, email, Some(given), checked, days), later).Some? <==>
                     given == token && email == g.email && checked < now + days * DAY))
  {
  }

  /** The grantor takes an access back at any time after it was asked for; then it can be asked for anew, from its start. */
  lemma RefusedStartsAnew(g: Grant, refuser: string, user: string, at: Instant, now: Instant, later: Instant)
    requires g.status == ASKED || g.status == APPROVED
    ensures var refused := Then(Some(g), Reject(refuser), now);
            && (refused.Some? <==> refuser == g.grantor)
            && (refused.Some? ==>
                  && !May(refused, user, g.kind)
                  && var again := Then(refused, Initiate(user, true, at), later);
                  (again.Some? <==> g.grantee == Some(user)) && (again.Some? ==> again.value.asked == Some(at)))
  {
  }

  /** New terms count from then on, whatever was granted: the kind of access, the wait, and a key that is given. */
  lemma NewTermsCount(g: Grant, user: string, kind: int, waitDays: int, newKey: Option<string>, contact: string,
                      now: Instant, asked: Instant, later: Instant)
    ensures var updated := Then(Some(g), Update(user, kind, waitDays, newKey), now);
            && (updated.Some? <==> user == g.grantor && kind in {0, 1} && 1 <= waitDays <= 90)
            && (updated.Some? ==>
                  && (May(updated, contact, kind) <==> g.grantee == Some(contact) && g.status == APPROVED)
                  && (g.status == ASKED && g.asked == Some(asked) ==>
                        (AfterWaits(map["" := updated.value], later)[""].status == APPROVED <==> asked + waitDays * DAY <= later))
                  && updated.value.key == if newKey == None || newKey == Some("") then g.key else newKey)
  {
  }
}
