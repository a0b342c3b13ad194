/**
 Alerts to the admins. Once a minute the server looks at what is wrong; an event that starts is
 queued for the channels that want it, at most once an hour each, and once more when it is over.
 A channel that does not take a message is tried again later and later.
 */
module Alerts {
  import opened Clock
  import opened Prelude
  import opened Text

  const SPACING: nat := HOUR
  const GIVE_UP: nat := DAY

  datatype Finding = Finding(severity: string, detail: string)

  datatype Active = Active(since: Instant, severity: string, detail: string)

  datatype Channel = Channel(id: string, enabled: bool, mail: bool, wanted: set<string>)

  datatype Outgoing = Outgoing(event: string, resolved: bool, detail: string, made: Instant)

  /** What a channel's messages were: when each event was last sent, and whose end is still to be told. */
  datatype Told = Told(sent: map<string, Instant>, announced: set<string>)

  datatype ChannelState = ChannelState(told: Told, queue: seq<Outgoing>, attempts: nat, retryAt: Option<Instant>)

  const FRESH: ChannelState := ChannelState(Told(map[], {}), [], 0, None)

  /** An event with its text. */
  datatype Change = Change(event: string, detail: string)

  // ----- One tick for one channel -----

  /** What was told, and the messages that came of it. */
  datatype Draft = Draft(told: Told, messages: seq<Outgoing>)

  function StartOne(draft: Draft, wanted: set<string>, change: Change, now: Instant): Draft {
    var (event, told) := (change.event, draft.told);
    if event !in wanted then draft
    else if event in told.sent && Since(now, told.sent[event]) < SPACING then draft
    else Draft(Told(told.sent[event := now], told.announced + {event}),
               draft.messages + [Outgoing(event, false, change.detail, now)])
  }

  function EndOne(draft: Draft, change: Change, now: Instant): Draft {
    var (event, told) := (change.event, draft.told);
    if event !in told.announced then draft
    else Draft(Told(told.sent, told.announced - {event}), draft.messages + [Outgoing(event, true, change.detail, now)])
  }

  function StartAll(draft: Draft, wanted: set<string>, started: seq<Change>, now: Instant): Draft {
    if started == [] then draft
    else StartOne(StartAll(draft, wanted, started[..|started| - 1], now), wanted, started[|started| - 1], now)
  }

  function EndAll(draft: Draft, ended: seq<Change>, now: Instant): Draft {
    if ended == [] then draft else EndOne(EndAll(draft, ended[..|ended| - 1], now), ended[|ended| - 1], now)
  }

  function Drafted(told: Told, wanted: set<string>, started: seq<Change>, ended: seq<Change>, now: Instant): Draft {
    EndAll(StartAll(Draft(told, []), wanted, started, now), ended, now)
  }

  /** `retain`: those not yet a day old. */
  function Retain(queue: seq<Outgoing>, now: Instant): seq<Outgoing> {
    if queue == [] then []
    else
      var kept := if Since(now, queue[|queue| - 1].made) < GIVE_UP then [queue[|queue| - 1]] else [];
      Retain(queue[..|queue| - 1], now) + kept
  }

  function Ticked(cs: ChannelState, wanted: set<string>, started: seq<Change>, ended: seq<Change>, now: Instant): ChannelState {
    var draft := Drafted(cs.told, wanted, started, ended, now);
    cs.(told := draft.told, queue := Retain(cs.queue + draft.messages, now))
  }

  // ----- Sending -----

  /** The power saturates at 64 bits and the product wraps, as it does in a release build. */
  function Wrapped(power: nat): nat {
    Min((60 * Min(power, U64 - 1)) % U64, 3600)
  }

  /** Seconds after the `n`-th failure in a row. */
  function Pause(n: nat): nat
    requires n >= 1
  {
    Wrapped(Power2(n - 1))
  }

  function SentOk(cs: ChannelState): ChannelState
    requires cs.queue != []
  {
    ChannelState(cs.told, cs.queue[1..], 0, None)
  }

  function SentBadly(cs: ChannelState, end: Instant): ChannelState {
    ChannelState(cs.told, cs.queue, cs.attempts + 1, Some(end + Pause(cs.attempts + 1) * SECOND))
  }

  predicate Due(cs: ChannelState, now: Instant) {
    cs.queue != [] && (cs.retryAt.Some? ==> cs.retryAt.value <= now)
  }

  lemma {:induction false} Power2Grows(n: nat, m: nat)
    requires n <= m
    ensures Power2(n) <= Power2(m)
  {
    if n < m {
      Power2Grows(n, m - 1);
    }
  }

  lemma {:induction false} Power2Sum(n: nat, m: nat)
    ensures Power2(n + m) == Power2(n) * Power2(m)
  {
    if m > 0 {
      Power2Sum(n, m - 1);
    }
  }

  lemma PowersAtTheTop()
    ensures Power2(6) == 64 && Power2(58) == 0x400_0000_0000_0000 && Power2(64) == U64
  {
    assert Power2(6) == 64;
    Power2Sum(6, 6);
    assert Power2(12) == 4096;
    Power2Sum(12, 12);
    Power2Sum(24, 12);
    assert Power2(36) == 0x10_0000_0000;
    Power2Sum(36, 12);
    Power2Sum(48, 12);
    assert Power2(60) == 0x1000_0000_0000_0000;
    assert Power2(60) == 4 * Power2(58);
    assert Power2(64) == 16 * Power2(60);
  }

  lemma PowersPast58()
    ensures Power2(59) == 0x800_0000_0000_0000 && Power2(60) == 0x1000_0000_0000_0000 && Power2(61) == 0x2000_0000_0000_0000
    ensures Power2(62) == 0x4000_0000_0000_0000 && Power2(63) == 0x8000_0000_0000_0000
  {
    PowersAtTheTop();
    assert Power2(59) == 2 * Power2(58);
    assert Power2(60) == 2 * Power2(59);
    assert Power2(61) == 2 * Power2(60);
    assert Power2(62) == 2 * Power2(61);
    assert Power2(63) == 2 * Power2(62);
  }

  /** What the pause is meant to be. */
  function Backoff(n: nat): nat
    requires n >= 1
  {
    Min(60 * Power2(n - 1), 3600)
  }

  lemma WrappedFits(power: nat)
    requires power <= 0x400_0000_0000_0000
    ensures Wrapped(power) == Min(60 * power, 3600) && 60 * power < U64
  {
  }

  lemma WrappedPast(power: nat)
    ensures power in {0x800_0000_0000_0000, 0x1000_0000_0000_0000, 0x2000_0000_0000_0000} || power >= U64 ==> Wrapped(power) == 3600
    ensures power in {0x4000_0000_0000_0000, 0x8000_0000_0000_0000} ==> Wrapped(power) == 0
  {
  }

  /** The pause is twice as long each time up to an hour, but after 63 or 64 failures it is nothing. */
  lemma PauseIsBackoff(n: nat)
    requires n >= 1
    ensures Pause(n) == Backoff(n) <==> n != 63 && n != 64
    ensures n <= 59 ==> 60 * Power2(n - 1) < U64
  {
    var power := Power2(n - 1);
    assert Power2(6) == 64 && Power2(58) == 0x400_0000_0000_0000 && Power2(64) == U64 by {
      PowersAtTheTop();
    }
    if n <= 59 {
      Power2Grows(n - 1, 58);
      WrappedFits(power);
    } else {
      Power2Grows(6, n - 1);
      WrappedPast(power);
      if n >= 65 {
        Power2Grows(64, n - 1);
      } else {
        PowersPast58();
      }
    }
  }

  // ----- What one tick queues -----

  function Events(changes: seq<Change>): set<string> {
    set c | c in changes :: c.event
  }

  ghost predicate Distinct(changes: seq<Change>) {
    forall i, j | 0 <= i < j < |changes| :: changes[i].event != changes[j].event
  }

  /** The messages about `event`. */
  function Of(messages: seq<Outgoing>, event: string): seq<Outgoing> {
    if messages == [] then []
    else
      var last := messages[|messages| - 1];
      Of(messages[..|messages| - 1], event) + if last.event == event then [last] else []
  }

  lemma OfOneMore(messages: seq<Outgoing>, message: Outgoing, event: string)
    ensures Of(messages + [message], event) == Of(messages, event) + if message.event == event then [message] else []
  {
    assert (messages + [message])[..|messages|] == messages;
  }

  /** Wanted, and not sent within the hour. */
  predicate Announces(told: Told, wanted: set<string>, event: string, now: Instant) {
    event in wanted && (event in told.sent ==> Since(now, told.sent[event]) >= SPACING)
  }

  ghost predicate SameAbout(a: Told, b: Told, event: string) {
    && (event in a.sent <==> event in b.sent)
    && (event in a.sent ==> a.sent[event] == b.sent[event])
    && (event in a.announced <==> event in b.announced)
  }

  lemma {:induction false} StartAllElsewhere(draft: Draft, wanted: set<string>, started: seq<Change>, now: Instant, event: string)
    requires event !in Events(started)
    ensures var after := StartAll(draft, wanted, started, now);
            SameAbout(draft.told, after.told, event) && Of(after.messages, event) == Of(draft.messages, event)
  {
    if started != [] {
      var (front, last) := (started[..|started| - 1], started[|started| - 1]);
      assert last in started && Events(front) <= Events(started);
      StartAllElsewhere(draft, wanted, front, now, event);
      OfOneMore(StartAll(draft, wanted, front, now).messages, Outgoing(last.event, false, last.detail, now), event);
    }
  }

  lemma StartOneTells(draft: Draft, wanted: set<string>, change: Change, now: Instant, event: string)
    ensures var after := StartOne(draft, wanted, change, now);
            if change.event != event then Of(after.messages, event) == Of(draft.messages, event) && SameAbout(draft.told, after.told, event)
            else
              && Of(after.messages, event) == Of(draft.messages, event)
                 + (if Announces(draft.told, wanted, event, now) then [Outgoing(event, false, change.detail, now)] else [])
              && (event in after.told.announced <==> event in draft.told.announced || Announces(draft.told, wanted, event, now))
  {
    OfOneMore(draft.messages, Outgoing(change.event, false, change.detail, now), event);
  }

  lemma {:induction false} StartAllTells(draft: Draft, wanted: set<string>, started: seq<Change>, now: Instant, i: nat)
    requires i < |started| && Distinct(started)
    ensures var event := started[i].event;
            var after := StartAll(draft, wanted, started, now);
            && Of(after.messages, event) == Of(draft.messages, event)
                 + (if Announces(draft.told, wanted, event, now) then [Outgoing(event, false, started[i].detail, now)] else [])
            && (event in after.told.announced <==> event in draft.told.announced || Announces(draft.told, wanted, event, now))
  {
    var (front, last) := (started[..|started| - 1], started[|started| - 1]);
    StartOneTells(StartAll(draft, wanted, front, now), wanted, last, now, started[i].event);
    if i < |front| {
      StartAllTells(draft, wanted, front, now, i);
      assert front[i] == started[i] && started[i].event != last.event;
    } else {
      assert forall c | c in front :: c.event != last.event;
      StartAllElsewhere(draft, wanted, front, now, last.event);
    }
  }

  lemma {:induction false} EndAllElsewhere(draft: Draft, ended: seq<Change>, now: Instant, event: string)
    requires event !in Events(ended)
    ensures var after := EndAll(draft, ended, now);
            SameAbout(draft.told, after.told, event) && Of(after.messages, event) == Of(draft.messages, event)
  {
    if ended != [] {
      var (front, last) := (ended[..|ended| - 1], ended[|ended| - 1]);
      assert last in ended && Events(front) <= Events(ended);
      EndAllElsewhere(draft, front, now, event);
      OfOneMore(EndAll(draft, front, now).messages, Outgoing(last.event, true, last.detail, now), event);
    }
  }

  lemma {:induction false} EndAllTells(draft: Draft, ended: seq<Change>, now: Instant, i: nat)
    requires i < |ended| && Distinct(ended)
    ensures var event := ended[i].event;
            var after := EndAll(draft, ended, now);
            && Of(after.messages, event) == Of(draft.messages, event)
                 + (if event in draft.told.announced then [Outgoing(event, true, ended[i].detail, now)] else [])
            && event !in after.told.announced
  {
    var (front, last) := (ended[..|ended| - 1], ended[|ended| - 1]);
    OfOneMore(EndAll(draft, front, now).messages, Outgoing(last.event, true, last.detail, now), ended[i].event);
    if i < |front| {
      EndAllTells(draft, front, now, i);
      assert front[i] == ended[i] && ended[i].event != last.event;
    } else {
      assert forall c | c in front :: c.event != last.event;
      EndAllElsewhere(draft, front, now, last.event);
    }
  }

  /**
   An event that started is told, with its text, just when the channel wants it and heard of it no
   less than an hour ago; one that ended just when its start was told; nothing else is.
   */
  lemma TickTells(told: Told, wanted: set<string>, started: seq<Change>, ended: seq<Change>, now: Instant, event: string)
    requires Distinct(started) && Distinct(ended) && Events(started) !! Events(ended)
    ensures var draft := Drafted(told, wanted, started, ended, now);
            var mine := Of(draft.messages, event);
            && (forall c | c in started && c.event == event ::
                  && mine == (if Announces(told, wanted, event, now) then [Outgoing(event, false, c.detail, now)] else [])
                  && (event in draft.told.announced <==> event in told.announced || Announces(told, wanted, event, now)))
            && (forall c | c in ended && c.event == event ::
                  && mine == (if event in told.announced then [Outgoing(event, true, c.detail, now)] else [])
                  && event !in draft.told.announced)
            && (event !in Events(started) + Events(ended) ==> mine == [] && SameAbout(told, draft.told, event))
  {
    var nothing := Draft(told, []);
    var begun := StartAll(nothing, wanted, started, now);
    forall c | c in started && c.event == event
      ensures Of(begun.messages, event)
           == (if Announces(told, wanted, event, now) then [Outgoing(event, false, c.detail, now)] else [])
      ensures event in begun.told.announced <==> event in told.announced || Announces(told, wanted, event, now)
      ensures event !in Events(ended)
    {
      var i :| 0 <= i < |started| && started[i] == c;
      StartAllTells(nothing, wanted, started, now, i);
      assert event in Events(started);
    }
    if event !in Events(started) {
      StartAllElsewhere(nothing, wanted, started, now, event);
    }
    forall c | c in ended && c.event == event
      ensures Of(EndAll(begun, ended, now).messages, event)
           == Of(begun.messages, event) + (if event in begun.told.announced then [Outgoing(event, true, c.detail, now)] else [])
      ensures event !in EndAll(begun, ended, now).told.announced && event !in Events(started)
    {
      var i :| 0 <= i < |ended| && ended[i] == c;
      EndAllTells(begun, ended, now, i);
      assert event in Events(ended);
    }
    if event !in Events(ended) {
      EndAllElsewhere(begun, ended, now, event);
    }
  }

  // ----- The life of one channel's state -----

  /** How a message left the queue: taken, a day old, or mail without a mail server. */
  datatype Fate = Delivered(at: Instant) | Expired(at: Instant) | NoMailer(at: Instant)

  /** One try to send message number `message`. */
  datatype Attempt = Attempt(message: nat, begin: Instant, end: Instant, ok: bool)

  /**
   A channel's state, with every message that was ever queued in it, what became of those that left,
   every try to send one, and the events that are going on.
   */
  datatype Life = Life(active: set<string>, cs: ChannelState, log: seq<Outgoing>, fates: seq<Fate>,
                       attempts: seq<Attempt>, clock: Instant)

  ghost predicate Born(l: Life) {
    l.cs == FRESH && l.log == [] && l.fates == [] && l.attempts == []
  }

  datatype Step =
    | Tick(wanted: set<string>, found: set<string>, started: seq<Change>, ended: seq<Change>, now: Instant)
    | Try(begin: Instant, end: Instant, ok: bool)
    | Clear(now: Instant)

  ghost predicate Names(changes: seq<Change>, events: set<string>) {
    Events(changes) == events && Distinct(changes)
  }

  ghost function AfterTick(l: Life, wanted: set<string>, found: set<string>, started: seq<Change>, ended: seq<Change>,
                           now: Instant): Life {
    var messages := Drafted(l.cs.told, wanted, started, ended, now).messages;
    var cs := Ticked(l.cs, wanted, started, ended, now);
    var gone := Max(0, |l.cs.queue| + |messages| - |cs.queue|);
    Life(found, cs, l.log + messages, l.fates + seq(gone, _ => Expired(now)), l.attempts, now)
  }

  ghost function AfterTry(l: Life, begin: Instant, end: Instant, ok: bool): Life
    requires l.cs.queue != []
  {
    Life(l.active, if ok then SentOk(l.cs) else SentBadly(l.cs, end), l.log,
         l.fates + (if ok then [Delivered(end)] else []), l.attempts + [Attempt(|l.fates|, begin, end, ok)], end)
  }

  ghost function AfterClear(l: Life, now: Instant): Life {
    Life(l.active, l.cs.(queue := []), l.log, l.fates + seq(|l.cs.queue|, _ => NoMailer(now)), l.attempts, now)
  }

  ghost predicate Next(l: Life, step: Step, l': Life) {
    match step
    case Tick(wanted, found, started, ended, now) =>
      && l.clock <= now && Names(started, found - l.active) && Names(ended, l.active - found)
      && l' == AfterTick(l, wanted, found, started, ended, now)
    case Try(begin, end, ok) =>
      l.clock <= begin <= end && Due(l.cs, begin) && l' == AfterTry(l, begin, end, ok)
    case Clear(now) => l.clock <= now && l' == AfterClear(l, now)
  }

  ghost predicate Follows(l: Life, l': Life) {
    exists step :: Next(l, step, l')
  }

  ghost predicate Run(run: seq<Life>) {
    |run| > 0 && Born(run[0]) && forall i | 0 < i < |run| :: Follows(run[i - 1], run[i])
  }

  // ----- What the messages say -----

  /** The last message about `event` told its start. */
  ghost predicate Open(log: seq<Outgoing>, event: string) {
    if log == [] then false
    else if log[|log| - 1].event == event then !log[|log| - 1].resolved
    else Open(log[..|log| - 1], event)
  }

  /** The messages about `event` tell start, over, start, over. */
  ghost predicate Alternates(log: seq<Outgoing>, event: string) {
    if log == [] then true
    else
      var front := log[..|log| - 1];
      Alternates(front, event) && (log[|log| - 1].event == event ==> (log[|log| - 1].resolved <==> Open(front, event)))
  }

  lemma {:induction false} AlternatesMeans(log: seq<Outgoing>, event: string)
    requires Alternates(log, event)
    ensures forall i | 0 <= i < |Of(log, event)| :: Of(log, event)[i].resolved <==> i % 2 == 1
    ensures Open(log, event) <==> |Of(log, event)| % 2 == 1
  {
    if log != [] {
      AlternatesMeans(log[..|log| - 1], event);
    }
  }

  ghost predicate StartOf(message: Outgoing, event: string) {
    message.event == event && !message.resolved
  }

  /** Two starts of one event are an hour apart. */
  ghost predicate Spaced(log: seq<Outgoing>) {
    forall i, j | 0 <= i < j < |log| && !log[i].resolved && StartOf(log[j], log[i].event) :: log[j].made - log[i].made >= SPACING
  }

  ghost predicate SentLast(sent: map<string, Instant>, log: seq<Outgoing>) {
    forall i | 0 <= i < |log| && !log[i].resolved :: log[i].event in sent && log[i].made <= sent[log[i].event]
  }

  ghost predicate MadeInOrder(log: seq<Outgoing>, now: Instant) {
    && (forall i, j | 0 <= i < j < |log| :: log[i].made <= log[j].made)
    && (forall i | 0 <= i < |log| :: log[i].made <= now)
  }

  ghost predicate Alternating(announced: set<string>, log: seq<Outgoing>) {
    forall event :: Alternates(log, event) && (event in announced <==> Open(log, event))
  }

  /** What was told agrees with the messages there ever were. */
  ghost predicate Right(told: Told, log: seq<Outgoing>, now: Instant) {
    Alternating(told.announced, log) && Spaced(log) && SentLast(told.sent, log) && MadeInOrder(log, now)
  }

  lemma OneMoreMessage(log: seq<Outgoing>, message: Outgoing, event: string)
    ensures Open(log + [message], event) == if message.event == event then !message.resolved else Open(log, event)
    ensures Alternates(log + [message], event)
       <==> Alternates(log, event) && (message.event == event ==> (message.resolved <==> Open(log, event)))
  {
    assert (log + [message])[..|log|] == log;
  }

  lemma OneMoreAlternates(before: set<string>, log: seq<Outgoing>, message: Outgoing, announced: set<string>)
    requires Alternating(before, log) && (message.resolved <==> message.event in before)
    requires announced == if message.resolved then before - {message.event} else before + {message.event}
    ensures Alternating(announced, log + [message])
  {
    forall event
      ensures Alternates(log + [message], event) && (event in announced <==> Open(log + [message], event))
    {
      OneMoreMessage(log, message, event);
    }
  }

  lemma OneMoreSpaced(sent: map<string, Instant>, log: seq<Outgoing>, message: Outgoing)
    requires Spaced(log) && SentLast(sent, log) && !message.resolved
    requires message.event in sent ==> message.made - sent[message.event] >= SPACING
    ensures Spaced(log + [message]) && SentLast(sent[message.event := message.made], log + [message])
  {
  }

  lemma AddStart(told: Told, log: seq<Outgoing>, change: Change, now: Instant)
    requires Right(told, log, now) && change.event !in told.announced
    requires change.event in told.sent ==> Since(now, told.sent[change.event]) >= SPACING
    ensures Right(Told(told.sent[change.event := now], told.announced + {change.event}),
                  log + [Outgoing(change.event, false, change.detail, now)], now)
  {
    var message := Outgoing(change.event, false, change.detail, now);
    OneMoreAlternates(told.announced, log, message, told.announced + {change.event});
    OneMoreSpaced(told.sent, log, message);
  }

  lemma AddEnd(told: Told, log: seq<Outgoing>, change: Change, now: Instant)
    requires Right(told, log, now) && change.event in told.announced
    ensures Right(Told(told.sent, told.announced - {change.event}), log + [Outgoing(change.event, true, change.detail, now)], now)
  {
    var message := Outgoing(change.event, true, change.detail, now);
    OneMoreAlternates(told.announced, log, message, told.announced - {change.event});
  }

  lemma {:induction false} StartAllRight(told: Told, log: seq<Outgoing>, wanted: set<string>, started: seq<Change>, now: Instant)
    requires Right(told, log, now) && Distinct(started) && Events(started) !! told.announced
    ensures var draft := StartAll(Draft(told, []), wanted, started, now);
            Right(draft.told, log + draft.messages, now) && draft.told.announced <= told.announced + Events(started)
  {
    if started == [] {
      assert log + [] == log;
    } else {
      var (front, last) := (started[..|started| - 1], started[|started| - 1]);
      assert last in started && forall c | c in front :: c.event != last.event;
      assert Events(front) <= Events(started);
      StartAllRight(told, log, wanted, front, now);
      var draft := StartAll(Draft(told, []), wanted, front, now);
      if Announces(draft.told, wanted, last.event, now) {
        AddStart(draft.told, log + draft.messages, last, now);
        var message := Outgoing(last.event, false, last.detail, now);
        assert log + (draft.messages + [message]) == log + draft.messages + [message];
      }
    }
  }

  lemma {:induction false} EndAllRight(draft: Draft, log: seq<Outgoing>, ended: seq<Change>, now: Instant)
    requires Right(draft.told, log + draft.messages, now)
    ensures var after := EndAll(draft, ended, now);
            Right(after.told, log + after.messages, now) && after.told.announced == draft.told.announced - Events(ended)
  {
    if ended != [] {
      var (front, last) := (ended[..|ended| - 1], ended[|ended| - 1]);
      EndAllRight(draft, log, front, now);
      assert Events(ended) == Events(front) + {last.event} by {
        assert ended == front + [last];
      }
      var before := EndAll(draft, front, now);
      if last.event in before.told.announced {
        AddEnd(before.told, log + before.messages, last, now);
        var message := Outgoing(last.event, true, last.detail, now);
        assert log + (before.messages + [message]) == log + before.messages + [message];
      }
    }
  }

  lemma LaterRight(told: Told, log: seq<Outgoing>, clock: Instant, now: Instant)
    requires Right(told, log, clock) && clock <= now
    ensures Right(told, log, now)
  {
  }

  lemma DraftedRight(l: Life, wanted: set<string>, found: set<string>, started: seq<Change>, ended: seq<Change>, now: Instant)
    requires Right(l.cs.told, l.log, l.clock) && l.cs.told.announced <= l.active && l.clock <= now
    requires Names(started, found - l.active) && Names(ended, l.active - found)
    ensures var draft := Drafted(l.cs.told, wanted, started, ended, now);
            Right(draft.told, l.log + draft.messages, now) && draft.told.announced <= found
  {
    LaterRight(l.cs.told, l.log, l.clock, now);
    StartAllRight(l.cs.told, l.log, wanted, started, now);
    EndAllRight(StartAll(Draft(l.cs.told, []), wanted, started, now), l.log, ended, now);
  }

  // ----- What becomes of them -----

  /** `kept` is `queue` without its first `gone`, just those that are a day old. */
  ghost predicate OldestGone(queue: seq<Outgoing>, kept: seq<Outgoing>, gone: nat, now: Instant) {
    && gone <= |queue| && kept == queue[gone..]
    && (forall i | 0 <= i < gone :: now - queue[i].made >= GIVE_UP)
    && (forall i | gone <= i < |queue| :: now - queue[i].made < GIVE_UP)
  }

  lemma YoungLastStays(front: seq<Outgoing>, last: Outgoing, kept: seq<Outgoing>, gone: nat, now: Instant)
    requires OldestGone(front, kept, gone, now) && now - last.made < GIVE_UP
    ensures OldestGone(front + [last], kept + [last], gone, now)
  {
  }

  lemma {:induction false} AllOldGo(queue: seq<Outgoing>, now: Instant)
    requires forall i | 0 <= i < |queue| :: now - queue[i].made >= GIVE_UP
    ensures Retain(queue, now) == []
  {
    if queue != [] {
      AllOldGo(queue[..|queue| - 1], now);
    }
  }

  lemma RetainLast(front: seq<Outgoing>, last: Outgoing, now: Instant)
    requires now - last.made < GIVE_UP
    ensures Retain(front + [last], now) == Retain(front, now) + [last]
  {
    assert (front + [last])[..|front|] == front;
  }

  /** What `retain` takes out of a queue made in order are the first, just those that are a day old. */
  lemma {:induction false} RetainDropsOldest(queue: seq<Outgoing>, now: Instant)
    requires forall i, j | 0 <= i < j < |queue| :: queue[i].made <= queue[j].made
    ensures |Retain(queue, now)| <= |queue|
    ensures OldestGone(queue, Retain(queue, now), |queue| - |Retain(queue, now)|, now)
  {
    if queue == [] || now - queue[|queue| - 1].made >= GIVE_UP {
      AllOldGo(queue, now);
    } else {
      var (front, last) := (queue[..|queue| - 1], queue[|queue| - 1]);
      assert queue == front + [last];
      RetainDropsOldest(front, now);
      RetainLast(front, last, now);
      YoungLastStays(front, last, Retain(front, now), |front| - |Retain(front, now)|, now);
    }
  }

  /** The messages a send took, in that order. */
  ghost function Taken(attempts: seq<Attempt>): seq<nat> {
    if attempts == [] then []
    else Taken(attempts[..|attempts| - 1]) + if attempts[|attempts| - 1].ok then [attempts[|attempts| - 1].message] else []
  }

  /** The messages that left because they were taken, in queueing order. */
  ghost function LeftTaken(fates: seq<Fate>): seq<nat> {
    if fates == [] then []
    else LeftTaken(fates[..|fates| - 1]) + if fates[|fates| - 1].Delivered? then [|fates| - 1] else []
  }

  lemma {:induction false} LeftTakenMeans(fates: seq<Fate>, m: nat)
    ensures m in LeftTaken(fates) <==> m < |fates| && fates[m].Delivered?
  {
    if fates != [] {
      LeftTakenMeans(fates[..|fates| - 1], m);
    }
  }

  lemma {:induction false} LeftTakenIsInOrder(fates: seq<Fate>)
    ensures forall i, j | 0 <= i < j < |LeftTaken(fates)| :: LeftTaken(fates)[i] < LeftTaken(fates)[j]
  {
    if fates != [] {
      var front := LeftTaken(fates[..|fates| - 1]);
      LeftTakenIsInOrder(fates[..|fates| - 1]);
      forall i | 0 <= i < |front|
        ensures front[i] < |fates| - 1
      {
        LeftTakenMeans(fates[..|fates| - 1], front[i]);
        assert front[i] in front;
      }
    }
  }

  /** Failures since the last message that was taken. */
  ghost function Failing(attempts: seq<Attempt>): nat {
    if attempts == [] || attempts[|attempts| - 1].ok then 0 else 1 + Failing(attempts[..|attempts| - 1])
  }

  /** After the `n`-th failure in a row, the next try begins no earlier than the `n`-th pause allows. */
  ghost predicate Paced(attempts: seq<Attempt>) {
    if |attempts| < 2 then true
    else
      var front := attempts[..|attempts| - 1];
      && Paced(front)
      && (Failing(front) > 0 ==>
            front[|front| - 1].end + Pause(Failing(front)) * SECOND <= attempts[|attempts| - 1].begin)
  }

  ghost function RetryAt(attempts: seq<Attempt>): Option<Instant> {
    if Failing(attempts) == 0 then None else Some(attempts[|attempts| - 1].end + Pause(Failing(attempts)) * SECOND)
  }

  ghost predicate Sending(l: Life) {
    && Taken(l.attempts) == LeftTaken(l.fates)
    && Paced(l.attempts)
    && l.cs.attempts == Failing(l.attempts)
    && l.cs.retryAt == RetryAt(l.attempts)
  }

  /** What was given up was given up as too old. */
  ghost predicate GivenUp(log: seq<Outgoing>, fates: seq<Fate>) {
    |fates| <= |log| && forall m | 0 <= m < |fates| :: fates[m].Expired? ==> fates[m].at - log[m].made >= GIVE_UP
  }

  ghost predicate Queued(l: Life) {
    GivenUp(l.log, l.fates) && l.cs.queue == l.log[|l.fates|..]
  }

  ghost predicate Inv(l: Life) {
    && Right(l.cs.told, l.log, l.clock)
    && l.cs.told.announced <= l.active
    && Queued(l) && Sending(l)
  }

  lemma {:induction false} NotTaken(fates: seq<Fate>, more: seq<Fate>)
    requires forall fate | fate in more :: !fate.Delivered?
    ensures LeftTaken(fates + more) == LeftTaken(fates)
  {
    if more == [] {
      assert fates + more == fates;
    } else {
      var (front, last) := (more[..|more| - 1], more[|more| - 1]);
      assert last in more && forall fate | fate in front :: fate in more;
      NotTaken(fates, front);
      assert (fates + more)[..|fates + more| - 1] == fates + front;
    }
  }

  /** As many as `retain` takes out. */
  lemma DropFront(l: Life, messages: seq<Outgoing>, now: Instant) returns (gone: nat)
    requires Queued(l) && MadeInOrder(l.log + messages, now)
    ensures var (log, kept) := (l.log + messages, Retain(l.cs.queue + messages, now));
            && gone == |l.cs.queue| + |messages| - |kept| && |l.fates| + gone <= |log| && kept == log[|l.fates| + gone..]
            && (forall i | |l.fates| <= i < |l.fates| + gone :: now - log[i].made >= GIVE_UP)
            && (forall m | 0 <= m < |kept| :: now - kept[m].made < GIVE_UP)
  {
    var queue := l.cs.queue + messages;
    assert queue == (l.log + messages)[|l.fates|..];
    RetainDropsOldest(queue, now);
    gone := |queue| - |Retain(queue, now)|;
    forall i | |l.fates| <= i < |l.fates| + gone
      ensures now - (l.log + messages)[i].made >= GIVE_UP
    {
      assert queue[i - |l.fates|] == (l.log + messages)[i];
    }
  }

  lemma MoreGivenUp(log: seq<Outgoing>, messages: seq<Outgoing>, fates: seq<Fate>, gone: nat, now: Instant)
    requires GivenUp(log, fates) && |fates| + gone <= |log + messages|
    requires forall i | |fates| <= i < |fates| + gone :: now - (log + messages)[i].made >= GIVE_UP
    ensures GivenUp(log + messages, fates + seq(gone, _ => Expired(now)))
  {
    var more := fates + seq(gone, _ => Expired(now));
    forall m | 0 <= m < |more| && more[m].Expired?
      ensures more[m].at - (log + messages)[m].made >= GIVE_UP
    {
      assert m < |fates| ==> more[m] == fates[m] && (log + messages)[m] == log[m];
    }
  }

  lemma TickQueues(l: Life, wanted: set<string>, found: set<string>, started: seq<Change>, ended: seq<Change>, now: Instant)
    requires Queued(l) && MadeInOrder(l.log + Drafted(l.cs.told, wanted, started, ended, now).messages, now)
    ensures var after := AfterTick(l, wanted, found, started, ended, now);
            && Queued(after) && LeftTaken(after.fates) == LeftTaken(l.fates)
            && forall m | 0 <= m < |after.cs.queue| :: now - after.cs.queue[m].made < GIVE_UP
  {
    var messages := Drafted(l.cs.told, wanted, started, ended, now).messages;
    var gone := DropFront(l, messages, now);
    MoreGivenUp(l.log, messages, l.fates, gone, now);
    NotTaken(l.fates, seq(gone, _ => Expired(now)));
  }

  lemma TickKeeps(l: Life, wanted: set<string>, found: set<string>, started: seq<Change>, ended: seq<Change>, now: Instant)
    requires Inv(l) && l.clock <= now && Names(started, found - l.active) && Names(ended, l.active - found)
    ensures var after := AfterTick(l, wanted, found, started, ended, now);
            && Inv(after) && after.active == found
            && forall m | 0 <= m < |after.cs.queue| :: now - after.cs.queue[m].made < GIVE_UP
  {
    DraftedRight(l, wanted, found, started, ended, now);
    TickQueues(l, wanted, found, started, ended, now);
  }

  lemma TryKeeps(l: Life, begin: Instant, end: Instant, ok: bool)
    requires Inv(l) && l.clock <= begin <= end && Due(l.cs, begin)
    ensures Inv(AfterTry(l, begin, end, ok))
  {
    var after := AfterTry(l, begin, end, ok);
    LaterRight(l.cs.told, l.log, l.clock, end);
    assert after.attempts[..|l.attempts|] == l.attempts;
    if ok {
      assert after.fates[..|l.fates|] == l.fates;
    } else {
      assert after.fates == l.fates;
    }
  }

  lemma ClearKeeps(l: Life, now: Instant)
    requires Inv(l) && l.clock <= now
    ensures Inv(AfterClear(l, now))
  {
    LaterRight(l.cs.told, l.log, l.clock, now);
    NotTaken(l.fates, seq(|l.cs.queue|, _ => NoMailer(now)));
  }

  lemma StepKeeps(l: Life, l': Life)
    requires Inv(l) && Follows(l, l')
    ensures Inv(l')
  {
    var step :| Next(l, step, l');
    match step
    case Tick(wanted, found, started, ended, now) => TickKeeps(l, wanted, found, started, ended, now);
    case Try(begin, end, ok) => TryKeeps(l, begin, end, ok);
    case Clear(now) => ClearKeeps(l, now);
  }

  lemma BornKeeps(l: Life)
    requires Born(l)
    ensures Inv(l)
  {
  }

  /** In every run, of every channel. */
  lemma {:induction false} RunKeeps(run: seq<Life>, i: nat)
    requires Run(run) && i < |run|
    ensures Inv(run[i])
  {
    if i == 0 {
      BornKeeps(run[0]);
    } else {
      RunKeeps(run, i - 1);
      StepKeeps(run[i - 1], run[i]);
    }
  }

  /**
   What the channels may rely on: the messages about an event tell start, over, start, over; what is
   announced is going on; and no message is taken twice or before one queued earlier.
   */
  lemma RunTells(run: seq<Life>, i: nat, event: string)
    requires Run(run) && i < |run|
    ensures var mine := Of(run[i].log, event);
            && (forall k | 0 <= k < |mine| :: mine[k].resolved <==> k % 2 == 1)
            && (event in run[i].cs.told.announced <==> |mine| % 2 == 1)
    ensures run[i].cs.told.announced <= run[i].active
    ensures var taken := Taken(run[i].attempts);
            && (forall m: nat :: m in taken <==> m < |run[i].fates| && run[i].fates[m].Delivered?)
            && (forall j, k | 0 <= j < k < |taken| :: taken[j] < taken[k])
  {
    RunKeeps(run, i);
    AlternatesMeans(run[i].log, event);
    LeftTakenIsInOrder(run[i].fates);
    forall m: nat
      ensures m in Taken(run[i].attempts) <==> m < |run[i].fates| && run[i].fates[m].Delivered?
    {
      LeftTakenMeans(run[i].fates, m);
    }
  }

  // ----- Whether a channel's last word is right -----

  /** The instant kept for an event is that of a start that was told. */
  ghost predicate SentTold(sent: map<string, Instant>, log: seq<Outgoing>, event: string) {
    event in sent ==> exists k :: 0 <= k < |log| && StartOf(log[k], event) && log[k].made == sent[event]
  }

  lemma SentToldLonger(sent: map<string, Instant>, log: seq<Outgoing>, more: seq<Outgoing>, event: string)
    requires SentTold(sent, log, event)
    ensures SentTold(sent, log + more, event)
  {
    if event in sent {
      var k :| 0 <= k < |log| && StartOf(log[k], event) && log[k].made == sent[event];
      assert (log + more)[k] == log[k];
    }
  }

  lemma StartOneSent(draft: Draft, log: seq<Outgoing>, wanted: set<string>, change: Change, now: Instant, event: string)
    requires SentTold(draft.told.sent, log + draft.messages, event)
    ensures var after := StartOne(draft, wanted, change, now); SentTold(after.told.sent, log + after.messages, event)
  {
    if Announces(draft.told, wanted, change.event, now) {
      var message := Outgoing(change.event, false, change.detail, now);
      SentToldLonger(draft.told.sent, log + draft.messages, [message], event);
      var all := log + draft.messages + [message];
      assert log + (draft.messages + [message]) == all && all[|all| - 1] == message;
    }
  }

  lemma {:induction false} StartAllSent(told: Told, log: seq<Outgoing>, wanted: set<string>, started: seq<Change>,
                                        now: Instant, event: string)
    requires SentTold(told.sent, log, event)
    ensures var draft := StartAll(Draft(told, []), wanted, started, now);
            SentTold(draft.told.sent, log + draft.messages, event)
  {
    if started == [] {
      assert log + [] == log;
    } else {
      var front := started[..|started| - 1];
      StartAllSent(told, log, wanted, front, now, event);
      StartOneSent(StartAll(Draft(told, []), wanted, front, now), log, wanted, started[|started| - 1], now, event);
    }
  }

  lemma {:induction false} EndAllSent(draft: Draft, log: seq<Outgoing>, ended: seq<Change>, now: Instant, event: string)
    requires SentTold(draft.told.sent, log + draft.messages, event)
    ensures var after := EndAll(draft, ended, now); SentTold(after.told.sent, log + after.messages, event)
  {
    if ended != [] {
      var (front, last) := (ended[..|ended| - 1], ended[|ended| - 1]);
      EndAllSent(draft, log, front, now, event);
      var before := EndAll(draft, front, now);
      if last.event in before.told.announced {
        var message := Outgoing(last.event, true, last.detail, now);
        SentToldLonger(before.told.sent, log + before.messages, [message], event);
        assert log + (before.messages + [message]) == log + before.messages + [message];
      }
    }
  }

  lemma {:induction false} RunKeepsSent(run: seq<Life>, i: nat, event: string)
    requires Run(run) && i < |run|
    ensures SentTold(run[i].cs.told.sent, run[i].log, event)
  {
    if i > 0 {
      RunKeepsSent(run, i - 1, event);
      assert Follows(run[i - 1], run[i]);
      var step :| Next(run[i - 1], step, run[i]);
      if step.Tick? {
        var told := run[i - 1].cs.told;
        StartAllSent(told, run[i - 1].log, step.wanted, step.started, step.now, event);
        EndAllSent(StartAll(Draft(told, []), step.wanted, step.started, step.now), run[i - 1].log, step.ended, step.now, event);
      }
    }
  }

  /** No start of `event` was told less than an hour before `now`. */
  ghost predicate Quiet(log: seq<Outgoing>, event: string, now: Instant) {
    forall k | 0 <= k < |log| && StartOf(log[k], event) :: now - log[k].made >= SPACING
  }

  lemma QuietMeansAnnounced(told: Told, log: seq<Outgoing>, wanted: set<string>, event: string, clock: Instant, now: Instant)
    requires Right(told, log, clock) && SentTold(told.sent, log, event) && event in wanted
    ensures Announces(told, wanted, event, now) <==> Quiet(log, event, now)
  {
    if Quiet(log, event, now) {
      if event in told.sent {
        var k :| 0 <= k < |log| && StartOf(log[k], event) && log[k].made == told.sent[event];
      }
    } else {
      var k :| 0 <= k < |log| && StartOf(log[k], event) && now - log[k].made < SPACING;
      assert event in told.sent && log[k].made <= told.sent[event];
    }
  }

  ghost predicate FollowsWanting(l: Life, l': Life, event: string) {
    exists step :: Next(l, step, l') && (step.Tick? ==> event in step.wanted)
  }

  /** A run of a channel that wants `event` all the time, which was not going on at first. */
  ghost predicate Wanting(run: seq<Life>, event: string) {
    Run(run) && event !in run[0].active && forall i | 0 < i < |run| :: FollowsWanting(run[i - 1], run[i], event)
  }

  ghost predicate Starts(l: Life, l': Life, event: string) {
    event !in l.active && event in l'.active
  }

  /** What the last message says of `event` is so. */
  ghost predicate RightWord(l: Life, event: string) {
    Open(l.log, event) <==> event in l.active
  }

  lemma TickLeaves(l: Life, step: Step, l': Life, event: string)
    requires Next(l, step, l') && step.Tick? && event in step.wanted && l.cs.told.announced <= l.active
    ensures Starts(l, l', event) ==> (event in l'.cs.told.announced <==> Announces(l.cs.told, step.wanted, event, step.now))
    ensures !Starts(l, l', event) && event in l'.active ==>
              (event in l'.cs.told.announced <==> event in l.cs.told.announced)
  {
    TickTells(l.cs.told, step.wanted, step.started, step.ended, step.now, event);
    if Starts(l, l', event) {
      assert event in Events(step.started);
      var c :| c in step.started && c.event == event;
    } else if event in l'.active {
      assert event !in Events(step.started) + Events(step.ended);
    }
  }

  /** What was told, and whether `event` is announced, agree with the messages there ever were. */
  ghost predicate Agreed(l: Life, event: string) {
    && Right(l.cs.told, l.log, l.clock) && SentTold(l.cs.told.sent, l.log, event)
    && l.cs.told.announced <= l.active && (event in l.cs.told.announced <==> Open(l.log, event))
  }

  lemma RunTold(run: seq<Life>, i: nat, event: string)
    requires Run(run) && i < |run|
    ensures Agreed(run[i], event)
  {
    RunKeeps(run, i);
    RunKeepsSent(run, i, event);
  }

  lemma OtherWord(l: Life, step: Step, l': Life, event: string)
    requires Next(l, step, l') && !step.Tick?
    ensures !Starts(l, l', event) && (RightWord(l', event) <==> RightWord(l, event))
  {
  }

  lemma StartWord(l: Life, step: Step, l': Life, event: string)
    requires Next(l, step, l') && step.Tick? && event in step.wanted && Agreed(l, event) && Agreed(l', event)
    requires Starts(l, l', event)
    ensures RightWord(l', event) <==> Quiet(l.log, event, l'.clock)
  {
    TickLeaves(l, step, l', event);
    QuietMeansAnnounced(l.cs.told, l.log, step.wanted, event, l.clock, step.now);
  }

  lemma QuietWord(l: Life, step: Step, l': Life, event: string)
    requires Next(l, step, l') && step.Tick? && event in step.wanted && Agreed(l, event) && Agreed(l', event)
    requires !Starts(l, l', event) && RightWord(l, event)
    ensures RightWord(l', event)
  {
    TickLeaves(l, step, l', event);
  }

  lemma StepLeaves(run: seq<Life>, i: nat, event: string)
    requires Wanting(run, event) && 0 < i < |run|
    ensures Starts(run[i - 1], run[i], event) ==>
              (RightWord(run[i], event) <==> Quiet(run[i - 1].log, event, run[i].clock))
    ensures !Starts(run[i - 1], run[i], event) && RightWord(run[i - 1], event) ==> RightWord(run[i], event)
  {
    RunTold(run, i - 1, event);
    RunTold(run, i, event);
    assert FollowsWanting(run[i - 1], run[i], event);
    var step :| Next(run[i - 1], step, run[i]) && (step.Tick? ==> event in step.wanted);
    if !step.Tick? {
      OtherWord(run[i - 1], step, run[i], event);
    } else if Starts(run[i - 1], run[i], event) {
      StartWord(run[i - 1], step, run[i], event);
    } else if RightWord(run[i - 1], event) {
      QuietWord(run[i - 1], step, run[i], event);
    }
  }

  lemma {:induction false} QuietStartsKeepTheWord(run: seq<Life>, i: nat, event: string)
    requires Wanting(run, event) && i < |run|
    requires forall j | 0 < j < |run| && Starts(run[j - 1], run[j], event) :: Quiet(run[j - 1].log, event, run[j].clock)
    ensures RightWord(run[i], event)
  {
    if i > 0 {
      QuietStartsKeepTheWord(run, i - 1, event);
      StepLeaves(run, i, event);
    }
  }

  /**
   A channel that wants an event all the time has heard last that it goes on just while it does:
   exactly when the event never starts again within an hour of a start that was told.
   */
  lemma WordIsRightUnlessItReturnsSoon(run: seq<Life>, event: string)
    requires Wanting(run, event)
    ensures (forall i | 0 <= i < |run| :: RightWord(run[i], event)) <==>
            (forall j | 0 < j < |run| && Starts(run[j - 1], run[j], event) :: Quiet(run[j - 1].log, event, run[j].clock))
  {
    if forall j | 0 < j < |run| && Starts(run[j - 1], run[j], event) :: Quiet(run[j - 1].log, event, run[j].clock) {
      forall i | 0 <= i < |run|
        ensures RightWord(run[i], event)
      {
        QuietStartsKeepTheWord(run, i, event);
      }
    } else {
      var j :| 0 < j < |run| && Starts(run[j - 1], run[j], event) && !Quiet(run[j - 1].log, event, run[j].clock);
      StepLeaves(run, j, event);
      assert !RightWord(run[j], event);
    }
  }

  /** The event begins, or is over, in one tick. */
  ghost function Turned(l: Life, event: string, now: Instant): Life {
    if event in l.active then AfterTick(l, {event}, l.active - {event}, [], [Change(event, "")], now)
    else AfterTick(l, {event}, l.active + {event}, [Change(event, "")], [], now)
  }

  lemma TurnedFollows(l: Life, event: string, now: Instant)
    requires l.clock <= now
    ensures FollowsWanting(l, Turned(l, event, now), event)
  {
    assert Events([]) == {} && Events([Change(event, "")]) == {event};
    var step :=
      if event in l.active then Tick({event}, l.active - {event}, [], [Change(event, "")], now)
      else Tick({event}, l.active + {event}, [Change(event, "")], [], now);
    assert l.active - (l.active - {event}) == {event} || event !in l.active;
    assert (l.active + {event}) - l.active == {event} || event in l.active;
    assert Names(step.started, step.found - l.active) && Names(step.ended, l.active - step.found);
    assert Next(l, step, Turned(l, event, now));
  }

  lemma ExtendWanting(run: seq<Life>, l: Life, event: string)
    requires Wanting(run, event) && FollowsWanting(run[|run| - 1], l, event)
    ensures Wanting(run + [l], event)
  {
    forall i | 0 < i < |run + [l]|
      ensures FollowsWanting((run + [l])[i - 1], (run + [l])[i], event) && Follows((run + [l])[i - 1], (run + [l])[i])
    {
      assert i < |run| ==> FollowsWanting(run[i - 1], run[i], event) && Follows(run[i - 1], run[i]);
      var step :| Next((run + [l])[i - 1], step, (run + [l])[i]) && (step.Tick? ==> event in step.wanted);
    }
  }

  ghost function Word(l: Life, event: string, now: Instant): Outgoing {
    Outgoing(event, event in l.active, "", now)
  }

  /** Either turn is told if the start was, and no start was within the hour. */
  lemma TurnIsTold(l: Life, event: string, now: Instant)
    requires if event in l.active then event in l.cs.told.announced else Announces(l.cs.told, {event}, event, now)
    requires event in l.cs.told.announced ==> event in l.active
    ensures var after := Turned(l, event, now);
            && after.log == l.log + [Word(l, event, now)]
            && after.cs.queue != [] && after.cs.attempts == l.cs.attempts && after.cs.retryAt == l.cs.retryAt
            && (event in after.cs.told.announced <==> event in after.active)
  {
    var (draft, change) := (Draft(l.cs.told, []), Change(event, ""));
    if event in l.active {
      assert EndAll(draft, [change][..0], now) == draft;
      assert Drafted(l.cs.told, {event}, [], [change], now) == EndOne(draft, change, now);
    } else {
      assert StartAll(draft, {event}, [change][..0], now) == draft;
      assert Drafted(l.cs.told, {event}, [change], [], now) == StartOne(draft, {event}, change, now);
    }
    var queue := l.cs.queue + [Word(l, event, now)];
    assert queue[|queue| - 1] == Word(l, event, now);
    assert Retain(queue, now) != [];
  }

  /** Over after a minute and back after another: the channel is not told that it goes on again. */
  lemma ReturnIsNotTold(event: string) returns (run: seq<Life>)
    ensures Wanting(run, event) && event in run[|run| - 1].active && !Open(run[|run| - 1].log, event)
  {
    var minute := 60 * SECOND;
    var born := Life({}, FRESH, [], [], [], 0);
    var first := Turned(born, event, 0);
    TurnedFollows(born, event, 0);
    TurnIsTold(born, event, 0);
    var second := Turned(first, event, minute);
    TurnedFollows(first, event, minute);
    TurnIsTold(first, event, minute);
    var third := Turned(second, event, 2 * minute);
    TurnedFollows(second, event, 2 * minute);
    ExtendWanting([born], first, event);
    ExtendWanting([born] + [first], second, event);
    ExtendWanting([born] + [first] + [second], third, event);
    run := [born] + [first] + [second] + [third];
    assert second.log[0] == Word(born, event, 0) && StartOf(second.log[0], event);
    StepLeaves(run, 3, event);
  }

  // ----- How long a channel can fail -----

  lemma FailsOnce(run: seq<Life>, event: string) returns (run': seq<Life>)
    requires Wanting(run, event)
    requires event in run[|run| - 1].cs.told.announced <==> event in run[|run| - 1].active
    ensures Wanting(run', event)
    ensures event in run'[|run'| - 1].cs.told.announced <==> event in run'[|run'| - 1].active
    ensures run'[|run'| - 1].cs.attempts == run[|run| - 1].cs.attempts + 1
  {
    var l := run[|run| - 1];
    RunKeeps(run, |run| - 1);
    RunKeepsSent(run, |run| - 1, event);
    var now := Max(l.clock + SPACING, if l.cs.retryAt.Some? then l.cs.retryAt.value else l.clock);
    QuietMeansAnnounced(l.cs.told, l.log, {event}, event, l.clock, now);
    var turned := Turned(l, event, now);
    TurnIsTold(l, event, now);
    TurnedFollows(l, event, now);
    ExtendWanting(run, turned, event);
    var tried := AfterTry(turned, now, now, false);
    assert Next(turned, Try(now, now, false), tried);
    assert FollowsWanting(turned, tried, event);
    ExtendWanting(run + [turned], tried, event);
    run' := run + [turned] + [tried];
  }

  /** A channel may fail any number of times in a row, for messages that come and go. */
  lemma {:induction false} FailsFor(n: nat, event: string) returns (run: seq<Life>)
    ensures Wanting(run, event) && run[|run| - 1].cs.attempts == Failing(run[|run| - 1].attempts) == n
    ensures event in run[|run| - 1].cs.told.announced <==> event in run[|run| - 1].active
  {
    if n == 0 {
      run := [Life({}, FRESH, [], [], [], 0)];
    } else {
      var before := FailsFor(n - 1, event);
      run := FailsOnce(before, event);
      RunKeeps(run, |run| - 1);
    }
  }

  lemma NoPauseAt(n: nat)
    requires n == 63 || n == 64
    ensures Pause(n) == 0
  {
    PowersPast58();
    WrappedPast(Power2(n - 1));
  }

  /** There are runs in which the pause is nothing: after the 63rd failure the next try may follow at once. */
  lemma NoPauseIsReached(n: nat, event: string) returns (run: seq<Life>)
    requires n == 63 || n == 64
    ensures Run(run) && run[|run| - 1].attempts != []
    ensures var l := run[|run| - 1];
            Failing(l.attempts) == n && l.cs.retryAt == Some(l.attempts[|l.attempts| - 1].end)
  {
    run := FailsFor(n, event);
    RunKeeps(run, |run| - 1);
    NoPauseAt(n);
  }

  // ----- The running state -----

  datatype Send = Send(begin: Instant, end: Instant, ok: bool)

  /** Sends what waits, until a send fails or its turn has not come; `sends(k)` is how send `k` goes. */
  ghost function Delivery(cs: ChannelState, sends: nat -> Send, k: nat): ChannelState
    decreases |cs.queue|
  {
    if !Due(cs, sends(k).begin) then cs
    else if sends(k).ok then Delivery(SentOk(cs), sends, k + 1)
    else SentBadly(cs, sends(k).end)
  }

  ghost function AfterDeliver(channel: Channel, mailer: bool, cs: ChannelState, sends: nat -> Send): ChannelState {
    if channel.mail && !mailer then cs.(queue := []) else Delivery(cs, sends, 0)
  }

  /** Before send `n` of a delivery: as it was before the first, and nothing failed after one that was taken. */
  ghost function AttemptsBefore(cs: ChannelState, n: nat): nat {
    if n == 0 then cs.attempts else 0
  }

  ghost predicate Waits(cs: ChannelState, n: nat, at: Instant) {
    n == 0 && cs.retryAt.Some? && at < cs.retryAt.value
  }

  /** Sends from number `k` on took the first `n` messages, and the next one is not there, failed, or has to wait. */
  ghost predicate SentFrom(cs: ChannelState, sends: nat -> Send, k: nat, n: nat, after: ChannelState) {
    && n <= |cs.queue| && after.told == cs.told && after.queue == cs.queue[n..]
    && (forall i: nat | k <= i < k + n :: sends(i).ok)
    && (n > 0 ==> !Waits(cs, 0, sends(k).begin))
    && if n == |cs.queue| || Waits(cs, n, sends(k).begin) then
         after.attempts == AttemptsBefore(cs, n) && after.retryAt == if n == 0 then cs.retryAt else None
       else
         && !sends(k + n).ok
         && after.attempts == AttemptsBefore(cs, n) + 1
         && after.retryAt == Some(sends(k + n).end + Pause(after.attempts) * SECOND)
  }

  /** A delivery goes on as long as messages are there and taken: it stops for nothing else. */
  lemma {:induction false} DeliveryIsWhole(cs: ChannelState, sends: nat -> Send, k: nat) returns (n: nat)
    ensures SentFrom(cs, sends, k, n, Delivery(cs, sends, k))
    decreases |cs.queue|
  {
    n := 0;
    if Due(cs, sends(k).begin) && sends(k).ok {
      n := DeliveryIsWhole(SentOk(cs), sends, k + 1);
      n := n + 1;
    }
  }

  /** Mail without a server leaves nothing waiting; else the queue is sent as far as it goes. */
  ghost predicate SentOut(channel: Channel, mailer: bool, cs: ChannelState, sends: nat -> Send, after: ChannelState) {
    if channel.mail && !mailer then after == cs.(queue := []) else exists n: nat :: SentFrom(cs, sends, 0, n, after)
  }

  lemma DeliverDelivers(channel: Channel, mailer: bool, cs: ChannelState, sends: nat -> Send)
    ensures SentOut(channel, mailer, cs, sends, AfterDeliver(channel, mailer, cs, sends))
  {
    if !channel.mail || mailer {
      var n := DeliveryIsWhole(cs, sends, 0);
    }
  }

  ghost predicate InTime(sends: nat -> Send, k: nat, clock: Instant) {
    && clock <= sends(k).begin
    && forall i: nat | k <= i :: sends(i).begin <= sends(i).end <= sends(i + 1).begin
  }

  /** Delivering is a run of single sends. */
  lemma {:induction false} DeliveryIsTries(l: Life, sends: nat -> Send, k: nat) returns (run: seq<Life>)
    requires InTime(sends, k, l.clock)
    ensures |run| > 0 && run[0] == l && forall i | 0 < i < |run| :: Follows(run[i - 1], run[i])
    ensures run[|run| - 1].cs == Delivery(l.cs, sends, k)
    ensures run[|run| - 1].log == l.log && run[|run| - 1].active == l.active
    decreases |l.cs.queue|
  {
    run := [l];
    var s := sends(k);
    if Due(l.cs, s.begin) {
      var after := AfterTry(l, s.begin, s.end, s.ok);
      assert Next(l, Try(s.begin, s.end, s.ok), after);
      if s.ok {
        var rest := DeliveryIsTries(after, sends, k + 1);
        run := run + rest;
        forall i | 0 < i < |run|
          ensures Follows(run[i - 1], run[i])
        {
          if i > 1 {
            assert run[i - 1] == rest[i - 2] && run[i] == rest[i - 1];
          }
        }
      } else {
        run := run + [after];
      }
    }
  }

  /** A whole tick, seen from one channel that hears of it, is a run of its life. */
  lemma TickIsARun(l: Life, channel: Channel, mailer: bool, found: set<string>, started: seq<Change>, ended: seq<Change>,
                   now: Instant, sends: nat -> Send) returns (run: seq<Life>)
    requires Names(started, found - l.active) && Names(ended, l.active - found)
    requires l.clock <= now && InTime(sends, 0, now)
    ensures |run| > 0 && run[0] == l && forall i | 0 < i < |run| :: Follows(run[i - 1], run[i])
    ensures run[|run| - 1].cs == AfterDeliver(channel, mailer, Ticked(l.cs, channel.wanted, started, ended, now), sends)
    ensures run[|run| - 1].log == l.log + Drafted(l.cs.told, channel.wanted, started, ended, now).messages
    ensures run[|run| - 1].active == found
  {
    var ticked := AfterTick(l, channel.wanted, found, started, ended, now);
    assert Next(l, Tick(channel.wanted, found, started, ended, now), ticked);
    var rest: seq<Life>;
    if channel.mail && !mailer {
      rest := [ticked, AfterClear(ticked, now)];
      assert Next(ticked, Clear(now), rest[1]);
    } else {
      rest := DeliveryIsTries(ticked, sends, 0);
    }
    run := [l] + rest;
    forall i | 0 < i < |run|
      ensures Follows(run[i - 1], run[i])
    {
      if i > 1 {
        assert run[i - 1] == rest[i - 2] && run[i] == rest[i - 1];
      }
    }
  }

  function TextOf(found: map<string, Finding>): map<string, string> {
    map e | e in found :: found[e].detail
  }

  function ActiveText(active: map<string, Active>): map<string, string> {
    map e | e in active :: active[e].detail
  }

  /** `events` in order, each with its text. */
  ghost predicate Listed(changes: seq<Change>, events: set<string>, texts: map<string, string>) {
    && Names(changes, events)
    && (forall i, j | 0 <= i < j < |changes| :: Less(changes[i].event, changes[j].event))
    && (forall c | c in changes :: c.event in texts && c.detail == texts[c.event])
  }

  /** What is found is going on; what was going on before keeps the time it began. */
  function ActiveAfter(active: map<string, Active>, found: map<string, Finding>, when: Instant): map<string, Active> {
    map e | e in found :: Active(if e in active then active[e].since else when, found[e].severity, found[e].detail)
  }

  /** An event keeps the time it began for as long as it goes on, with the severity and text found last. */
  lemma GoesOnSince(active: map<string, Active>, found: map<string, Finding>, when: Instant, e: string)
    requires e in found
    ensures var a := ActiveAfter(active, found, when);
            && a.Keys == found.Keys && a[e].severity == found[e].severity && a[e].detail == found[e].detail
            && (e in active ==> a[e].since == active[e].since) && (e !in active ==> a[e].since == when)
  {
  }

  predicate Heard(channel: Channel, others: bool) {
    channel.enabled && (others || channel.mail)
  }

  ghost predicate OneEach(list: seq<Channel>) {
    forall i, j | 0 <= i < j < |list| :: list[i].id != list[j].id
  }

  function StateOf(channels: map<string, ChannelState>, id: string): ChannelState {
    if id in channels then channels[id] else FRESH
  }

  lemma EventsOneMore(changes: seq<Change>, change: Change)
    ensures Events(changes + [change]) == Events(changes) + {change.event}
  {
    assert change in changes + [change];
  }

  /** A start is told with what was found, an end with what was found last. */
  lemma ListedTexts(changes: seq<Change>, events: set<string>, found: map<string, Finding>, active: map<string, Active>)
    ensures Listed(changes, events, TextOf(found)) ==>
              forall c | c in changes :: c.event in found && c.detail == found[c.event].detail
    ensures Listed(changes, events, ActiveText(active)) ==>
              forall c | c in changes :: c.event in active && c.detail == active[c.event].detail
  {
  }

  method ListChanges(events: set<string>, texts: map<string, string>) returns (changes: seq<Change>)
    requires events <= texts.Keys
    ensures Listed(changes, events, texts)
  {
    changes := [];
    ghost var done: seq<string> := [];
    var left := events;
    while left != {}
      invariant left <= events && DoneBefore(done, left) && Increasing(done) && |done| == |changes|
      invariant forall i | 0 <= i < |done| :: changes[i].event == done[i] && done[i] in texts && changes[i].detail == texts[done[i]]
      invariant Events(changes) == events - left
      decreases left
    {
      var event := Least(left);
      LeastIsNext(done, left, event);
      ghost var before := changes;
      changes := changes + [Change(event, texts[event])];
      done := done + [event];
      left := left - {event};
      EventsOneMore(before, Change(event, texts[event]));
    }
    forall i, j | 0 <= i < j < |changes|
      ensures changes[i].event != changes[j].event
    {
      LessTotal(done[i], done[j]);
    }
  }

  /** The states after the channels of `list` were told, one after the other. */
  function ToldAll(channels: map<string, ChannelState>, list: seq<Channel>, others: bool, started: seq<Change>,
                   ended: seq<Change>, now: Instant): map<string, ChannelState> {
    if list == [] then channels
    else
      var (before, last) := (ToldAll(channels, list[..|list| - 1], others, started, ended, now), list[|list| - 1]);
      if Heard(last, others) then before[last.id := Ticked(StateOf(before, last.id), last.wanted, started, ended, now)]
      else before
  }

  ghost predicate Hears(list: seq<Channel>, others: bool, id: string) {
    exists c :: c in list && Heard(c, others) && c.id == id
  }

  lemma {:induction false} NotTold(channels: map<string, ChannelState>, list: seq<Channel>, others: bool,
                                   started: seq<Change>, ended: seq<Change>, now: Instant, id: string)
    requires forall c | c in list && Heard(c, others) :: c.id != id
    ensures var after := ToldAll(channels, list, others, started, ended, now);
            (id in after <==> id in channels) && StateOf(after, id) == StateOf(channels, id)
  {
    if list != [] {
      assert list[|list| - 1] in list;
      NotTold(channels, list[..|list| - 1], others, started, ended, now, id);
    }
  }

  lemma {:induction false} ToldOnce(channels: map<string, ChannelState>, list: seq<Channel>, others: bool,
                                    started: seq<Change>, ended: seq<Change>, now: Instant, k: nat)
    requires OneEach(list) && k < |list| && Heard(list[k], others)
    ensures var after := ToldAll(channels, list, others, started, ended, now);
            && list[k].id in after
            && after[list[k].id] == Ticked(StateOf(channels, list[k].id), list[k].wanted, started, ended, now)
  {
    var front := list[..|list| - 1];
    if k < |front| {
      assert OneEach(front) && front[k] == list[k] && list[|list| - 1].id != list[k].id;
      ToldOnce(channels, front, others, started, ended, now, k);
    } else {
      NotTold(channels, front, others, started, ended, now, list[k].id);
    }
  }

  /** Each channel that hears of anything is told just once, and no other. */
  lemma ToldAllMeans(channels: map<string, ChannelState>, list: seq<Channel>, others: bool, started: seq<Change>,
                     ended: seq<Change>, now: Instant, id: string)
    requires OneEach(list)
    ensures var after := ToldAll(channels, list, others, started, ended, now);
            && (forall c | c in list && Heard(c, others) && c.id == id ::
                  id in after && after[id] == Ticked(StateOf(channels, id), c.wanted, started, ended, now))
            && (!Hears(list, others, id) ==>
                  (id in after <==> id in channels) && StateOf(after, id) == StateOf(channels, id))
    ensures id !in channels ==> StateOf(channels, id) == ChannelState(Told(map[], {}), [], 0, None)
  {
    var after := ToldAll(channels, list, others, started, ended, now);
    forall c | c in list && Heard(c, others) && c.id == id
      ensures id in after && after[id] == Ticked(StateOf(channels, id), c.wanted, started, ended, now)
    {
      var k :| 0 <= k < |list| && list[k] == c;
      ToldOnce(channels, list, others, started, ended, now, k);
    }
    if !Hears(list, others, id) {
      NotTold(channels, list, others, started, ended, now, id);
    }
  }

  /** Queues for one channel what started and ended, and drops what is a day old. */
  method Tell(cs: ChannelState, wanted: set<string>, started: seq<Change>, ended: seq<Change>, now: Instant)
      returns (told: ChannelState)
    ensures told == Ticked(cs, wanted, started, ended, now)
  {
    var draft := Draft(cs.told, []);
    for i := 0 to |started|
      invariant draft == StartAll(Draft(cs.told, []), wanted, started[..i], now)
    {
      assert started[..i + 1][..i] == started[..i];
      var (event, detail) := (started[i].event, started[i].detail);
      if event !in wanted {
        continue;
      }
      if event in draft.told.sent && Since(now, draft.told.sent[event]) < SPACING {
        continue;
      }
      draft := Draft(Told(draft.told.sent[event := now], draft.told.announced + {event}),
                     draft.messages + [Outgoing(event, false, detail, now)]);
    }
    assert started[..|started|] == started;
    ghost var begun := draft;
    for i := 0 to |ended|
      invariant draft == EndAll(begun, ended[..i], now)
    {
      assert ended[..i + 1][..i] == ended[..i];
      var (event, detail) := (ended[i].event, ended[i].detail);
      if event in draft.told.announced {
        draft := Draft(Told(draft.told.sent, draft.told.announced - {event}),
                       draft.messages + [Outgoing(event, true, detail, now)]);
      }
    }
    assert ended[..|ended|] == ended;
    told := ChannelState(draft.told, Retain(cs.queue + draft.messages, now), cs.attempts, cs.retryAt);
  }

  class Alerts {
    var active: map<string, Active>
    var channels: map<string, ChannelState>

    constructor ()
      ensures active == map[] && channels == map[]
    {
      active, channels := map[], map[];
    }

    /** What changed since the last time, and what is going on now. */
    method Compare(found: map<string, Finding>, when: Instant) returns (started: seq<Change>, ended: seq<Change>)
      modifies this`active
      ensures Listed(started, found.Keys - old(active).Keys, TextOf(found))
      ensures Listed(ended, old(active).Keys - found.Keys, ActiveText(old(active)))
      ensures active == ActiveAfter(old(active), found, when)
    {
      started := ListChanges(found.Keys - active.Keys, TextOf(found));
      ended := ListChanges(active.Keys - found.Keys, ActiveText(active));
      active := active - Events(ended);
      var left := found.Keys;
      while left != {}
        invariant left <= found.Keys && active.Keys <= found.Keys
        invariant forall e | e in left :: e in active <==> e in old(active)
        invariant forall e | e in left && e in active :: active[e] == old(active)[e]
        invariant forall e | e in found.Keys - left :: e in active && active[e] == ActiveAfter(old(active), found, when)[e]
        decreases left
      {
        var event :| event in left;
        var since := if event in active then active[event].since else when;
        active := active[event := Active(since, found[event].severity, found[event].detail)];
        left := left - {event};
      }
    }

    /** Queues for every channel that hears of anything; the others' states are forgotten. */
    method QueueAll(list: seq<Channel>, others: bool, started: seq<Change>, ended: seq<Change>, now: Instant)
      requires OneEach(list)
      modifies this`channels
      ensures forall id :: id in channels <==> Hears(list, others, id)
      ensures forall id :: id in channels <==> exists c :: c in list && c.id == id && c.enabled && (others || c.mail)
      ensures forall c | c in list && Heard(c, others) ::
                StateOf(channels, c.id) == Ticked(StateOf(old(channels), c.id), c.wanted, started, ended, now)
    {
      var left := set c | c in list && Heard(c, others) :: c.id;
      var kept := map id | id in channels && id in left :: channels[id];
      channels := kept;
      for i := 0 to |list|
        invariant channels == ToldAll(kept, list[..i], others, started, ended, now)
      {
        assert list[..i + 1][..i] == list[..i];
        var c := list[i];
        if Heard(c, others) {
          var told := Tell(StateOf(channels, c.id), c.wanted, started, ended, now);
          channels := channels[c.id := told];
        }
      }
      assert list[..|list|] == list;
      forall id
        ensures id in channels <==> Hears(list, others, id)
      {
        ToldAllMeans(kept, list, others, started, ended, now, id);
      }
      forall c | c in list && Heard(c, others)
        ensures StateOf(channels, c.id) == Ticked(StateOf(old(channels), c.id), c.wanted, started, ended, now)
      {
        ToldAllMeans(kept, list, others, started, ended, now, c.id);
        assert c.id in left;
      }
    }

    /** Sends what waits for `channel`, if it is its turn. */
    method Deliver(channel: Channel, mailer: bool, sends: nat -> Send)
      modifies this`channels
      ensures channels == if channel.id in old(channels)
                          then old(channels)[channel.id := AfterDeliver(channel, mailer, old(channels)[channel.id], sends)]
                          else old(channels)
    {
      if channel.id !in channels {
        return;
      }
      if channel.mail && !mailer {
        channels := channels[channel.id := channels[channel.id].(queue := [])];
        return;
      }
      var k: nat := 0;
      while true
        invariant channel.id in channels
        invariant channels == old(channels)[channel.id := channels[channel.id]]
        invariant Delivery(channels[channel.id], sends, k) == Delivery(old(channels)[channel.id], sends, 0)
        decreases |channels[channel.id].queue|
      {
        var entry := channels[channel.id];
        var s := sends(k);
        if entry.retryAt.Some? && entry.retryAt.value > s.begin {
          return;
        }
        if entry.queue == [] {
          return;
        }
        if s.ok {
          channels := channels[channel.id := ChannelState(entry.told, entry.queue[1..], 0, None)];
        } else {
          var attempts := entry.attempts + 1;
          channels := channels[channel.id :=
            ChannelState(entry.told, entry.queue, attempts, Some(s.end + Pause(attempts) * SECOND))];
          return;
        }
        k := k + 1;
      }
    }

    method DeliverAll(list: seq<Channel>, others: bool, mailer: bool, sends: string -> nat -> Send)
      requires OneEach(list) && forall c | c in list && Heard(c, others) :: c.id in channels
      modifies this`channels
      ensures channels.Keys == old(channels).Keys
      ensures forall c | c in list && Heard(c, others) ::
                channels[c.id] == AfterDeliver(c, mailer, old(channels)[c.id], sends(c.id))
    {
      for i := 0 to |list|
        invariant channels.Keys == old(channels).Keys
        invariant forall k | 0 <= k < i && Heard(list[k], others) ::
          channels[list[k].id] == AfterDeliver(list[k], mailer, old(channels)[list[k].id], sends(list[k].id))
        invariant forall k | i <= k < |list| && Heard(list[k], others) :: channels[list[k].id] == old(channels)[list[k].id]
      {
        if Heard(list[i], others) {
          Deliver(list[i], mailer, sends(list[i].id));
        }
      }
    }

    /**
     What the server does once a minute: compares, queues, and sends for every channel that hears of
     anything. `sends(id)(k)` is how the `k`-th send to that channel goes.
     */
    method Tick(found: map<string, Finding>, list: seq<Channel>, others: bool, mailer: bool, when: Instant, now: Instant,
                sends: string -> nat -> Send) returns (started: seq<Change>, ended: seq<Change>)
      requires OneEach(list)
      modifies this
      ensures Listed(started, found.Keys - old(active).Keys, TextOf(found))
      ensures Listed(ended, old(active).Keys - found.Keys, ActiveText(old(active)))
      ensures active == ActiveAfter(old(active), found, when)
      ensures forall id :: id in channels <==> Hears(list, others, id)
      ensures forall c | c in list && Heard(c, others) ::
                StateOf(channels, c.id)
                == AfterDeliver(c, mailer, Ticked(StateOf(old(channels), c.id), c.wanted, started, ended, now), sends(c.id))
      ensures forall c | c in list && Heard(c, others) ::
                SentOut(c, mailer, Ticked(StateOf(old(channels), c.id), c.wanted, started, ended, now), sends(c.id),
                          StateOf(channels, c.id))
    {
      started, ended := Compare(found, when);
      QueueAll(list, others, started, ended, now);
      DeliverAll(list, others, mailer, sends);
      forall c | c in list && Heard(c, others)
        ensures SentOut(c, mailer, Ticked(StateOf(old(channels), c.id), c.wanted, started, ended, now), sends(c.id),
                          StateOf(channels, c.id))
      {
        DeliverDelivers(c, mailer, Ticked(StateOf(old(channels), c.id), c.wanted, started, ended, now), sends(c.id));
      }
    }
  }
}
