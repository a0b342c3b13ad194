# UwULock API: a verified model

UwULock is a self-hosted password server. This project models the algorithmic parts of its
`uwulock-api` crate in Dafny and proves what they promise: for every input, every run and every
interleaving. One module stands for one component of the crate.

| module | what it is about |
|---|---|
| `SvgExpansion` | whether an SVG stays small once drawn, found without drawing it |
| `Nat64` | public addresses, and the network's own NAT64 prefixes (RFC 7050, RFC 6052 section 2.2) |
| `Budget` | the sliding-window budget for questions about addresses |
| `XonQueue` | the queue in front of XposedOrNot: one question at a time, spacing, pauses, shares |
| `MergeBreaches` | the lists of several breach sources made one |
| `Alerts` | alerts to the admins: announcing, spacing, queues, retries |
| `Counters`, `Uploads` | the books of the uploads on their way |
| `Publish` | receiving an upload and publishing it by a hard link |
| `IconPack`, `NearestDomain` | the icon pack's writer and reader, and its walk up the domains |
| `IconCache` | the cache of website icons: eviction, the book, what it says |
| `Emergency` | emergency access between a grantor and a contact, with optimistic saves |
| `Certificate`, `Calendar` | the DER reader that finds when a certificate ends |
| `Prelude`, `Clock`, `Text` | optional values, numbers and instants as the program has them, the order of texts |

Where the source updates fields in place the model has a class with those fields (`BudgetState`,
`XonQueue`, `Alerts`, `Uploads`, `Writer`, `Icons`, `Store`) and methods proved against functions of
the old state; the lemmas speak of those functions. Where several tasks run at once, a `World` holds
the state together with all that ever happened, a `Step` is what one task does without being
interrupted, and a run is any sequence of steps. Clocks are integers that never go back, but for the
wall clock that `Emergency` takes its revisions from, which may say anything.

## What the code does not keep

Each of these is proved: the condition under which the promise holds, for all inputs, in both
directions, and a run or an input that breaks it otherwise. Outside tests the limits of the
budget and of the queue are always `BudgetLimits::default` and `XonLimits::default`. These keep what the
bullets on zero limits, on a share of zero and on the spacing are about (`Budget.DefaultLimitsAreKept`,
`XonQueue.DefaultLimitsKeepTheSpacing`), so there the conditions concern the interface only.

- The budget's limits are kept in every run exactly when none of them is zero: `wait` looks at the
  first question in a window, so with nothing asked yet a limit of zero lets one through
  (`Budget.KeptUnlessALimitIsZero`).
- What a client is told to wait for the budget is long enough exactly when the delay is under a second
  or a whole number of seconds, since the rest of a second is left off (`Budget.RetryAfterSuffices`,
  `Budget.ComesBackTooEarly`).
- A counter of zero stays behind in the XposedOrNot queue exactly when no request of an account may
  wait (`XonQueue.NothingLeftBehindIfAnyMayWait`).
- Questions to XposedOrNot keep their spacing exactly when the longest pause is no shorter than it,
  or nothing is asked again; the comment promises it in any case (`XonQueue.ApartIfPausesAreNotShort`).
  After the last retry only the spacing is waited, whatever `Retry-After` said
  (`XonQueue.WaitedOutIfSpacingIsLong`), and a request that is dropped while it asks sets no pause
  (`XonQueue.NothingAfterADrop`).
- A channel's pause doubles up to an hour except after 63 or 64 failures in a row, when the product
  wraps to zero in a release build (`Alerts.PauseIsBackoff`); messages that come and go keep a channel
  failing that long (`Alerts.NoPauseIsReached`).
- A channel that wants an event all the time has heard last that it goes on just while it does exactly
  when it never starts again within an hour of a start that was told
  (`Alerts.WordIsRightUnlessItReturnsSoon`, `Alerts.ReturnIsNotTold`).
- A file has one upload at a time exactly when no account id begins with `file:`
  (`Uploads.OnePerFileUnlessNamed`). Account ids are UUIDs, so this is about the interface of
  `Uploads`, which takes any text, and not about anything a client can send.
- The bytes reserved for uploads are those announced exactly when these fit 64 bits all the time
  (`Uploads.ReservedRightIfItFits`, `Uploads.UnknownDiskWraps`). They do wherever the free space of
  the disk is known (`Uploads.KnownDisksFit`), and in every run the server can have: it takes no file
  of more than 4096 MB, so they fit whatever is known of the disks (`Uploads.ServerUploadsFit`). Only the
  interface of `Uploads`, which takes any size, lets the sum wrap.
- A library id that was given more than once yields the first icon, as a domain or a name does, exactly
  when its last entry names the same icon (`IconPack.FirstLibraryEntryCounts`,
  `IconPack.FirstLibraryEntryLost`).
- What `prune` answers is what the directory holds exactly when everything too old could be removed
  (`IconCache.AnswerIsExact`, `IconCache.StuckIsNotAnswered`).
- The book of the icon cache survives a failed write exactly when what is on disk happens to have the
  files and bytes that were to be written (`IconCache.BookAfterWrite`, `IconCache.FailedWriteIsBooked`).
- Emergency access is granted when it is checked, and the contact stays, exactly when no two writes to
  a grant fall into one microsecond: the revision is the time of the write
  (`Emergency.AccessIsGrantedIfWritesAreApart`, `Emergency.TakeoversWereGrantedIfWritesAreApart`,
  `Emergency.ContactStaysIfWritesAreApart`). That is for a clock that never goes back; whatever the
  clock does, all of it holds in a run in which no two writes were given the same time
  (`Emergency.GrantedIfRevisionsDiffer`).
- A takeover writes the new password only after the check and the hashing of the password. Where no two
  writes were given the same time, the access is granted still when the password is written exactly
  when, since the check, the grant was not removed, not refused without being approved anew, and not
  made one of another kind (`Emergency.TakenIfItStillStands`); however far apart the writes are, there
  is a run in which it was refused in between (`Emergency.TakenAfterRefusal`).
- An answer of `ipv4only.arpa` is learned as the prefix it was made with exactly when its suffix does
  not repeat a well-known address; section 2.2 of RFC 6052 asks for a suffix of zeros
  (`Nat64.LearnedAsMade`, `Nat64.SuffixCanMislead`).

## Model

| member | source | states |
|---|---|---|
| SvgExpansion.Small | crates/uwulock-api/src/icon_fetch.rs:742-776 | the walk ends on every graph, and answers true exactly when the document has a drawing of at most 5000 elements, each part counted as often as it is used |
| SvgExpansion.DrawableUnlessCyclic | crates/uwulock-api/src/icon_fetch.rs:767-771 | a document can be drawn at all exactly when no element reachable from the root contains itself |
| SvgExpansion.DrawingUnique | crates/uwulock-api/src/icon_fetch.rs:754-755 | there is one drawing only, so its size is a matter of the document |
| SvgExpansion.TotalIsSize | crates/uwulock-api/src/icon_fetch.rs:757-762 | the saturating sum of remembered sizes is over the limit exactly when the true size is, and else is the true size |
| SvgExpansion.StepOpen | crates/uwulock-api/src/icon_fetch.rs:766-773 | opening an element keeps the open ones a path from the root to the top of the stack, and is progress even when elements are on the stack twice |
| SvgExpansion.Push | crates/uwulock-api/src/icon_fetch.rs:767-773 | the unsized parts go onto the stack, or the document is refused because one of them is open |
| Nat64.MappedDecides | crates/uwulock-api/src/icon_fetch.rs:153-155 | a mapped address is public exactly when the IPv4 address in it is |
| Nat64.CompatibleDecides | crates/uwulock-api/src/icon_fetch.rs:156-158 | the same for a compatible one, the unspecified and the loopback address included |
| Nat64.WellKnownPrefixDecides | crates/uwulock-api/src/icon_fetch.rs:159-161 | the same under the well-known NAT64 prefix |
| Nat64.SixToFourDecides | crates/uwulock-api/src/icon_fetch.rs:171-173 | the same for 6to4, whatever follows the IPv4 address |
| Nat64.PublicV4IsNotSpecial | crates/uwulock-api/src/icon_fetch.rs:128-145 | an IPv4 address is public exactly when it lies in none of fourteen blocks, each given by its first bits |
| Nat64.PublicV6IsNotSpecial | crates/uwulock-api/src/icon_fetch.rs:147-190 | an IPv6 address is public exactly when the IPv4 address in it is, where one of four listed prefixes carries one, and else exactly when it lies in none of eleven blocks, each given by its first bits |
| Nat64.EmbeddedOfSynthesized | crates/uwulock-api/src/icon_fetch.rs:201-219 | for all six lengths, taking out the IPv4 address and the prefix undoes the layout of section 2.2 of RFC 6052 |
| Nat64.PrefixIsLeadingOctets | crates/uwulock-api/src/icon_fetch.rs:216-219 | masking the 128-bit number keeps the leading octets and clears the others |
| Nat64.LearnedAsMade | crates/uwulock-api/src/icon_fetch.rs:222-237 | an answer made with a prefix from a well-known address is learned as that prefix and length exactly when its suffix repeats no well-known address |
| Nat64.ZeroSuffixIsHarmless | crates/uwulock-api/src/icon_fetch.rs:226-230 | with a zero suffix no longer prefix is ever read into an answer |
| Nat64.SuffixCanMislead | crates/uwulock-api/src/icon_fetch.rs:226-230 | an answer with another suffix that is learned as the wrong prefix |
| Nat64.PrefixesFrom | crates/uwulock-api/src/icon_fetch.rs:222-237 | the loop over the answers finds what `Shown` says |
| Nat64.ShownIsWhatIsLearned | crates/uwulock-api/src/icon_fetch.rs:231-233 | each prefix learned from an IPv6 answer is there once, with one of the six lengths, and nothing that no such answer shows |
| Nat64.PrefixDecides | crates/uwulock-api/src/icon_fetch.rs:241-246 | under a known prefix an address is refused exactly when the IPv4 address it stands for is not public |
| Nat64.DiscoveryRefusesNonPublic | crates/uwulock-api/src/icon_fetch.rs:222-246 | one well-formed answer among any others makes its prefix known; then an address under it is refused exactly when the IPv4 address in it is not public or another learned prefix refuses it, and exactly for the first reason when this is the only prefix |
| Nat64.BothAnswersDecide | crates/uwulock-api/src/icon_fetch.rs:222-246 | of the usual two answers under one prefix that prefix alone is learned, and the IPv4 address decides |
| Budget.KeptUnlessALimitIsZero | crates/uwulock-api/src/breaches.rs:803-849 | in every run every sliding hour and day, in all and per account, is within its limit, questions are spaced, and none follows a 429 within an hour: exactly when no limit is zero |
| Budget.DefaultLimitsAreKept | crates/uwulock-api/src/breaches.rs:778-782 | with the limits the server has, all of that holds in every run |
| Budget.InvMeansKept | crates/uwulock-api/src/breaches.rs:804-814 | what the pruned state still holds is enough for the whole history: forgetting never loses a question that counts |
| Budget.StepKeepsInv | crates/uwulock-api/src/breaches.rs:976-999 | each look, question and refusal keeps that |
| Budget.WaitIsExact | crates/uwulock-api/src/breaches.rs:817-842 | with nothing else asked the delay runs down one by one: at a later instant it is what is left of it |
| Budget.AskedExactlyWhenFree | crates/uwulock-api/src/breaches.rs:817-842 | nothing has to be waited for exactly when, of all that was ever asked and refused, each refusal is an hour old and fewer questions than each limit lie within the last hour, the last day, and the last day of the account |
| Budget.DelayIsExact | crates/uwulock-api/src/breaches.rs:817-842 | and the delay is to the first instant of which that holds: at no earlier one, and at every later one, with nothing else asked |
| Budget.DropTakesTheOld | crates/uwulock-api/src/breaches.rs:805-813 | popping the front takes exactly those that are a window old |
| Budget.InHourIsTheEnd | crates/uwulock-api/src/breaches.rs:824-829 | those of the last hour are the end of the list, so the first of them is the one whose leaving makes room |
| Budget.BudgetState.constructor | crates/uwulock-api/src/breaches.rs:785-792 | nothing is asked yet |
| Budget.BudgetState.ForgetOld | crates/uwulock-api/src/breaches.rs:804-814 | drops all questions a day old and the accounts left without any, and nothing else |
| Budget.BudgetState.Wait | crates/uwulock-api/src/breaches.rs:817-842 | the longest of the delays of the block and of the three windows |
| Budget.BudgetState.Record | crates/uwulock-api/src/breaches.rs:844-848 | the question counts for the spacing, for the server and for its account only |
| Budget.BudgetState.AskOne | crates/uwulock-api/src/breaches.rs:976-1001 | one address: whether it was asked, what the client is told to wait, and the whole state afterwards, also when the request breaks off while it sleeps or while it asks |
| Budget.BudgetState.AskAll | crates/uwulock-api/src/breaches.rs:975-1024 | a request asks at most five and only extends the run, so all that holds of runs holds of requests, dropped ones included |
| Budget.OneIsAskedExactly | crates/uwulock-api/src/breaches.rs:976-1001 | an address is asked exactly as one of the first five, within 30 seconds, when a question is free; a 429 ends the request with an hour, the budget with its delay in seconds, the five and the 30 seconds with one second |
| Budget.AskedAsSoonAsItMay | crates/uwulock-api/src/breaches.rs:986-989 | it goes out no later than the spacing behind the last question and the delay of the sleep itself ask for |
| Budget.RetryAfterSuffices | crates/uwulock-api/src/breaches.rs:983-986 | when the client comes back as told the budget lets it through, nothing else having been asked, exactly when the delay was under a second or a whole number of seconds |
| Budget.ComesBackTooEarly | crates/uwulock-api/src/breaches.rs:983-986 | a run after which a client that comes back as told has to wait again |
| Budget.AskingIsARun | crates/uwulock-api/src/breaches.rs:975-1024 | the asking loop is a run of looks, questions and refusals |
| XonQueue.Pause | crates/uwulock-api/src/breaches.rs:274-283 | at most the longest pause, at least the spacing if that is shorter, and what `Retry-After` or the doubling asks for in between |
| XonQueue.PauseAsTold | crates/uwulock-api/src/breaches.rs:274-283 | with `Retry-After` the pause is so many seconds, at least the spacing and at most the longest pause |
| XonQueue.PauseDoubles | crates/uwulock-api/src/breaches.rs:274-283 | without it, it is twice the spacing, or two seconds if that is longer, after the first refusal, and doubles with each up to the longest pause; from the 32nd on the factor stays at its top |
| XonQueue.PlacesAreCounted | crates/uwulock-api/src/breaches.rs:310-380 | in every interleaving each account's counter is the number of its live places, at most its share |
| XonQueue.NothingLeftBehindIfAnyMayWait | crates/uwulock-api/src/breaches.rs:312-318 | no counter of zero is ever left exactly when an account may wait at all |
| XonQueue.RunKeepsGaps | crates/uwulock-api/src/breaches.rs:333-360 | in every run each question waits out what the answer before asked for, and one request asks at most once more than it may retry, each time only what was refused |
| XonQueue.NextIsExact | crates/uwulock-api/src/breaches.rs:333-360 | in every run the next question may go out exactly when what the last one that was not dropped asks for has passed: `Retry-After`, the doubled pause, or the spacing; at that instant whoever has the turn and does not wait too long can ask |
| XonQueue.WaitedBetween | crates/uwulock-api/src/breaches.rs:333-360 | and no question begins before that has passed |
| XonQueue.ApartIfPausesAreNotShort | crates/uwulock-api/src/breaches.rs:244-283 | the spacing is kept in every run exactly when the longest pause is no shorter than it, or nothing is asked again |
| XonQueue.WaitedOutIfSpacingIsLong | crates/uwulock-api/src/breaches.rs:343-358 | `Retry-After`, up to the longest pause, is always waited out exactly when the spacing is that long |
| XonQueue.NothingAfterADrop | crates/uwulock-api/src/breaches.rs:341-343 | with requests dropped while they ask, questions stay apart exactly when no spacing is asked for |
| XonQueue.DefaultLimitsKeepTheSpacing | crates/uwulock-api/src/breaches.rs:257-269 | with the limits the server has, the spacing is kept and no zero counter stays, but `Retry-After` is not always waited out |
| XonQueue.AskingIsARun | crates/uwulock-api/src/breaches.rs:333-360 | the loop of one request is a run of single questions |
| XonQueue.AskingIsWhole | crates/uwulock-api/src/breaches.rs:333-360 | a request goes on as long as it is refused and may ask again, and ends only with an answer, without one, with its last refusal, by being dropped, or busy |
| XonQueue.BusyExactly | crates/uwulock-api/src/breaches.rs:334-340 | it is busy exactly when the next question may not go out yet and would come too long after the request began |
| XonQueue.QuestionAsSoonAsItMay | crates/uwulock-api/src/breaches.rs:334-341 | a question goes out when it may, but for how late the sleep ends |
| XonQueue.XonQueue.constructor | crates/uwulock-api/src/breaches.rs:305-307 | nobody waits and the next question may go out now |
| XonQueue.XonQueue.Enter | crates/uwulock-api/src/breaches.rs:310-318 | a place exactly when the account has fewer than its share, and the counter that says so |
| XonQueue.XonQueue.Drop | crates/uwulock-api/src/breaches.rs:370-380 | the place is given back, never below zero, and no zero counter of it stays |
| XonQueue.XonQueue.AskInTurn | crates/uwulock-api/src/breaches.rs:332-360 | what the request is told, and the run it adds, also when it is dropped while it sleeps or asks |
| XonQueue.XonQueue.Ask | crates/uwulock-api/src/breaches.rs:321-361 | busy at once over its share, busy when its turn does not come, else what its turn brings; the place is given back in every case, wherever the request is dropped |
| MergeBreaches.MergeConserves | crates/uwulock-api/src/breaches.rs:565-607 | every (domain, source, name) is in the output as often as in the input, minus exactly the breaches that found neither a twin nor room |
| MergeBreaches.DomainInOutput | crates/uwulock-api/src/breaches.rs:568-598 | per domain at most 100 entries, each the merger of one group of inputs with no source twice; groups and dropped inputs make up the input; only a full domain drops |
| MergeBreaches.EntriesAreMerged | crates/uwulock-api/src/breaches.rs:572-594 | an entry has its group's sources, the most records, the earliest dates, and a class for every class of the group, none twice unless the first of the group names one twice; each of the group was within 90 days of the earliest date before it |
| MergeBreaches.NoTwinsLeft | crates/uwulock-api/src/breaches.rs:562-563 | of two lists of one source each, no two entries left for a domain that share no source are within 90 days of each other |
| MergeBreaches.TogetherMeansClose | crates/uwulock-api/src/breaches.rs:571-578 | and nothing else is put together: an entry is one breach, or one of each source with at most 90 days between them |
| MergeBreaches.MergeIsOrdered | crates/uwulock-api/src/breaches.rs:600-606 | ordered by domain, then date, then title |
| MergeBreaches.OrderMeans | crates/uwulock-api/src/breaches.rs:600-606 | that order, spelled out: those without a date come first |
| MergeBreaches.SortIsStable | crates/uwulock-api/src/breaches.rs:600-606 | breaches with one date and one title stay in the order they came |
| MergeBreaches.AbsorbTwin | crates/uwulock-api/src/breaches.rs:580-593 | the field-by-field update is the merger the lemmas speak of |
| MergeBreaches.PlaceOne | crates/uwulock-api/src/breaches.rs:570-597 | a breach goes to its first twin, or to a place of its own, or is dropped |
| MergeBreaches.Gather | crates/uwulock-api/src/breaches.rs:566-599 | each domain has its breaches placed in the order they came |
| MergeBreaches.Merge | crates/uwulock-api/src/breaches.rs:565-607 | the output is ordered, conserves every name but those of the dropped breaches, and is the sorted blocks of all domains |
| Text.Least | crates/uwulock-api/src/breaches.rs:600-601 | the key an ordered map comes to next |
| Text.LessIsFirstDifference | crates/uwulock-api/src/breaches.rs:600-606 | one text comes before another exactly when it is a beginning of it or has the smaller character where they first differ |
| Text.SameButForCase | crates/uwulock-api/src/breaches.rs:583-587 | two texts are the same without regard to case exactly when they have one length and each two letters are equal or 32 apart as ASCII letters |
| Alerts.RunTells | crates/uwulock-api/src/alerts.rs:322-448 | in every run of a channel's state the messages about an event tell start, over, start, over; what is announced is going on; no message is taken twice or before an earlier one |
| Alerts.RunKeeps | crates/uwulock-api/src/alerts.rs:322-448 | in every run two starts of an event are an hour apart; the queue is the log without those that left, each taken, a day old or mail without a server; no try comes before its pause is over |
| Alerts.TickKeeps | crates/uwulock-api/src/alerts.rs:324-389 | after a tick exactly the found events are going on, and nothing in the queue is a day old |
| Alerts.TickTells | crates/uwulock-api/src/alerts.rs:362-387 | a start is queued exactly when the channel wants it and had none within the hour, an end exactly when its start was announced, each with its text, and nothing else |
| Alerts.GoesOnSince | crates/uwulock-api/src/alerts.rs:335-347 | an event that is found goes on since it was found first, with what was found last |
| Alerts.ListedTexts | crates/uwulock-api/src/alerts.rs:325-334 | a start is told with what was found, an end with what was found last |
| Alerts.RetainDropsOldest | crates/uwulock-api/src/alerts.rs:388-388 | what is given up is the front of the queue: exactly what is a day old |
| Alerts.PauseIsBackoff | crates/uwulock-api/src/alerts.rs:437-439 | after the n-th failure in a row the pause is min(60*2^(n-1), 3600) seconds exactly when n is neither 63 nor 64; up to 59 nothing overflows |
| Alerts.NoPauseIsReached | crates/uwulock-api/src/alerts.rs:436-440 | runs with 63 and with 64 failures in a row, after which the next try may follow at once |
| Alerts.WordIsRightUnlessItReturnsSoon | crates/uwulock-api/src/alerts.rs:362-387 | for a channel that wants an event all the time, its last message tells of a start just while the event goes on, exactly when the event never starts again within an hour of a start that was told |
| Alerts.ReturnIsNotTold | crates/uwulock-api/src/alerts.rs:366-368 | a run in which an event is back after a minute and the last word is that it is over |
| Alerts.AlternatesMeans | crates/uwulock-api/src/alerts.rs:369-386 | telling the opposite of the last message each time is telling starts and ends in turn, beginning with a start |
| Alerts.LeftTakenIsInOrder | crates/uwulock-api/src/alerts.rs:429-434 | messages leave by being taken in the order they were queued |
| Alerts.DeliveryIsTries | crates/uwulock-api/src/alerts.rs:406-447 | delivering is a run of single tries, each when its turn has come |
| Alerts.DeliveryIsWhole | crates/uwulock-api/src/alerts.rs:406-447 | and the whole of it: the first n messages were taken, by n sends that worked, and then the queue is empty, or send n failed and is booked as the next failure, or nothing was sent as the pause is not over |
| Alerts.DeliverDelivers | crates/uwulock-api/src/alerts.rs:397-448 | the same of a channel, whose queue is emptied unsent if it is mail without a server |
| Alerts.TickIsARun | crates/uwulock-api/src/alerts.rs:310-394 | a whole tick, seen from a channel that hears of it, is a run of its life |
| Alerts.ToldAllMeans | crates/uwulock-api/src/alerts.rs:359-389 | every channel that hears of anything is told once, from its own state or one with nothing told and nothing queued, and no other is |
| Alerts.ListChanges | crates/uwulock-api/src/alerts.rs:325-334 | the events with their texts, each once, in order |
| Alerts.Tell | crates/uwulock-api/src/alerts.rs:360-388 | the loops over what started and ended make the new state of the channel |
| Alerts.Alerts.constructor | crates/uwulock-api/src/alerts.rs:115-123 | nothing is going on, nobody was told |
| Alerts.Alerts.Compare | crates/uwulock-api/src/alerts.rs:324-347 | what started, what ended, and the events going on, which keep the time they began |
| Alerts.Alerts.QueueAll | crates/uwulock-api/src/alerts.rs:355-390 | exactly the channels that are enabled and are either mail or heard as others have a state, each told |
| Alerts.Alerts.Deliver | crates/uwulock-api/src/alerts.rs:397-448 | this channel's state only: emptied for mail without a server, else what `DeliveryIsWhole` says |
| Alerts.Alerts.DeliverAll | crates/uwulock-api/src/alerts.rs:391-393 | every channel gets its own delivery and no other's |
| Alerts.Alerts.Tick | crates/uwulock-api/src/alerts.rs:310-394 | the whole state after a tick: events, channels, queues and retries, each queue sent as far as `DeliveryIsWhole` says |
| Counters.RaiseLower | crates/uwulock-api/src/files.rs:127-143 | raising and lowering change one counter by one, leave no zero, and undo each other |
| Uploads.RunKeepsBooks | crates/uwulock-api/src/files.rs:93-147 | in every interleaving each counter is the number of live uploads with its key, and no key has more than 4 |
| Uploads.ReservedRightIfItFits | crates/uwulock-api/src/files.rs:123-136 | the reserved bytes are the sum of the live uploads' all through a run exactly when that sum fits 64 bits all the time |
| Uploads.KnownDisksFit | crates/uwulock-api/src/files.rs:123-126 | it always fits where the disk could always be asked and not all of 2^64 bytes were free |
| Uploads.SmallUploadsFit | crates/uwulock-api/src/files.rs:123-136 | it always fits where no upload announces more than a size and no more than a number run at once, the two together below 2^64, whatever is known of the disks |
| Uploads.ServerUploadsFit | crates/uwulock-api/src/file_requests.rs:586-665 | so it does for the sizes the server admits, 4096 MB as encrypted, with fewer than 2^31 uploads at once |
| Uploads.UnknownDiskWraps | crates/uwulock-api/src/files.rs:123-126 | a run with unknown disks in which two uploads of 2^63 bytes are booked as none |
| Uploads.NothingLeftBehind | crates/uwulock-api/src/files.rs:134-147 | when the last upload has ended the books are empty, whatever was announced |
| Uploads.OnePerFileUnlessNamed | crates/uwulock-api/src/files.rs:114-119 | a file has at most one upload in every run exactly when no account id begins with `file:` |
| Uploads.FileNameBreaksOnePerFile | crates/uwulock-api/src/files.rs:94-102 | a run in which such an account has two uploads under a file's counter |
| Uploads.AdmittedHasRoom | crates/uwulock-api/src/files.rs:107-131 | in every run in which what is announced fits 64 bits a file upload is refused exactly for a live upload of the file, for four live ones of the request, or for a known disk with less free than all that is announced with it and a margin of a twentieth, at least 256 MB, in that order, and else admitted |
| Uploads.UserAdmittedExactly | crates/uwulock-api/src/files.rs:94-102 | in every run an upload of an account is admitted exactly when fewer than four live ones carry its id |
| Uploads.WithoutOne | crates/uwulock-api/src/files.rs:136-145 | one upload less is its bytes and its keys less |
| Uploads.Uploads.constructor | crates/uwulock-api/src/files.rs:74-84 | nothing is running |
| Uploads.Uploads.Begin | crates/uwulock-api/src/files.rs:94-102 | refused exactly at four of the account, and then nothing changes but an entry that is there already |
| Uploads.Uploads.BeginFile | crates/uwulock-api/src/files.rs:107-131 | refused for the file, the request or the room in that order, else counted and reserved in one step |
| Uploads.Uploads.End | crates/uwulock-api/src/files.rs:134-147 | the books without this upload, with no decrement below zero |
| Publish.Receive | crates/uwulock-api/src/files.rs:164-225 | an upload is taken exactly when the form has few parts, all complete and small enough, one of them the file; then with its complete bytes and fields |
| Publish.TakePart | crates/uwulock-api/src/files.rs:177-211 | a part is taken exactly when all of it came in time and within its limit |
| Publish.ReadPart | crates/uwulock-api/src/files.rs:187-208 | reading stops at the first piece over the limit and loses nothing below it |
| Publish.WriteOnce | crates/uwulock-api/src/files.rs:164-239 | in every interleaving a published place holds, from then on, one upload's file: its form is one `Receive` takes, and the file is the whole of its file part, byte for byte |
| Publish.OnlyErrorsRefuse | crates/uwulock-api/src/files.rs:177-225 | the steps of an upload whose form `Receive` takes end in failure only by an error of the machine |
| Publish.OnlyOneKept | crates/uwulock-api/src/files.rs:229-239 | two uploads published at one place are the same one |
| Publish.LinkPublishes | crates/uwulock-api/src/files.rs:229-239 | linking at a free place publishes the whole file there; at a place that is taken nothing changes and nothing is published |
| Publish.KeptIfPublished | crates/uwulock-api/src/files.rs:229-244 | an upload is told it was kept exactly if it is published, and removing its partial file takes no published one |
| Publish.HiddenFileLeft | crates/uwulock-api/src/files.rs:216-244 | an upload kept, refused or discarded has left its partial file exactly when that was there and could not be removed |
| Publish.NoHiddenFileIfRemovalsWork | crates/uwulock-api/src/files.rs:216-244 | in a run in which every removal works no upload that is over has a partial file |
| Publish.RunKeepsFiles | crates/uwulock-api/src/files.rs:164-244 | the partial files are exactly those of the uploads that are not over and those that could not be removed, each holding the pieces up to here; each published place names its upload |
| NearestDomain.Walk | crates/uwulock-api/src/icon_db.rs:154-166 | the walk ends at the longest label suffix of the host that is known and not above the registrable domain, the host alone where it has none, and finds nothing exactly when there is none |
| NearestDomain.NearestIsUnique | crates/uwulock-api/src/icon_db.rs:154-166 | that suffix is one name |
| NearestDomain.NotAboveTheBase | crates/uwulock-api/src/icon_db.rs:162-162 | comparing lengths is asking whether the name is at or below the base domain |
| NearestDomain.NothingBetween | crates/uwulock-api/src/icon_db.rs:161-162 | going to the parent passes no label suffix by |
| IconPack.FromLeToLe | crates/uwulock-api/src/icon_db.rs:110-111 | reading four little-endian bytes undoes writing them, the lowest octet first |
| IconPack.BuildIsTiled | crates/uwulock-api/src/icon_db.rs:305-316 | whatever was written, the entries tile the blobs without gap or overlap and are the different icons in the order they came |
| IconPack.IconAnswersItsNumber | crates/uwulock-api/src/icon_db.rs:305-316 | equal bytes get the same number, the place of that icon among the different ones |
| IconPack.ParseUndoesFinish | crates/uwulock-api/src/icon_db.rs:108-138 | a finished pack is read back whole exactly when every name in it points to an icon in it |
| IconPack.PackIsRead | crates/uwulock-api/src/icon_db.rs:108-138 | with numbers the writer handed out it is always read |
| IconPack.IconReadBack | crates/uwulock-api/src/icon_db.rs:140-149 | icon n of the pack is the n-th of the different icons, with its first kind |
| IconPack.AcceptedExactly | crates/uwulock-api/src/icon_db.rs:108-138 | whoever wrote it, a pack whose index can be read is accepted exactly when every icon lies inside it and every domain, name and library entry points to an icon |
| IconPack.AcceptedAnswers | crates/uwulock-api/src/icon_db.rs:140-149 | then every icon, domain, name and library id in it is answered, and with the bytes at its place |
| IconPack.PicturesGrow | crates/uwulock-api/src/icon_db.rs:305-316 | later calls leave the icons there are and their numbers alone |
| IconPack.AnsweredStays | crates/uwulock-api/src/icon_db.rs:305-316 | at the end the number an icon was answered is still that of an icon with its bytes |
| IconPack.PackRoundTrip | crates/uwulock-api/src/icon_db.rs:318-347 | the bytes an icon was given with come back, after writing and parsing, for every domain and name whose first number is the one answered for it, with the first kind they were given with |
| IconPack.LookupReadBack | crates/uwulock-api/src/icon_db.rs:318-347 | a domain or a name yields the icon of the first number given for it, or nothing where none was |
| IconPack.FirstGivenStays | crates/uwulock-api/src/icon_db.rs:318-326 | of several icons for one domain or name the first counts |
| IconPack.LibraryRoundTrip | crates/uwulock-api/src/icon_db.rs:127-127 | a library id yields the icon of the last entry given for it |
| IconPack.LastLibraryEntryCounts | crates/uwulock-api/src/icon_db.rs:127-127 | of several entries with one id the last is found |
| IconPack.FirstLibraryEntryCounts | crates/uwulock-api/src/icon_db.rs:127-127 | after writing and parsing, an id yields the icon of its first entry exactly when its first and last entry name the same icon |
| IconPack.FirstLibraryEntryLost | crates/uwulock-api/src/icon_db.rs:127-127 | two different icons under one id, of which the written and parsed pack yields the second |
| IconPack.Writer.constructor | crates/uwulock-api/src/icon_db.rs:292-302 | an empty pack |
| IconPack.Writer.Icon | crates/uwulock-api/src/icon_db.rs:305-316 | a digest seen before adds nothing and answers its number |
| IconPack.Writer.Domain | crates/uwulock-api/src/icon_db.rs:319-321 | the first icon given for a domain stays |
| IconPack.Writer.Name | crates/uwulock-api/src/icon_db.rs:324-326 | the first icon given for a name stays |
| IconPack.Writer.Library | crates/uwulock-api/src/icon_db.rs:328-330 | every entry is kept, in order |
| IconPack.ByDomain | crates/uwulock-api/src/icon_db.rs:154-166 | the icon of the nearest known domain, or none |
| IconCache.Prune | crates/uwulock-api/src/icons.rs:637-677 | what is expired goes, then the oldest first, as few as get the rest within both targets; the answer is what is left of the unexpired |
| IconCache.PrunedFits | crates/uwulock-api/src/icons.rs:663-675 | with removals succeeding, what is left is within both targets |
| IconCache.OldestWent | crates/uwulock-api/src/icons.rs:664-675 | nothing kept that could have gone is older than anything evicted |
| IconCache.NotOneMore | crates/uwulock-api/src/icons.rs:665-668 | no shorter prefix would have met both targets |
| IconCache.AnswerIsExact | crates/uwulock-api/src/icons.rs:654-676 | the answer is what the directory holds exactly when all that was expired could be removed |
| IconCache.StuckIsNotAnswered | crates/uwulock-api/src/icons.rs:654-676 | an icon that is too old and cannot be removed stays and is not in the answer |
| IconCache.DropExpired | crates/uwulock-api/src/icons.rs:642-661 | exactly the expired that can be removed are, and the rest is listed, whatever order the directory has |
| IconCache.GoneExactly | crates/uwulock-api/src/icons.rs:642-661 | a file counts as expired exactly when it is an icon over 30 days old, a "none" over 3, or a temporary file over a day, and a file from the future never does |
| IconCache.RemoveOldest | crates/uwulock-api/src/icons.rs:662-675 | counting down agrees with what is left, and stops as soon as it fits |
| IconCache.BookAfterWrite | crates/uwulock-api/src/icons.rs:239-264 | starting right, the book is right after a write exactly when the write worked and the other file went, or the failure left the files and bytes that were to be |
| IconCache.FailedWriteIsBooked | crates/uwulock-api/src/icons.rs:239-264 | the first write for a host, if it fails and leaves nothing, makes the book wrong in any directory |
| IconCache.RunKeepsBook | crates/uwulock-api/src/icons.rs:229-296 | in every run with writes and removals succeeding, the book is the directory's files and bytes and no host has both its files |
| IconCache.KeepKeeps | crates/uwulock-api/src/icons.rs:229-270 | after a keep the cache is within both ceilings and no other host got anything; if all fits, just what was kept was added and only the host's other file went; where an eviction runs and everything else is older, the host has what was kept exactly when it alone is within the targets |
| IconCache.NewestStays | crates/uwulock-api/src/icons.rs:662-675 | an eviction leaves the newest file exactly when that file alone is within the targets |
| IconCache.KeptIsSaid | crates/uwulock-api/src/icons.rs:218-227 | what `KeepKeeps` leaves is answered as it was given for 30 or 3 days, not longer, and nothing else is |
| IconCache.ExpiredSaysNothing | crates/uwulock-api/src/icons.rs:649-659 | throwing away what is expired never changes an answer |
| IconCache.CacheSize | crates/uwulock-api/src/icons.rs:459-471 | counting file by file gives the directory's files and bytes |
| IconCache.FilesAreCounted | crates/uwulock-api/src/icons.rs:459-471 | the files counted are as many as there are names |
| IconCache.Icons.constructor | crates/uwulock-api/src/icons.rs:65-70 | nothing is counted yet |
| IconCache.Icons.Counted | crates/uwulock-api/src/icons.rs:273-279 | counts on disk the first time only |
| IconCache.Icons.Evict | crates/uwulock-api/src/icons.rs:284-296 | down to 80 percent of both ceilings, and the book is what pruning answered |
| IconCache.Icons.Keep | crates/uwulock-api/src/icons.rs:229-270 | without room nothing changes; else the directory, the book and the eviction, also when removing or writing fails |
| Emergency.AccessIsGrantedIfWritesAreApart | crates/uwulock-api/src/emergency.rs:449-520 | in every interleaving the check of a view or a takeover passes only if this contact accepted with the invited address, this grantor confirmed, and last of all this contact asked and this grantor approved or the wait ran out: exactly when writes to a grant never share a microsecond |
| Emergency.TakeoversWereGrantedIfWritesAreApart | crates/uwulock-api/src/emergency.rs:513-542 | every access taken was granted so when it was checked, under exactly the same condition |
| Emergency.TakenIfItStillStands | crates/uwulock-api/src/emergency.rs:520-542 | in every run in which no two writes were given the same revision, an access is granted still when it is taken, and to the same contact, exactly when in between the grant was not removed, not refused without being approved anew, and not made one of another kind |
| Emergency.TakenAfterRefusal | crates/uwulock-api/src/emergency.rs:520-542 | however far apart writes are, a run in which the grantor refuses between the check and the writing of the password |
| Emergency.ContactStaysIfWritesAreApart | crates/uwulock-api/src/emergency.rs:321-351 | the contact once set never changes, under exactly the same condition |
| Emergency.GrantedIfRevisionsDiffer | crates/uwulock-api/src/emergency.rs:449-542 | whatever the clock does, in a run in which no two writes were given the same revision, checks pass only on what was granted, every access taken was granted when checked, and the contact stays |
| Emergency.GrantedMay | crates/uwulock-api/src/emergency.rs:449-456 | while the grant is there, having been granted and being let through are the same |
| Emergency.RunKeepsRowsRight | crates/uwulock-api/src/emergency.rs:321-446 | in every run, whatever the clock, the contact is set exactly past the invitation, a key is there from the confirmation on, and the time of asking is set exactly while asked or approved |
| Emergency.ApprovedAfterRefusal | crates/uwulock-store/src/emergency.rs:144-169 | a run within one microsecond in which an approval undoes a refusal it never saw |
| Emergency.ContactLost | crates/uwulock-store/src/emergency.rs:144-169 | one in which a second invitation undoes the acceptance |
| Emergency.RequestIsStep | crates/uwulock-api/src/emergency.rs:198-204 | a request with a copy of any age is one step of its grant's run and leaves other grants alone |
| Emergency.WaitIsStep | crates/uwulock-store/src/emergency.rs:178-201 | so is the hourly approval |
| Emergency.ReminderIsStep | crates/uwulock-store/src/emergency.rs:205-222 | so is a reminder |
| Emergency.RotationIsStep | crates/uwulock-store/src/emergency.rs:227-250 | so is a rotation of keys |
| Emergency.NobodyWaitsTooLong | crates/uwulock-store/src/emergency.rs:178-201 | after the hourly approval no grant is left asked for whose wait is over, and a grant becomes approved exactly when it was asked for and its wait is over |
| Emergency.WaitLetsIn | crates/uwulock-store/src/emergency.rs:178-201 | in every run in which no two writes were given the same revision, whoever asked last is let in by the next hourly approval exactly from the end of the wait on |
| Emergency.FirstReminder | crates/uwulock-store/src/emergency.rs:205-222 | the grantor is reminded for the first time by the first round more than a day after the asking |
| Emergency.WayToAccess | crates/uwulock-api/src/emergency.rs:258-432 | the steps from the invitation to the access are open exactly to those they are for: the right account at each, a fresh invitation with its address and token, a key that is not too long |
| Emergency.NewTokenCounts | crates/uwulock-api/src/emergency.rs:258-265 | the grantor alone renews an invitation, while it waits; from then on only the new token opens it |
| Emergency.RefusedStartsAnew | crates/uwulock-api/src/emergency.rs:434-446 | the grantor alone refuses, also after a yes; then the contact may ask anew, and waits from then |
| Emergency.NewTermsCount | crates/uwulock-api/src/emergency.rs:278-293 | new terms count at once, also for a request under way: kind, wait and a key that is given |
| Emergency.Store.constructor | crates/uwulock-store/src/emergency.rs:61-61 | no grants |
| Emergency.SavedIfNothingWasWritten | crates/uwulock-store/src/emergency.rs:144-169 | where no two writes were given the same revision, a request on a copy of any age is written exactly when the grant is still what was loaded, reminders aside, and else changes nothing |
| Emergency.Store.Save | crates/uwulock-store/src/emergency.rs:144-169 | written with a new revision exactly when the row is there with the copy's revision |
| Emergency.Store.Reinvites | crates/uwulock-api/src/emergency.rs:258-265 | a new token for an invitation of one's own that waits |
| Emergency.Store.Accepts | crates/uwulock-api/src/emergency.rs:321-351 | the contact and the status are set exactly when the invitation waits, is fresh, is for the address, and the token, if any, is right |
| Emergency.Store.Confirms | crates/uwulock-api/src/emergency.rs:359-376 | the grantor's key for an accepted contact |
| Emergency.Store.Initiates | crates/uwulock-api/src/emergency.rs:379-419 | the contact of a confirmed grant asks, with the time of asking |
| Emergency.Store.Approves | crates/uwulock-api/src/emergency.rs:421-432 | the grantor's yes to what was asked |
| Emergency.Store.Rejects | crates/uwulock-api/src/emergency.rs:434-446 | the grantor's no, also after a yes, takes the time of asking back |
| Emergency.Store.Updates | crates/uwulock-api/src/emergency.rs:278-293 | new terms within their bounds; an empty key leaves the old one |
| Emergency.Store.ApproveWaited | crates/uwulock-store/src/emergency.rs:178-201 | approves exactly those whose wait, as it is now, is over |
| Emergency.Store.RemindWaiting | crates/uwulock-store/src/emergency.rs:205-222 | marks exactly those asked for and not reminded for a day, and no revision |
| Emergency.Store.RotateKeys | crates/uwulock-store/src/emergency.rs:227-250 | all contacts holding a key get a new one, or nothing changes |
| Certificate.SplitExactly | crates/uwulock-api/src/certificate.rs:110-124 | splitting succeeds exactly on a definite-length encoding followed by anything, with exactly its tag, content and rest |
| Certificate.SplitUndoesEncoding | crates/uwulock-api/src/certificate.rs:110-124 | it undoes every length form of section 8.1.3 of X.690 for contents under 2^32 bytes |
| Certificate.SplitLosesNothing | crates/uwulock-api/src/certificate.rs:110-124 | tag, length, content and rest are the input, and at least two bytes are used up |
| Certificate.DerLengthIsLength | crates/uwulock-api/src/certificate.rs:113-122 | the shortest length octets are among those forms |
| Certificate.WalkFindsNotAfter | crates/uwulock-api/src/certificate.rs:127-141 | in any certificate laid out by section 4.1 of RFC 5280 the walk reaches the second time of the validity, with the version field or without |
| Certificate.UtcTimeRead | crates/uwulock-api/src/certificate.rs:145-160 | two digits of the year are read with the pivot of section 4.1.2.5.1, to the second, and nothing if there is no such time |
| Certificate.GeneralizedTimeRead | crates/uwulock-api/src/certificate.rs:149-160 | four digits are read as they are, and nothing if there is no such time |
| Certificate.NotAfterReadBack | crates/uwulock-api/src/certificate.rs:127-161 | of any such certificate, whatever follows it, exactly the encoded end of validity is read, and nothing exactly if the calendar or the clock has no such time |
| Certificate.OnlyTimesAreRead | crates/uwulock-api/src/certificate.rs:143-152 | of what is tagged otherwise, or too short, nothing is read |
| Certificate.Utf8Exactly | crates/uwulock-api/src/certificate.rs:142-142 | the bytes pass as UTF-8 exactly when they are the encoding of a text of Unicode scalar values |
| Certificate.NumbersExactly | crates/uwulock-api/src/certificate.rs:144-152 | a field is a number exactly when it is digits, or digits behind a plus, and for the two-digit year behind a minus |
| Certificate.SignsRead | crates/uwulock-api/src/certificate.rs:144-152 | a plus changes nothing; behind a minus the year counts down from 2000, and any other field is none |
| Certificate.NotAfter | crates/uwulock-api/src/certificate.rs:127-161 | the loop and the reading of fields give what the lemmas speak of, or nothing where the source gives nothing |
| Calendar.DaysCountUp | crates/uwulock-api/src/certificate.rs:153-160 | days are numbered one by one from 1970-01-01 on, through every month's end and leap year |
| Calendar.YearLength | crates/uwulock-api/src/certificate.rs:153-158 | a year has 366 days exactly when the Gregorian rule says so |
| Calendar.MonthLength | crates/uwulock-api/src/certificate.rs:153-160 | a month has its length by the table of twelve, February one day more in a leap year |
| Calendar.MonthBegins | crates/uwulock-api/src/certificate.rs:153-160 | a month begins (367 m - 362) / 12 days into the year, less one or two after February |
| Calendar.DayNumberIsCivil | crates/uwulock-api/src/certificate.rs:153-160 | the number of a day is that of the era formula, with years from March |

## Left out

- SvgExpansion.Small: starts at the graph of elements; reading XML, the checks of style, markers and images, and finding the targets in attributes are not modelled.
- The graph of an SVG is closed: every part is an element of the document, as the source looks targets up among its elements.
- Names that icon hosts resolve to, redirects, the HTTP client and the list of allowed test addresses around `public_v4` and `public_v6`.
- Budget.BudgetState.AskAll: an answer from the cache, an answer that cannot be read and a failed write of the cache end or skip an address without touching the budget; they are not told apart. Waiting for the lock itself is not modelled.
- Budget.KeptUnlessALimitIsZero: a 429 counts when the program has seen it; one lost with a request that is dropped while it asks sets no block.
- XonQueue: reading the count out of an answer; the fairness of the lock; a counter of attempts past 2^32.
- MergeBreaches: reading the sources' lists; the days between two dates are a parameter, the sort is an insertion.
- Alerts: how findings are evaluated, mail texts and the ways of sending; a channel removed while a message to it is on its way; the last error and last success shown in the portal; a counter of failures past 2^32.
- Alerts.Alerts.QueueAll: channel ids are unique, as in the store's table.
- Uploads.AdmittedHasRoom: for a disk whose free bytes are known and not all of 2^64; to one that is not known everything is admitted.
- Uploads.ServerUploadsFit: that sizes are checked when a submission is made, and that the setting is at most 4096 MB, is taken from `file_requests.rs` and `settings.rs`, which are not part of this model.
- Publish.HiddenFileLeft: an upload whose request is dropped stays unfinished, with its partial file.
- The nightly sweep over upload folders (`files.rs:339-370`), which takes such files after a week. The random name of a partial file is taken to be new.
- IconPack: JSON text and SHA-256 are parameters, the first undone by its parser, the second without collisions among the icons given; `by_name` is a lookup after lower-casing; icon counts and lengths fit 32 bits.
- NearestDomain.Walk: the registrable domain by the Public Suffix List is a parameter; `NearestDomain.NotAboveTheBase` needs it to be a label suffix of the host.
- IconCache: two keeps at once for different hosts; directories and unreadable entries in the cache's folder; the check of free disk space is a parameter; a hash of the host stands for the host.
- Emergency: mails, notices and limits on invitations; looking an account up is a parameter; grants brought over from another server.
- Emergency.AccessIsGrantedIfWritesAreApart: for a clock that never goes back. The wait that counts is the one the grantor has set when it is over, by the clock there is then.
- Certificate.NotAfter: the library's check of a date and UTF-8 are written out, not taken from the library; signatures are not looked at.
- The request handlers for accounts, folders, families, health and branding.
