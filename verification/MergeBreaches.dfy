/**
 The lists of breached sites as one. A breach that two sources list for one domain within ninety
 days is one entry with both names; a domain has at most a hundred entries. How many days lie
 between two dates is a parameter: reading dates is the library's.
 */
module MergeBreaches {
  import opened Prelude
  import opened Text

  const MOST_PER_DOMAIN: nat := 100
  const SAME_BREACH_DAYS: nat := 90

  datatype Breach = Breach(domain: string, title: string, date: Option<string>, added: Option<string>, records: nat,
                           passwords: bool, classes: seq<string>, sources: map<string, string>)

  type Days = (string, string) -> Option<nat>

  // ----- One domain -----

  predicate Close(a: Option<string>, b: Option<string>, between: Days) {
    && a.Some? && b.Some?
    && between(a.value, b.value).Some? && between(a.value, b.value).value <= SAME_BREACH_DAYS
  }

  predicate Twin(known: Breach, breach: Breach, between: Days) {
    (forall s | s in breach.sources :: s !in known.sources) && Close(known.date, breach.date, between)
  }

  function FindTwin(same: seq<Breach>, breach: Breach, between: Days): (at: Option<nat>)
    ensures at.Some? ==> at.value < |same| && Twin(same[at.value], breach, between)
    ensures at.Some? ==> forall i | 0 <= i < at.value :: !Twin(same[i], breach, between)
    ensures at.None? ==> forall i | 0 <= i < |same| :: !Twin(same[i], breach, between)
  {
    if same == [] then None
    else if Twin(same[0], breach, between) then Some(0)
    else
      var rest := FindTwin(same[1..], breach, between);
      if rest.None? then None else Some(rest.value + 1)
  }

  predicate Covered(classes: seq<string>, c: string) {
    exists seen | seen in classes :: SameIgnoringCase(seen, c)
  }

  function AddClass(classes: seq<string>, c: string): seq<string> {
    if Covered(classes, c) then classes else classes + [c]
  }

  function AddClasses(classes: seq<string>, more: seq<string>): seq<string>
    decreases |more|
  {
    if more == [] then classes else AddClasses(AddClass(classes, more[0]), more[1..])
  }

  function Absorb(known: Breach, breach: Breach): Breach {
    known.(sources := known.sources + breach.sources,
           records := Max(known.records, breach.records),
           passwords := known.passwords || breach.passwords,
           classes := AddClasses(known.classes, breach.classes),
           date := if LessOption(breach.date, known.date) then breach.date else known.date,
           added := if known.added.None? || (breach.added.Some? && LessOption(breach.added, known.added)) then breach.added
                    else known.added)
  }

  /** Without a twin, a breach is a new entry while there is room. */
  predicate Lost(same: seq<Breach>, breach: Breach, between: Days) {
    FindTwin(same, breach, between).None? && |same| >= MOST_PER_DOMAIN
  }

  function Place(same: seq<Breach>, breach: Breach, between: Days): seq<Breach> {
    match FindTwin(same, breach, between)
    case Some(at) => same[at := Absorb(same[at], breach)]
    case None => if |same| < MOST_PER_DOMAIN then same + [breach] else same
  }

  function Placed(breaches: seq<Breach>, between: Days): seq<Breach> {
    if breaches == [] then []
    else Place(Placed(breaches[..|breaches| - 1], between), breaches[|breaches| - 1], between)
  }

  function OfDomain(breaches: seq<Breach>, domain: string): seq<Breach> {
    if breaches == [] then []
    else
      var last := breaches[|breaches| - 1];
      OfDomain(breaches[..|breaches| - 1], domain) + (if last.domain == domain then [last] else [])
  }

  /** Those that found neither a twin nor room when their turn came. */
  ghost function Dropped(breaches: seq<Breach>, between: Days): seq<Breach> {
    if breaches == [] then []
    else
      var front, last := breaches[..|breaches| - 1], breaches[|breaches| - 1];
      Dropped(front, between) + (if Lost(Placed(OfDomain(front, last.domain), between), last, between) then [last] else [])
  }

  // ----- Conservation -----

  /** A source's name for a breach of a domain. */
  datatype Item = Item(domain: string, source: string, name: string)

  ghost predicate Carries(breach: Breach, item: Item) {
    breach.domain == item.domain && item.source in breach.sources && breach.sources[item.source] == item.name
  }

  /** How often `breaches` carry `item`. */
  ghost function Count(breaches: seq<Breach>, item: Item): nat {
    if breaches == [] then 0
    else Count(breaches[..|breaches| - 1], item) + (if Carries(breaches[|breaches| - 1], item) then 1 else 0)
  }

  lemma {:induction false} CountUpdate(same: seq<Breach>, at: nat, breach: Breach, item: Item)
    requires at < |same|
    ensures Count(same[at := breach], item) + (if Carries(same[at], item) then 1 else 0)
         == Count(same, item) + (if Carries(breach, item) then 1 else 0)
  {
    var last := |same| - 1;
    if at == last {
      assert same[at := breach][..last] == same[..last];
    } else {
      CountUpdate(same[..last], at, breach, item);
      assert same[at := breach][..last] == same[..last][at := breach];
    }
  }

  lemma {:induction false} CountConcat(a: seq<Breach>, b: seq<Breach>, item: Item)
    ensures Count(a + b, item) == Count(a, item) + Count(b, item)
  {
    if b == [] {
      assert a + b == a;
    } else {
      CountConcat(a, b[..|b| - 1], item);
      assert (a + b)[..|a + b| - 1] == a + b[..|b| - 1];
    }
  }

  ghost predicate AllOf(breaches: seq<Breach>, domain: string) {
    forall i | 0 <= i < |breaches| :: breaches[i].domain == domain
  }

  lemma {:induction false} PlacedOfDomain(breaches: seq<Breach>, domain: string, between: Days)
    requires AllOf(breaches, domain)
    ensures AllOf(Placed(breaches, between), domain)
    ensures |Placed(breaches, between)| <= MOST_PER_DOMAIN
  {
    if breaches != [] {
      PlacedOfDomain(breaches[..|breaches| - 1], domain, between);
    }
  }

  /** Placing one breach: what it carries is kept, unless it is lost. */
  lemma PlaceConserves(same: seq<Breach>, breach: Breach, between: Days, item: Item)
    requires AllOf(same, breach.domain)
    ensures Count(Place(same, breach, between), item)
         == Count(same, item) + (if Carries(breach, item) && !Lost(same, breach, between) then 1 else 0)
  {
    match FindTwin(same, breach, between)
    case Some(at) => CountUpdate(same, at, Absorb(same[at], breach), item);
    case None =>
      assert (same + [breach])[..|same|] == same;
  }

  lemma {:induction false} OfDomainAll(breaches: seq<Breach>, domain: string)
    ensures AllOf(OfDomain(breaches, domain), domain)
    ensures forall b | b in OfDomain(breaches, domain) :: b in breaches
    ensures forall b | b in breaches && b.domain == domain :: b in OfDomain(breaches, domain)
  {
    if breaches != [] {
      var front, last := breaches[..|breaches| - 1], breaches[|breaches| - 1];
      OfDomainAll(front, domain);
      assert breaches == front + [last];
    }
  }

  lemma OneMoreDropped(front: seq<Breach>, last: Breach, between: Days, item: Item)
    ensures Count(Dropped(front + [last], between), item)
         == Count(Dropped(front, between), item)
          + (if Carries(last, item) && Lost(Placed(OfDomain(front, last.domain), between), last, between) then 1 else 0)
  {
    var all := front + [last];
    assert all[..|all| - 1] == front;
    CountConcat(Dropped(front, between), [last], item);
    assert [last][..0] == [];
    assert Dropped(front, between) + [] == Dropped(front, between);
  }

  lemma OneMorePlaced(front: seq<Breach>, last: Breach, between: Days, item: Item)
    ensures Count(Placed(OfDomain(front + [last], item.domain), between), item)
         == Count(Placed(OfDomain(front, item.domain), between), item)
          + (if Carries(last, item) && !Lost(Placed(OfDomain(front, last.domain), between), last, between) then 1 else 0)
  {
    var all := front + [last];
    assert all[..|all| - 1] == front;
    if last.domain == item.domain {
      var mine := OfDomain(front, last.domain);
      OfDomainAll(front, last.domain);
      PlacedOfDomain(mine, last.domain, between);
      PlaceConserves(Placed(mine, between), last, between, item);
      assert OfDomain(all, item.domain) == mine + [last];
      assert (mine + [last])[..|mine|] == mine;
    } else {
      assert OfDomain(all, item.domain) == OfDomain(front, item.domain);
    }
  }

  lemma OneMoreConserves(breaches: seq<Breach>, between: Days, item: Item)
    requires breaches != []
    ensures var front := breaches[..|breaches| - 1];
            Count(Placed(OfDomain(breaches, item.domain), between), item) + Count(Dropped(breaches, between), item)
            == Count(Placed(OfDomain(front, item.domain), between), item) + Count(Dropped(front, between), item)
             + Count(breaches, item) - Count(front, item)
  {
    var (front, last) := (breaches[..|breaches| - 1], breaches[|breaches| - 1]);
    assert breaches == front + [last];
    OneMoreDropped(front, last, between, item);
    OneMorePlaced(front, last, between, item);
  }

  /**
   Nothing is lost but the dropped: of every domain, each source's name is among the entries as
   often as in the input, minus the breaches that found neither a twin nor room.
   */
  lemma {:induction false} DomainConserves(breaches: seq<Breach>, between: Days, item: Item)
    ensures Count(Placed(OfDomain(breaches, item.domain), between), item) + Count(Dropped(breaches, between), item)
         == Count(breaches, item)
  {
    if breaches != [] {
      DomainConserves(breaches[..|breaches| - 1], between, item);
      OneMoreConserves(breaches, between, item);
    }
  }

  // ----- What an entry is made of -----

  /**
   An entry is its group of inputs put together: names, the earliest dates, and everything any of
   them says; each was within ninety days of those before it.
   */
  ghost predicate Merged(entry: Breach, group: seq<Breach>, between: Days) {
    && group != [] && Chained(group, between)
    && entry.domain == group[0].domain && entry.title == group[0].title
    && SourcesTogether(entry, group)
    && (forall b | b in group :: b.records <= entry.records) && (exists b :: b in group && b.records == entry.records)
    && (entry.passwords <==> exists b :: b in group && b.passwords)
    && EarliestDate(entry, group) && EarliestAdded(entry, group) && ClassesTogether(entry, group)
  }

  ghost function FirstDate(group: seq<Breach>): (date: Option<string>)
    requires group != []
  {
    var last := group[|group| - 1].date;
    if |group| == 1 then last
    else if LessOption(last, FirstDate(group[..|group| - 1])) then last
    else FirstDate(group[..|group| - 1])
  }

  /** Each of the group is close to the earliest date of those before it. */
  ghost predicate Chained(group: seq<Breach>, between: Days) {
    |group| > 1 ==>
      var front := group[..|group| - 1];
      Chained(front, between) && Close(FirstDate(front), group[|group| - 1].date, between)
  }

  /** How many of the group have a name of source `s`. */
  ghost function Naming(group: seq<Breach>, s: string): nat {
    if group == [] then 0
    else Naming(group[..|group| - 1], s) + (if s in group[|group| - 1].sources then 1 else 0)
  }

  /** Each name comes from exactly one of the group. */
  ghost predicate SourcesTogether(entry: Breach, group: seq<Breach>) {
    && (forall s :: Naming(group, s) == if s in entry.sources then 1 else 0)
    && (forall b, s | b in group && s in b.sources :: s in entry.sources && entry.sources[s] == b.sources[s])
  }

  ghost predicate EarliestDate(entry: Breach, group: seq<Breach>) {
    && (forall b | b in group :: !LessOption(b.date, entry.date) && b.domain == entry.domain)
    && (exists b :: b in group && b.date == entry.date)
    && group != [] && entry.date == FirstDate(group)
  }

  ghost predicate EarliestAdded(entry: Breach, group: seq<Breach>) {
    && (entry.added.None? ==> forall b | b in group :: b.added.None?)
    && (entry.added.Some? ==>
          && (exists b :: b in group && b.added == entry.added)
          && forall b | b in group && b.added.Some? :: !LessOption(b.added, entry.added))
  }

  ghost predicate Said(group: seq<Breach>, c: string) {
    exists b :: b in group && c in b.classes
  }

  /** No class is named twice, whatever its case. */
  ghost predicate NoTwice(classes: seq<string>) {
    forall i, j | 0 <= i < j < |classes| :: !SameIgnoringCase(classes[i], classes[j])
  }

  /** Every class the group names is covered, none else, and none twice that the first does not name twice itself. */
  ghost predicate ClassesTogether(entry: Breach, group: seq<Breach>) {
    && (forall c | Said(group, c) :: Covered(entry.classes, c))
    && (forall k | k in entry.classes :: Said(group, k))
    && group != [] && group[0].classes <= entry.classes
    && (NoTwice(entry.classes) <==> NoTwice(group[0].classes))
  }

  lemma {:induction false} AddClassesAddsOnce(classes: seq<string>, more: seq<string>)
    ensures classes <= AddClasses(classes, more)
    ensures NoTwice(classes) <==> NoTwice(AddClasses(classes, more))
    decreases |more|
  {
    if more != [] {
      AddClassAddsOnce(classes, more[0]);
      AddClassesAddsOnce(AddClass(classes, more[0]), more[1..]);
    }
  }

  lemma AddClassAddsOnce(classes: seq<string>, c: string)
    ensures classes <= AddClass(classes, c)
    ensures NoTwice(classes) <==> NoTwice(AddClass(classes, c))
  {
    if !Covered(classes, c) {
      var more := classes + [c];
      assert forall i | 0 <= i < |classes| :: more[i] == classes[i] && classes[i] in classes;
    }
  }

  lemma AddClassCovers(classes: seq<string>, c: string)
    ensures Covered(AddClass(classes, c), c)
    ensures forall k | Covered(classes, k) :: Covered(AddClass(classes, c), k)
  {
    assert SameIgnoringCase(c, c);
    if !Covered(classes, c) {
      assert c in classes + [c];
    }
  }

  lemma {:induction false} AddClassesKeeps(classes: seq<string>, more: seq<string>)
    ensures forall k | k in AddClasses(classes, more) :: k in classes || k in more
    ensures forall c | Covered(classes, c) || c in more :: Covered(AddClasses(classes, more), c)
    decreases |more|
  {
    if more != [] {
      AddClassCovers(classes, more[0]);
      AddClassesKeeps(AddClass(classes, more[0]), more[1..]);
      assert more == [more[0]] + more[1..];
    }
  }

  lemma AloneIsMerged(breach: Breach, between: Days)
    ensures Merged(breach, [breach], between)
  {
    LessOptionTotal(breach.date, breach.date);
    LessOptionTotal(breach.added, breach.added);
    assert breach in [breach] && [breach][..0] == [];
    forall c | Said([breach], c)
      ensures Covered(breach.classes, c)
    {
      assert c in breach.classes && SameIgnoringCase(c, c);
    }
  }

  lemma SourcesAbsorbed(entry: Breach, group: seq<Breach>, breach: Breach)
    requires SourcesTogether(entry, group) && forall s | s in breach.sources :: s !in entry.sources
    ensures SourcesTogether(Absorb(entry, breach), group + [breach])
  {
    var more := group + [breach];
    assert more[..|group|] == group;
  }

  lemma DatesAbsorbed(entry: Breach, group: seq<Breach>, breach: Breach)
    requires EarliestDate(entry, group) && breach.domain == entry.domain
    ensures EarliestDate(Absorb(entry, breach), group + [breach])
  {
    var more := group + [breach];
    assert more[..|group|] == group;
    assert breach in more && forall b | b in group :: b in more;
    LessOptionTotal(breach.date, entry.date);
    LessOptionTotal(breach.date, breach.date);
    forall b | b in more
      ensures !LessOption(b.date, Absorb(entry, breach).date)
    {
      if b in group && LessOption(b.date, breach.date) && LessOption(breach.date, entry.date) {
        LessOptionTransitive(b.date, breach.date, entry.date);
      }
    }
  }

  lemma AddedAbsorbed(entry: Breach, group: seq<Breach>, breach: Breach)
    requires EarliestAdded(entry, group)
    ensures EarliestAdded(Absorb(entry, breach), group + [breach])
  {
    var more := group + [breach];
    assert breach in more && forall b | b in group :: b in more;
    LessOptionTotal(breach.added, entry.added);
    LessOptionTotal(breach.added, breach.added);
    forall b | b in more && b.added.Some?
      ensures !LessOption(b.added, Absorb(entry, breach).added)
    {
      if b in group && LessOption(b.added, breach.added) && LessOption(breach.added, entry.added) {
        LessOptionTransitive(b.added, breach.added, entry.added);
      }
    }
  }

  lemma ClassesAbsorbed(entry: Breach, group: seq<Breach>, breach: Breach)
    requires ClassesTogether(entry, group)
    ensures ClassesTogether(Absorb(entry, breach), group + [breach])
  {
    var more := group + [breach];
    AddClassesKeeps(entry.classes, breach.classes);
    AddClassesAddsOnce(entry.classes, breach.classes);
    forall c
      ensures Said(more, c) <==> Said(group, c) || c in breach.classes
    {
      assert breach in more && forall b | b in group :: b in more;
    }
  }

  /** Absorbing a twin is putting one more into the group. */
  lemma TwinAbsorbed(entry: Breach, group: seq<Breach>, breach: Breach, between: Days)
    requires Merged(entry, group, between) && Twin(entry, breach, between) && breach.domain == entry.domain
    ensures Merged(Absorb(entry, breach), group + [breach], between)
  {
    var more := group + [breach];
    assert more[..|group|] == group;
    assert breach in more && (forall b | b in group :: b in more) && more[0] == group[0];
    SourcesAbsorbed(entry, group, breach);
    DatesAbsorbed(entry, group, breach);
    AddedAbsorbed(entry, group, breach);
    ClassesAbsorbed(entry, group, breach);
  }

  /** The inputs behind each entry, entry by entry. */
  ghost function Groups(breaches: seq<Breach>, between: Days): seq<seq<Breach>>
  {
    if breaches == [] then []
    else
      var front, last := breaches[..|breaches| - 1], breaches[|breaches| - 1];
      var groups, same := Groups(front, between), Placed(front, between);
      match FindTwin(same, last, between)
      case Some(at) => if at < |groups| then groups[at := groups[at] + [last]] else groups
      case None => if |same| < MOST_PER_DOMAIN then groups + [[last]] else groups
  }

  ghost function Pool(groups: seq<seq<Breach>>): multiset<Breach> {
    if groups == [] then multiset{} else Pool(groups[..|groups| - 1]) + multiset(groups[|groups| - 1])
  }

  lemma {:induction false} PoolUpdate(groups: seq<seq<Breach>>, at: nat, breach: Breach)
    requires at < |groups|
    ensures Pool(groups[at := groups[at] + [breach]]) == Pool(groups) + multiset{breach}
  {
    var last := |groups| - 1;
    var more := groups[at := groups[at] + [breach]];
    if at == last {
      assert more[..last] == groups[..last];
    } else {
      PoolUpdate(groups[..last], at, breach);
      assert more[..last] == groups[..last][at := groups[..last][at] + [breach]];
    }
  }

  lemma {:induction false} GroupsMatch(breaches: seq<Breach>, between: Days)
    ensures |Groups(breaches, between)| == |Placed(breaches, between)|
  {
    if breaches != [] {
      GroupsMatch(breaches[..|breaches| - 1], between);
    }
  }

  lemma EntryIsMerged(breaches: seq<Breach>, between: Days, i: nat)
    requires breaches != [] && i < |Placed(breaches, between)|
    requires |Groups(breaches, between)| == |Placed(breaches, between)|
    requires var (front, last) := (breaches[..|breaches| - 1], breaches[|breaches| - 1]);
             && |Groups(front, between)| == |Placed(front, between)|
             && (i < |Placed(front, between)| ==>
                   Placed(front, between)[i].domain == last.domain
                   && Merged(Placed(front, between)[i], Groups(front, between)[i], between))
    ensures Merged(Placed(breaches, between)[i], Groups(breaches, between)[i], between)
  {
    var (front, last) := (breaches[..|breaches| - 1], breaches[|breaches| - 1]);
    var (same, groups) := (Placed(front, between), Groups(front, between));
    if FindTwin(same, last, between) == Some(i) {
      TwinAbsorbed(same[i], groups[i], last, between);
    } else if i == |same| {
      AloneIsMerged(last, between);
    }
  }

  /** Every entry is its group of inputs put together. */
  lemma {:induction false} EntriesAreMerged(breaches: seq<Breach>, domain: string, between: Days)
    requires AllOf(breaches, domain)
    ensures |Groups(breaches, between)| == |Placed(breaches, between)|
    ensures forall i | 0 <= i < |Placed(breaches, between)| ::
              Merged(Placed(breaches, between)[i], Groups(breaches, between)[i], between)
  {
    GroupsMatch(breaches, between);
    if breaches != [] {
      var front := breaches[..|breaches| - 1];
      EntriesAreMerged(front, domain, between);
      PlacedOfDomain(front, domain, between);
      forall i | 0 <= i < |Placed(breaches, between)|
        ensures Merged(Placed(breaches, between)[i], Groups(breaches, between)[i], between)
      {
        EntryIsMerged(breaches, between, i);
      }
    }
  }

  /** The inputs of a domain that were dropped. */
  ghost function Rejected(breaches: seq<Breach>, between: Days): multiset<Breach> {
    if breaches == [] then multiset{}
    else
      var front, last := breaches[..|breaches| - 1], breaches[|breaches| - 1];
      Rejected(front, between) + (if Lost(Placed(front, between), last, between) then multiset{last} else multiset{})
  }

  lemma OneMoreGrouped(groups: seq<seq<Breach>>, last: Breach)
    ensures Pool(groups + [[last]]) == Pool(groups) + multiset{last}
  {
    assert (groups + [[last]])[..|groups|] == groups;
  }

  lemma PoolOfOneMore(breaches: seq<Breach>, between: Days)
    requires breaches != []
    ensures var (front, last) := (breaches[..|breaches| - 1], breaches[|breaches| - 1]);
            if Lost(Placed(front, between), last, between) then Groups(breaches, between) == Groups(front, between)
            else Pool(Groups(breaches, between)) == Pool(Groups(front, between)) + multiset{last}
  {
    var (front, last) := (breaches[..|breaches| - 1], breaches[|breaches| - 1]);
    GroupsMatch(front, between);
    var groups, same := Groups(front, between), Placed(front, between);
    match FindTwin(same, last, between)
    case Some(at) =>
      assert Groups(breaches, between) == groups[at := groups[at] + [last]];
      PoolUpdate(groups, at, last);
    case None =>
      if |same| < MOST_PER_DOMAIN {
        assert Groups(breaches, between) == groups + [[last]];
        OneMoreGrouped(groups, last);
      }
  }

  lemma GroupsOfOneMore(breaches: seq<Breach>, between: Days)
    requires breaches != []
    ensures var (front, last) := (breaches[..|breaches| - 1], breaches[|breaches| - 1]);
            Pool(Groups(breaches, between)) + Rejected(breaches, between)
            == Pool(Groups(front, between)) + Rejected(front, between) + multiset{last}
  {
    var (front, last) := (breaches[..|breaches| - 1], breaches[|breaches| - 1]);
    PoolOfOneMore(breaches, between);
    OneOnEitherSide(Pool(Groups(front, between)), Rejected(front, between), last);
  }

  lemma OneOnEitherSide(pool: multiset<Breach>, rejected: multiset<Breach>, last: Breach)
    ensures (pool + multiset{last}) + (rejected + multiset{}) == pool + rejected + multiset{last}
    ensures pool + (rejected + multiset{last}) == pool + rejected + multiset{last}
  {
  }

  lemma LastApart(breaches: seq<Breach>)
    requires breaches != []
    ensures multiset(breaches) == multiset(breaches[..|breaches| - 1]) + multiset{breaches[|breaches| - 1]}
  {
    assert breaches == breaches[..|breaches| - 1] + [breaches[|breaches| - 1]];
  }

  /** Every input is in exactly one group, as often as it was given, or it was dropped. */
  lemma {:induction false} GroupsPartition(breaches: seq<Breach>, between: Days)
    ensures Pool(Groups(breaches, between)) + Rejected(breaches, between) == multiset(breaches)
  {
    if breaches != [] {
      GroupsPartition(breaches[..|breaches| - 1], between);
      GroupsOfOneMore(breaches, between);
      LastApart(breaches);
    }
  }

  /** A domain that dropped something is full. */
  lemma {:induction false} DroppedMeansFull(breaches: seq<Breach>, between: Days)
    ensures Rejected(breaches, between) != multiset{} ==> |Placed(breaches, between)| >= MOST_PER_DOMAIN
  {
    if breaches != [] {
      DroppedMeansFull(breaches[..|breaches| - 1], between);
    }
  }

  // ----- Sorting -----

  /** By date, then by title. */
  predicate Earlier(a: Breach, b: Breach) {
    LessOption(a.date, b.date) || (a.date == b.date && Less(a.title, b.title))
  }

  ghost predicate Ordered(breaches: seq<Breach>) {
    forall i, j | 0 <= i < j < |breaches| :: !Earlier(breaches[j], breaches[i])
  }

  /** Behind all that are not later. */
  function Insert(sorted: seq<Breach>, breach: Breach): seq<Breach> {
    if sorted == [] || !Earlier(breach, sorted[|sorted| - 1]) then sorted + [breach]
    else Insert(sorted[..|sorted| - 1], breach) + [sorted[|sorted| - 1]]
  }

  /** `sort_by`, which is stable. */
  function Sort(breaches: seq<Breach>): seq<Breach> {
    if breaches == [] then [] else Insert(Sort(breaches[..|breaches| - 1]), breaches[|breaches| - 1])
  }

  lemma EarlierTransitive(a: Breach, b: Breach, c: Breach)
    requires !Earlier(b, a) && !Earlier(c, b)
    ensures !Earlier(c, a)
  {
    LessOptionTotal(a.date, b.date);
    LessOptionTotal(b.date, c.date);
    LessOptionTotal(a.date, c.date);
    LessTotal(a.title, b.title);
    LessTotal(b.title, c.title);
    LessTotal(a.title, c.title);
    if LessOption(a.date, b.date) && LessOption(b.date, c.date) {
      LessOptionTransitive(a.date, b.date, c.date);
    }
    if Less(a.title, b.title) && Less(b.title, c.title) {
      LessTransitive(a.title, b.title, c.title);
    }
  }

  lemma EarlierAsymmetric(a: Breach, b: Breach)
    ensures !(Earlier(a, b) && Earlier(b, a))
  {
    LessOptionTotal(a.date, b.date);
    LessTotal(a.title, b.title);
  }

  lemma BehindAll(sorted: seq<Breach>, breach: Breach)
    requires Ordered(sorted) && (sorted != [] ==> !Earlier(breach, sorted[|sorted| - 1]))
    ensures Ordered(sorted + [breach])
  {
    forall i | 0 <= i < |sorted|
      ensures !Earlier(breach, sorted[i])
    {
      if i < |sorted| - 1 {
        EarlierTransitive(sorted[i], sorted[|sorted| - 1], breach);
      }
    }
  }

  lemma BeforeLast(front: seq<Breach>, last: Breach, breach: Breach, all: seq<Breach>)
    requires Ordered(front + [last]) && Ordered(all) && multiset(all) == multiset(front) + multiset{breach}
    requires Earlier(breach, last)
    ensures Ordered(all + [last])
  {
    EarlierAsymmetric(breach, last);
    forall i | 0 <= i < |all|
      ensures !Earlier(last, all[i])
    {
      assert all[i] in multiset(all);
      if all[i] != breach {
        var k :| 0 <= k < |front| && front[k] == all[i];
        assert (front + [last])[k] == all[i] && (front + [last])[|front|] == last;
      }
    }
  }

  lemma {:induction false} InsertOrders(sorted: seq<Breach>, breach: Breach)
    requires Ordered(sorted)
    ensures Ordered(Insert(sorted, breach))
    ensures multiset(Insert(sorted, breach)) == multiset(sorted) + multiset{breach}
    ensures |Insert(sorted, breach)| == |sorted| + 1
  {
    if sorted == [] || !Earlier(breach, sorted[|sorted| - 1]) {
      BehindAll(sorted, breach);
    } else {
      var front, last := sorted[..|sorted| - 1], sorted[|sorted| - 1];
      assert sorted == front + [last];
      InsertOrders(front, breach);
      BeforeLast(front, last, breach, Insert(front, breach));
    }
  }

  lemma {:induction false} SortOrders(breaches: seq<Breach>)
    ensures Ordered(Sort(breaches)) && multiset(Sort(breaches)) == multiset(breaches) && |Sort(breaches)| == |breaches|
  {
    if breaches != [] {
      SortOrders(breaches[..|breaches| - 1]);
      InsertOrders(Sort(breaches[..|breaches| - 1]), breaches[|breaches| - 1]);
      assert breaches == breaches[..|breaches| - 1] + [breaches[|breaches| - 1]];
    }
  }

  lemma {:induction false} InsertCounts(sorted: seq<Breach>, breach: Breach, item: Item)
    ensures Count(Insert(sorted, breach), item) == Count(sorted, item) + (if Carries(breach, item) then 1 else 0)
  {
    if sorted == [] || !Earlier(breach, sorted[|sorted| - 1]) {
      assert (sorted + [breach])[..|sorted|] == sorted;
    } else {
      var front, last := sorted[..|sorted| - 1], sorted[|sorted| - 1];
      InsertCounts(front, breach, item);
      var all := Insert(front, breach) + [last];
      assert all[..|all| - 1] == Insert(front, breach);
    }
  }

  lemma {:induction false} SortCounts(breaches: seq<Breach>, item: Item)
    ensures Count(Sort(breaches), item) == Count(breaches, item)
  {
    if breaches != [] {
      SortCounts(breaches[..|breaches| - 1], item);
      InsertCounts(Sort(breaches[..|breaches| - 1]), breaches[|breaches| - 1], item);
    }
  }

  /** Those with the date and the title of `like`. */
  ghost function Alike(breaches: seq<Breach>, like: Breach): seq<Breach> {
    if breaches == [] then []
    else
      var last := breaches[|breaches| - 1];
      Alike(breaches[..|breaches| - 1], like) + if last.date == like.date && last.title == like.title then [last] else []
  }

  lemma AlikeOneMore(breaches: seq<Breach>, last: Breach, like: Breach)
    ensures Alike(breaches + [last], like)
         == Alike(breaches, like) + if last.date == like.date && last.title == like.title then [last] else []
  {
    assert (breaches + [last])[..|breaches|] == breaches;
  }

  lemma {:induction false} InsertIsStable(sorted: seq<Breach>, breach: Breach, like: Breach)
    ensures Alike(Insert(sorted, breach), like)
         == Alike(sorted, like) + if breach.date == like.date && breach.title == like.title then [breach] else []
  {
    if sorted == [] || !Earlier(breach, sorted[|sorted| - 1]) {
      AlikeOneMore(sorted, breach, like);
    } else {
      var (front, last) := (sorted[..|sorted| - 1], sorted[|sorted| - 1]);
      InsertIsStable(front, breach, like);
      AlikeOneMore(Insert(front, breach), last, like);
      LessOptionTotal(breach.date, breach.date);
      LessIrreflexive(breach.title);
    }
  }

  /** Breaches with one date and one title stay in the order they came. */
  lemma {:induction false} SortIsStable(breaches: seq<Breach>, like: Breach)
    ensures Alike(Sort(breaches), like) == Alike(breaches, like)
  {
    if breaches != [] {
      SortIsStable(breaches[..|breaches| - 1], like);
      InsertIsStable(Sort(breaches[..|breaches| - 1]), breaches[|breaches| - 1], like);
    }
  }

  // ----- The whole list -----

  function Flat(lists: seq<seq<Breach>>): seq<Breach> {
    if lists == [] then [] else Flat(lists[..|lists| - 1]) + lists[|lists| - 1]
  }

  function Block(breaches: seq<Breach>, domain: string, between: Days): seq<Breach> {
    Sort(Placed(OfDomain(breaches, domain), between))
  }

  function Blocks(domains: seq<string>, breaches: seq<Breach>, between: Days): seq<Breach> {
    if domains == [] then []
    else Blocks(domains[..|domains| - 1], breaches, between) + Block(breaches, domains[|domains| - 1], between)
  }

  /** The domains of `breaches`, each once, in order: what a `BTreeMap` goes through. */
  ghost predicate DomainsOf(domains: seq<string>, breaches: seq<Breach>) {
    && Increasing(domains)
    && (forall d :: d in domains <==> Mentions(breaches, d))
  }

  ghost predicate Mentions(breaches: seq<Breach>, domain: string) {
    exists b :: b in breaches && b.domain == domain
  }

  lemma BlockOfDomain(breaches: seq<Breach>, domain: string, between: Days)
    ensures AllOf(Block(breaches, domain, between), domain) && Ordered(Block(breaches, domain, between))
    ensures |Block(breaches, domain, between)| <= MOST_PER_DOMAIN
    ensures multiset(Block(breaches, domain, between)) == multiset(Placed(OfDomain(breaches, domain), between))
  {
    OfDomainAll(breaches, domain);
    PlacedOfDomain(OfDomain(breaches, domain), domain, between);
    var placed := Placed(OfDomain(breaches, domain), between);
    SortOrders(placed);
    forall i | 0 <= i < |Sort(placed)|
      ensures Sort(placed)[i].domain == domain
    {
      assert Sort(placed)[i] in multiset(Sort(placed));
      assert Sort(placed)[i] in placed;
    }
  }

  lemma {:induction false} CountOther(breaches: seq<Breach>, domain: string, item: Item)
    requires AllOf(breaches, domain) && domain != item.domain
    ensures Count(breaches, item) == 0
  {
    if breaches != [] {
      CountOther(breaches[..|breaches| - 1], domain, item);
    }
  }

  lemma BlockCounts(breaches: seq<Breach>, domain: string, between: Days, item: Item)
    ensures Count(Block(breaches, domain, between), item)
         == if item.domain == domain then Count(Placed(OfDomain(breaches, domain), between), item) else 0
  {
    if domain == item.domain {
      SortCounts(Placed(OfDomain(breaches, domain), between), item);
    } else {
      BlockOfDomain(breaches, domain, between);
      CountOther(Block(breaches, domain, between), domain, item);
    }
  }

  lemma OneMoreBlock(front: seq<string>, last: string, breaches: seq<Breach>, between: Days)
    ensures Blocks(front + [last], breaches, between) == Blocks(front, breaches, between) + Block(breaches, last, between)
  {
    assert (front + [last])[..|front|] == front;
  }

  lemma OneMoreBlockCounts(front: seq<string>, last: string, breaches: seq<Breach>, between: Days, item: Item)
    ensures Count(Blocks(front + [last], breaches, between), item)
         == Count(Blocks(front, breaches, between), item)
          + (if item.domain == last then Count(Placed(OfDomain(breaches, last), between), item) else 0)
  {
    OneMoreBlock(front, last, breaches, between);
    CountConcat(Blocks(front, breaches, between), Block(breaches, last, between), item);
    BlockCounts(breaches, last, between, item);
  }

  lemma {:induction false} BlocksCount(domains: seq<string>, breaches: seq<Breach>, between: Days, item: Item)
    requires Increasing(domains)
    ensures Count(Blocks(domains, breaches, between), item)
         == if item.domain in domains then Count(Placed(OfDomain(breaches, item.domain), between), item) else 0
  {
    if domains != [] {
      var front, last := domains[..|domains| - 1], domains[|domains| - 1];
      assert domains == front + [last];
      assert last !in front by {
        LessIrreflexive(last);
      }
      BlocksCount(front, breaches, between, item);
      OneMoreBlockCounts(front, last, breaches, between, item);
    }
  }

  lemma {:induction false} NoneOfDomain(breaches: seq<Breach>, domain: string)
    requires forall b | b in breaches :: b.domain != domain
    ensures OfDomain(breaches, domain) == []
  {
    if breaches != [] {
      NoneOfDomain(breaches[..|breaches| - 1], domain);
    }
  }

  /**
   Conservation over the whole list: each source's name for each domain is in the output as often as
   in the input, minus exactly the breaches that found neither a twin nor room.
   */
  lemma MergeConserves(domains: seq<string>, breaches: seq<Breach>, between: Days, item: Item)
    requires DomainsOf(domains, breaches)
    ensures Count(Blocks(domains, breaches, between), item) + Count(Dropped(breaches, between), item) == Count(breaches, item)
  {
    BlocksCount(domains, breaches, between, item);
    DomainConserves(breaches, between, item);
    if item.domain !in domains {
      NoneOfDomain(breaches, item.domain);
    }
  }

  /** By domain, then by date, then by title. */
  ghost predicate Follows(a: Breach, b: Breach) {
    Less(a.domain, b.domain) || (a.domain == b.domain && !Earlier(b, a))
  }

  ghost predicate InOrder(breaches: seq<Breach>) {
    forall i, j | 0 <= i < j < |breaches| :: Follows(breaches[i], breaches[j])
  }

  lemma BlockBehind(before: seq<Breach>, block: seq<Breach>, domain: string)
    requires InOrder(before) && (forall i | 0 <= i < |before| :: Less(before[i].domain, domain))
    requires AllOf(block, domain) && Ordered(block)
    ensures InOrder(before + block)
  {
  }

  lemma {:induction false} BlocksMention(domains: seq<string>, breaches: seq<Breach>, between: Days)
    ensures forall b | b in Blocks(domains, breaches, between) :: b.domain in domains
  {
    if domains != [] {
      BlocksMention(domains[..|domains| - 1], breaches, between);
      BlockOfDomain(breaches, domains[|domains| - 1], between);
    }
  }

  lemma BlocksBefore(domains: seq<string>, last: string, breaches: seq<Breach>, between: Days)
    requires forall k | 0 <= k < |domains| :: Less(domains[k], last)
    ensures forall i | 0 <= i < |Blocks(domains, breaches, between)| :: Less(Blocks(domains, breaches, between)[i].domain, last)
  {
    BlocksMention(domains, breaches, between);
    var before := Blocks(domains, breaches, between);
    forall i | 0 <= i < |before|
      ensures Less(before[i].domain, last)
    {
      assert before[i] in before;
    }
  }

  /** What is ordered so: by domain, then those without a date first, then by date, then by title. */
  lemma OrderMeans(a: Breach, b: Breach)
    ensures Follows(a, b) <==>
              || Less(a.domain, b.domain)
              || (a.domain == b.domain && a.date == b.date && !Less(b.title, a.title))
              || (a.domain == b.domain && a.date != b.date && (a.date.None? || (b.date.Some? && Less(a.date.value, b.date.value))))
  {
    NothingIsLeast(b.date, a.date);
    if a.date.Some? && b.date.Some? {
      LessTotal(a.date.value, b.date.value);
    }
  }

  /** The output is ordered by domain, then by date, then by title. */
  lemma {:induction false} MergeIsOrdered(domains: seq<string>, breaches: seq<Breach>, between: Days)
    requires Increasing(domains)
    ensures InOrder(Blocks(domains, breaches, between))
  {
    if domains != [] {
      var front, last := domains[..|domains| - 1], domains[|domains| - 1];
      MergeIsOrdered(front, breaches, between);
      BlockOfDomain(breaches, last, between);
      BlocksBefore(front, last, breaches, between);
      BlockBehind(Blocks(front, breaches, between), Block(breaches, last, between), last);
    }
  }

  lemma {:induction false} OfDomainConcat(a: seq<Breach>, b: seq<Breach>, domain: string)
    ensures OfDomain(a + b, domain) == OfDomain(a, domain) + OfDomain(b, domain)
  {
    if b == [] {
      assert a + b == a;
    } else {
      OfDomainConcat(a, b[..|b| - 1], domain);
      assert (a + b)[..|a + b| - 1] == a + b[..|b| - 1];
    }
  }

  lemma {:induction false} OfDomainUniform(breaches: seq<Breach>, all: string, domain: string)
    requires AllOf(breaches, all)
    ensures OfDomain(breaches, domain) == if domain == all then breaches else []
  {
    if breaches != [] {
      OfDomainUniform(breaches[..|breaches| - 1], all, domain);
    }
  }

  lemma {:induction false} OutputOfDomain(domains: seq<string>, breaches: seq<Breach>, between: Days, domain: string)
    requires Increasing(domains)
    ensures OfDomain(Blocks(domains, breaches, between), domain)
         == if domain in domains then Block(breaches, domain, between) else []
  {
    if domains != [] {
      var front, last := domains[..|domains| - 1], domains[|domains| - 1];
      assert domains == front + [last];
      assert last !in front by {
        LessIrreflexive(last);
      }
      OutputOfDomain(front, breaches, between, domain);
      OfDomainConcat(Blocks(front, breaches, between), Block(breaches, last, between), domain);
      BlockOfDomain(breaches, last, between);
      OfDomainUniform(Block(breaches, last, between), last, domain);
    }
  }

  /**
   What the output says of one domain: at most a hundred entries, each the merger of a group of that
   domain's inputs; every input is in exactly one group or was dropped, and only a full domain drops.
   */
  lemma DomainInOutput(domains: seq<string>, breaches: seq<Breach>, between: Days, domain: string)
    requires DomainsOf(domains, breaches)
    ensures var mine := OfDomain(breaches, domain);
            var entries, groups := Placed(mine, between), Groups(mine, between);
            var output := OfDomain(Blocks(domains, breaches, between), domain);
            && multiset(output) == multiset(entries) && |output| == |entries| == |groups| <= MOST_PER_DOMAIN
            && (forall i | 0 <= i < |entries| :: Merged(entries[i], groups[i], between))
            && Pool(groups) + Rejected(mine, between) == multiset(mine)
            && (Rejected(mine, between) != multiset{} ==> |output| == MOST_PER_DOMAIN)
  {
    var mine := OfDomain(breaches, domain);
    OfDomainAll(breaches, domain);
    OutputOfDomain(domains, breaches, between, domain);
    BlockOfDomain(breaches, domain, between);
    SortOrders(Placed(mine, between));
    PlacedOfDomain(mine, domain, between);
    EntriesAreMerged(mine, domain, between);
    GroupsPartition(mine, between);
    DroppedMeansFull(mine, between);
    if domain !in domains {
      NoneOfDomain(breaches, domain);
    }
  }

  // ----- Two lists of one source each -----

  ghost predicate OnlyFrom(breaches: seq<Breach>, s: string) {
    forall b | b in breaches :: b.sources.Keys == {s}
  }

  /** So it is between two days, whichever is first. */
  ghost predicate Symmetric(between: Days) {
    forall x, y :: between(x, y) == between(y, x)
  }

  lemma OfDomainFrom(breaches: seq<Breach>, domain: string, s: string)
    requires OnlyFrom(breaches, s)
    ensures OnlyFrom(OfDomain(breaches, domain), s)
  {
    OfDomainAll(breaches, domain);
  }

  /** One list alone has no twins. */
  lemma {:induction false} OneSourcePlaced(breaches: seq<Breach>, s: string, between: Days)
    requires OnlyFrom(breaches, s)
    ensures OnlyFrom(Placed(breaches, between), s)
  {
    if breaches != [] {
      var front, last := breaches[..|breaches| - 1], breaches[|breaches| - 1];
      assert last in breaches && s in last.sources;
      OneSourcePlaced(front, s, between);
      assert FindTwin(Placed(front, between), last, between).None?;
    }
  }

  /** Every entry has a name of `a` or `b` or both; one of `a` alone is no twin of one of `b` alone. */
  ghost predicate Apart(entries: seq<Breach>, a: string, b: string, between: Days) {
    && (forall e | e in entries :: e.sources.Keys <= {a, b} && e.sources.Keys != {})
    && forall e, f | e in entries && f in entries && e.sources.Keys == {a} && f.sources.Keys == {b} ::
         !Close(e.date, f.date, between)
  }

  lemma AddedApart(same: seq<Breach>, a: string, b: string, breach: Breach, between: Days)
    requires a != b && Apart(same, a, b, between) && breach.sources.Keys == {b}
    requires forall i | 0 <= i < |same| :: !Twin(same[i], breach, between)
    ensures Apart(same + [breach], a, b, between)
  {
    forall e | e in same && e.sources.Keys == {a}
      ensures !Close(e.date, breach.date, between)
    {
      var i :| 0 <= i < |same| && same[i] == e;
      assert !Twin(same[i], breach, between);
      assert forall s | s in breach.sources :: s == b;
      assert b !in e.sources.Keys;
    }
  }

  lemma AbsorbedApart(same: seq<Breach>, a: string, b: string, breach: Breach, at: nat, between: Days)
    requires a != b && Apart(same, a, b, between) && breach.sources.Keys == {b}
    requires at < |same| && Twin(same[at], breach, between)
    ensures Apart(same[at := Absorb(same[at], breach)], a, b, between)
  {
    var all := Absorb(same[at], breach);
    assert b in breach.sources && same[at] in same;
    assert b !in same[at].sources.Keys;
    assert same[at].sources.Keys == {a} by {
      assert forall s | s in same[at].sources.Keys :: s == a;
    }
    assert all.sources.Keys == {a, b};
    assert a in all.sources.Keys && b in all.sources.Keys;
    forall e | e in same[at := all]
      ensures e in same || e == all
    {
    }
  }

  lemma {:induction false} PlacedApart(ofA: seq<Breach>, ofB: seq<Breach>, a: string, b: string, between: Days)
    requires a != b && OnlyFrom(ofA, a) && OnlyFrom(ofB, b)
    ensures Apart(Placed(ofA + ofB, between), a, b, between)
  {
    if ofB == [] {
      assert ofA + ofB == ofA;
      OneSourcePlaced(ofA, a, between);
      assert a in {a} && b in {b};
    } else {
      var front, last := ofB[..|ofB| - 1], ofB[|ofB| - 1];
      assert last in ofB;
      PlacedApart(ofA, front, a, b, between);
      assert (ofA + ofB)[..|ofA + ofB| - 1] == ofA + front;
      var same := Placed(ofA + front, between);
      var twin := FindTwin(same, last, between);
      if twin.Some? {
        AbsorbedApart(same, a, b, last, twin.value, between);
      } else {
        AddedApart(same, a, b, last, between);
      }
    }
  }

  lemma EachHasOne(e: Breach, f: Breach, a: string, b: string)
    requires e.sources.Keys <= {a, b} && e.sources.Keys != {} && f.sources.Keys <= {a, b} && f.sources.Keys != {}
    requires e.sources.Keys !! f.sources.Keys
    ensures (e.sources.Keys == {a} && f.sources.Keys == {b}) || (e.sources.Keys == {b} && f.sources.Keys == {a})
  {
    if a in e.sources.Keys {
      assert e.sources.Keys == {a} && f.sources.Keys == {b};
    } else {
      assert e.sources.Keys == {b} && f.sources.Keys == {a};
    }
  }

  lemma ApartMeansNoTwins(entries: seq<Breach>, a: string, b: string, between: Days, e: Breach, f: Breach)
    requires Apart(entries, a, b, between) && Symmetric(between) && e in entries && f in entries
    requires e.sources.Keys !! f.sources.Keys
    ensures !Close(e.date, f.date, between)
  {
    EachHasOne(e, f, a, b);
    assert Close(e.date, f.date, between) == Close(f.date, e.date, between);
  }

  lemma {:induction false} InBlocks(domains: seq<string>, breaches: seq<Breach>, between: Days, e: Breach)
    requires e in Blocks(domains, breaches, between)
    ensures e in Placed(OfDomain(breaches, e.domain), between)
  {
    if domains != [] {
      var front, last := domains[..|domains| - 1], domains[|domains| - 1];
      if e in Blocks(front, breaches, between) {
        InBlocks(front, breaches, between, e);
      } else {
        BlockOfDomain(breaches, last, between);
        assert e in multiset(Block(breaches, last, between));
      }
    }
  }

  /** A breach both sources list is one entry: of two lists of one source each, no two entries that are left could be. */
  lemma NoTwinsLeft(domains: seq<string>, ofA: seq<Breach>, ofB: seq<Breach>, a: string, b: string, between: Days)
    requires a != b && OnlyFrom(ofA, a) && OnlyFrom(ofB, b) && Symmetric(between)
    ensures var merged := Blocks(domains, ofA + ofB, between);
            forall e, f | e in merged && f in merged && e.domain == f.domain && e.sources.Keys !! f.sources.Keys ::
              !(e.date.Some? && f.date.Some? && between(e.date.value, f.date.value).Some?
                && between(e.date.value, f.date.value).value <= 90)
  {
    var merged := Blocks(domains, ofA + ofB, between);
    forall e, f | e in merged && f in merged && e.domain == f.domain && e.sources.Keys !! f.sources.Keys
      ensures !Close(e.date, f.date, between)
    {
      InBlocks(domains, ofA + ofB, between, e);
      InBlocks(domains, ofA + ofB, between, f);
      OfDomainConcat(ofA, ofB, e.domain);
      OfDomainFrom(ofA, e.domain, a);
      OfDomainFrom(ofB, e.domain, b);
      PlacedApart(OfDomain(ofA, e.domain), OfDomain(ofB, e.domain), a, b, between);
      ApartMeansNoTwins(Placed(OfDomain(ofA + ofB, e.domain), between), a, b, between, e, f);
    }
  }

  lemma {:induction false} NamesAreMembers(group: seq<Breach>, a: string, b: string)
    requires a != b && forall g | g in group :: g.sources.Keys == {a} || g.sources.Keys == {b}
    ensures Naming(group, a) + Naming(group, b) == |group|
  {
    if group != [] {
      var last := group[|group| - 1];
      assert last in group && a in {a} && b in {b};
      NamesAreMembers(group[..|group| - 1], a, b);
      assert a in last.sources <==> a in last.sources.Keys;
      assert b in last.sources <==> b in last.sources.Keys;
    }
  }

  lemma TwoOfOne(group: seq<Breach>, s: string)
    requires |group| == 2 && s in group[0].sources && s in group[1].sources
    ensures Naming(group, s) == 2
  {
    assert group[..1] == [group[0]] && [group[0]][..0] == [];
    assert Naming(group[..1], s) == 1;
  }

  lemma OneOfEachSource(entry: Breach, group: seq<Breach>, a: string, b: string, between: Days)
    requires a != b && Merged(entry, group, between)
    requires forall g | g in group :: g.sources.Keys == {a} || g.sources.Keys == {b}
    ensures |group| <= 2
    ensures |group| == 2 ==>
              group[0].sources.Keys != group[1].sources.Keys && Close(group[0].date, group[1].date, between)
  {
    NamesAreMembers(group, a, b);
    assert Naming(group, a) <= 1 && Naming(group, b) <= 1;
    if |group| == 2 {
      assert group[..1] == [group[0]] && group[0] in group && group[1] in group;
      assert a in {a} && b in {b};
      assert !(a in group[0].sources && a in group[1].sources) by {
        if a in group[0].sources && a in group[1].sources {
          TwoOfOne(group, a);
        }
      }
      assert !(b in group[0].sources && b in group[1].sources) by {
        if b in group[0].sources && b in group[1].sources {
          TwoOfOne(group, b);
        }
      }
    }
  }

  lemma {:induction false} GroupedFrom(breaches: seq<Breach>, between: Days)
    ensures forall group, b | group in Groups(breaches, between) && b in group :: b in breaches
  {
    if breaches != [] {
      var front, last := breaches[..|breaches| - 1], breaches[|breaches| - 1];
      GroupedFrom(front, between);
      assert breaches == front + [last];
      var (groups, at) := (Groups(front, between), FindTwin(Placed(front, between), last, between));
      if at.Some? && at.value < |groups| {
        assert groups[at.value] in groups;
      }
    }
  }

  /** Nothing else is put together: an entry is one breach, or one of each source within ninety days. */
  lemma TogetherMeansClose(ofA: seq<Breach>, ofB: seq<Breach>, a: string, b: string, domain: string, between: Days, i: nat)
    requires a != b && OnlyFrom(ofA, a) && OnlyFrom(ofB, b)
    requires i < |Groups(OfDomain(ofA + ofB, domain), between)|
    ensures var group := Groups(OfDomain(ofA + ofB, domain), between)[i];
            && 1 <= |group| <= 2
            && (|group| == 2 ==>
                  && group[0].sources.Keys != group[1].sources.Keys && group[0].date.Some? && group[1].date.Some?
                  && between(group[0].date.value, group[1].date.value).Some?
                  && between(group[0].date.value, group[1].date.value).value <= 90)
  {
    var mine := OfDomain(ofA + ofB, domain);
    var groups := Groups(mine, between);
    OfDomainAll(ofA + ofB, domain);
    EntriesAreMerged(mine, domain, between);
    GroupedFrom(mine, between);
    forall g: Breach | g in groups[i]
      ensures g.sources.Keys == {a} || g.sources.Keys == {b}
    {
      assert groups[i] in groups && g in ofA + ofB;
    }
    OneOfEachSource(Placed(mine, between)[i], groups[i], a, b, between);
  }

  // ----- The program -----

  method AbsorbTwin(known: Breach, breach: Breach) returns (all: Breach)
    ensures all == Absorb(known, breach)
  {
    all := known.(sources := known.sources + breach.sources, records := Max(known.records, breach.records),
                  passwords := known.passwords || breach.passwords);
    var classes := known.classes;
    for i := 0 to |breach.classes|
      invariant AddClasses(classes, breach.classes[i..]) == AddClasses(known.classes, breach.classes)
    {
      if !Covered(classes, breach.classes[i]) {
        classes := classes + [breach.classes[i]];
      }
    }
    all := all.(classes := classes);
    if LessOption(breach.date, all.date) {
      all := all.(date := breach.date);
    }
    if all.added.None? || (breach.added.Some? && LessOption(breach.added, all.added)) {
      all := all.(added := breach.added);
    }
  }

  /** Any text; written where the entries of one domain are to be looked at. */
  ghost predicate Domain(d: string) {
    true
  }

  /** The entries by domain after `breaches`. */
  ghost predicate ByDomain(m: map<string, seq<Breach>>, breaches: seq<Breach>, between: Days) {
    && (forall d :: d in m <==> Mentions(breaches, d))
    && (forall d {:trigger Domain(d)} | Domain(d) && d in m :: m[d] == Placed(OfDomain(breaches, d), between))
  }

  lemma OneMoreMentioned(breaches: seq<Breach>, breach: Breach)
    ensures forall d :: Mentions(breaches + [breach], d) <==> Mentions(breaches, d) || d == breach.domain
  {
    var more := breaches + [breach];
    assert breach in more && forall b | b in breaches :: b in more;
  }

  lemma OneMoreOfDomain(breaches: seq<Breach>, breach: Breach, between: Days, d: string)
    ensures Placed(OfDomain(breaches + [breach], d), between)
         == if d == breach.domain then Place(Placed(OfDomain(breaches, d), between), breach, between)
            else Placed(OfDomain(breaches, d), between)
  {
    var more, mine := breaches + [breach], OfDomain(breaches, d);
    assert more[..|breaches|] == breaches;
    if d == breach.domain {
      assert OfDomain(more, d) == mine + [breach] && (mine + [breach])[..|mine|] == mine;
    } else {
      assert OfDomain(more, d) == mine;
    }
  }

  lemma OneMoreByDomain(m: map<string, seq<Breach>>, breaches: seq<Breach>, breach: Breach, same: seq<Breach>, between: Days)
    requires ByDomain(m, breaches, between)
    requires same == if breach.domain in m then m[breach.domain] else []
    ensures ByDomain(m[breach.domain := Place(same, breach, between)], breaches + [breach], between)
  {
    assert same == Placed(OfDomain(breaches, breach.domain), between) by {
      assert Domain(breach.domain);
      if breach.domain !in m {
        NoneOfDomain(breaches, breach.domain);
      }
    }
    var m' := m[breach.domain := Place(same, breach, between)];
    forall d
      ensures d in m' <==> Mentions(breaches + [breach], d)
    {
      OneMoreMentioned(breaches, breach);
    }
    forall d | Domain(d) && d in m'
      ensures m'[d] == Placed(OfDomain(breaches + [breach], d), between)
    {
      OneDomainMore(m, breaches, breach, same, between, d);
    }
  }

  lemma OneDomainMore(m: map<string, seq<Breach>>, breaches: seq<Breach>, breach: Breach, same: seq<Breach>, between: Days,
                      d: string)
    requires same == Placed(OfDomain(breaches, breach.domain), between)
    requires d != breach.domain ==> d in m && m[d] == Placed(OfDomain(breaches, d), between)
    ensures m[breach.domain := Place(same, breach, between)][d] == Placed(OfDomain(breaches + [breach], d), between)
  {
    OneMoreOfDomain(breaches, breach, between, d);
  }

  /** One breach finds its twin, or a place, or neither. */
  method PlaceOne(same: seq<Breach>, breach: Breach, between: Days) returns (placed: seq<Breach>)
    ensures placed == Place(same, breach, between)
  {
    var room := |same| < MOST_PER_DOMAIN;
    var twin := FindTwin(same, breach, between);
    placed := same;
    if twin.Some? {
      var all := AbsorbTwin(same[twin.value], breach);
      placed := placed[twin.value := all];
    } else if room {
      placed := placed + [breach];
    }
  }

  method GatherList(m: map<string, seq<Breach>>, list: seq<Breach>, between: Days, ghost done: seq<Breach>)
      returns (byDomain: map<string, seq<Breach>>)
    requires ByDomain(m, done, between)
    ensures ByDomain(byDomain, done + list, between)
  {
    byDomain := m;
    ghost var all := done;
    assert done + list[..0] == done;
    for i := 0 to |list|
      invariant all == done + list[..i]
      invariant ByDomain(byDomain, all, between)
    {
      byDomain := GatherOne(byDomain, list[i], between, all);
      OneLonger(done, list, i);
      all := all + [list[i]];
    }
    assert list[..|list|] == list;
  }

  lemma OneLonger(done: seq<Breach>, list: seq<Breach>, i: nat)
    requires i < |list|
    ensures done + list[..i] + [list[i]] == done + list[..i + 1]
  {
  }

  method GatherOne(m: map<string, seq<Breach>>, breach: Breach, between: Days, ghost done: seq<Breach>)
      returns (byDomain: map<string, seq<Breach>>)
    requires ByDomain(m, done, between)
    ensures ByDomain(byDomain, done + [breach], between)
  {
    var same := if breach.domain in m then m[breach.domain] else [];
    var placed := PlaceOne(same, breach, between);
    OneMoreByDomain(m, done, breach, same, between);
    byDomain := m[breach.domain := placed];
  }

  method Gather(lists: seq<seq<Breach>>, between: Days) returns (byDomain: map<string, seq<Breach>>)
    ensures ByDomain(byDomain, Flat(lists), between)
  {
    byDomain := map[];
    for n := 0 to |lists|
      invariant ByDomain(byDomain, Flat(lists[..n]), between)
    {
      byDomain := GatherList(byDomain, lists[n], between, Flat(lists[..n]));
      assert lists[..n + 1][..n] == lists[..n];
    }
    assert lists[..|lists|] == lists;
  }

  /** The lists as one: ordered, and with every name that was given but those of the dropped breaches. */
  method Merge(lists: seq<seq<Breach>>, between: Days) returns (merged: seq<Breach>)
    ensures exists domains :: DomainsOf(domains, Flat(lists)) && merged == Blocks(domains, Flat(lists), between)
    ensures InOrder(merged)
    ensures forall item :: Count(merged, item) + Count(Dropped(Flat(lists), between), item) == Count(Flat(lists), item)
  {
    var byDomain := Gather(lists, between);
    ghost var breaches := Flat(lists);
    ghost var domains: seq<string> := [];
    merged := [];
    var left := byDomain.Keys;
    while left != {}
      invariant left <= byDomain.Keys
      invariant forall d :: d in domains <==> d in byDomain && d !in left
      invariant Increasing(domains) && DoneBefore(domains, left)
      invariant merged == Blocks(domains, breaches, between)
      decreases left
    {
      var domain := Least(left);
      assert Domain(domain);
      LeastIsNext(domains, left, domain);
      OneMoreBlock(domains, domain, breaches, between);
      merged := merged + Sort(byDomain[domain]);
      domains := domains + [domain];
      left := left - {domain};
    }
    assert DomainsOf(domains, breaches);
    MergeIsOrdered(domains, breaches, between);
    forall item
      ensures Count(merged, item) + Count(Dropped(breaches, between), item) == Count(breaches, item)
    {
      MergeConserves(domains, breaches, between, item);
    }
  }
}
