/**
 The cache of website icons: for each host a file with its icon or an empty one that says it has
 none. It forgets what is too old, and past a ceiling the oldest; a book counts what it holds.
 */
module IconCache {
  import opened Prelude

  /** Seconds; a file may be newer than the clock says. */
  type Instant = int

  const DAY: nat := 86_400
  const ICON_DAYS: nat := 30
  const NONE_DAYS: nat := 3
  const AFTER_EVICTION: nat := 80

  /** A file's name: the hash of the host, for which the host stands, and the extension. */
  datatype Name = Icon(host: string) | NoIcon(host: string) | Temporary(host: string, id: nat)

  datatype File = File(bytes: seq<Byte>, modified: Instant)

  type Dir = map<Name, File>

  /** Files and bytes. */
  datatype Size = Size(files: nat, bytes: nat)

  predicate Within(size: Size, limit: Size) {
    size.files <= limit.files && size.bytes <= limit.bytes
  }

  predicate Stale(name: Name, file: File, now: Instant) {
    || Since(now, file.modified) > (if name.NoIcon? then NONE_DAYS else ICON_DAYS) * DAY
    || (name.Temporary? && Since(now, file.modified) > DAY)
  }

  // ----- Files and bytes of a directory -----

  ghost function SizeOf(dir: Dir): Size {
    if dir == map[] then Size(0, 0)
    else
      var name :| name in dir;
      Plus(SizeOf(dir - {name}), dir[name])
  }

  function Plus(size: Size, file: File): Size {
    Size(size.files + 1, size.bytes + |file.bytes|)
  }

  lemma {:induction false} SizeWithout(dir: Dir, name: Name)
    requires name in dir
    ensures SizeOf(dir) == Plus(SizeOf(dir - {name}), dir[name])
    decreases |dir|
  {
    assert (dir - {name}).Keys == dir.Keys - {name};
    var first :| first in dir && SizeOf(dir) == Plus(SizeOf(dir - {first}), dir[first]);
    if first != name {
      assert (dir - {first}).Keys == dir.Keys - {first};
      assert dir - {first} - {name} == dir - {name} - {first};
      SizeWithout(dir - {first}, name);
      SizeWithout(dir - {name}, first);
      var rest := SizeOf(dir - {name} - {first});
      assert SizeOf(dir - {first}) == Plus(rest, dir[name]) && SizeOf(dir - {name}) == Plus(rest, dir[first]);
      assert Plus(Plus(rest, dir[name]), dir[first]) == Plus(Plus(rest, dir[first]), dir[name]);
    }
  }

  lemma SizeWith(dir: Dir, name: Name, file: File)
    ensures SizeOf(dir[name := file]) == Plus(SizeOf(dir - {name}), file)
  {
    SizeWithout(dir[name := file], name);
    assert dir[name := file] - {name} == dir - {name};
  }

  lemma CardWithout(dir: Dir, name: Name)
    requires name in dir
    ensures |dir - {name}| == |dir| - 1
  {
    assert (dir - {name}).Keys == dir.Keys - {name};
  }

  lemma {:induction false} FilesAreCounted(dir: Dir)
    ensures SizeOf(dir).files == |dir|
    decreases |dir|
  {
    if dir != map[] {
      var name :| name in dir;
      CardWithout(dir, name);
      SizeWithout(dir, name);
      FilesAreCounted(dir - {name});
    }
  }

  // ----- Pruning -----

  datatype Entry = Entry(modified: Instant, len: nat, name: Name)

  function Insert(entries: seq<Entry>, entry: Entry): seq<Entry> {
    if entries == [] then [entry]
    else if entries[|entries| - 1].modified <= entry.modified then entries + [entry]
    else Insert(entries[..|entries| - 1], entry) + [entries[|entries| - 1]]
  }

  /** A stable sort by the time of modification. */
  function Sorted(entries: seq<Entry>): seq<Entry> {
    if entries == [] then [] else Insert(Sorted(entries[..|entries| - 1]), entries[|entries| - 1])
  }

  ghost predicate OldestFirst(entries: seq<Entry>) {
    forall i, j | 0 <= i < j < |entries| :: entries[i].modified <= entries[j].modified
  }

  function EntryOf(dir: Dir, name: Name): Entry
    requires name in dir
  {
    Entry(dir[name].modified, |dir[name].bytes|, name)
  }

  /** The files `names` of `dir`, each once. */
  ghost predicate Noted(entries: seq<Entry>, dir: Dir, names: set<Name>) {
    if entries == [] then names == {}
    else
      var last := entries[|entries| - 1];
      && last.name in names && last.name in dir && last == EntryOf(dir, last.name)
      && Noted(entries[..|entries| - 1], dir, names - {last.name})
  }

  ghost predicate Entries(entries: seq<Entry>, dir: Dir) {
    Noted(entries, dir, dir.Keys)
  }

  lemma OneMoreEntry(entries: seq<Entry>, dir: Dir, names: set<Name>, name: Name)
    requires Noted(entries, dir, names) && name in dir && name !in names
    ensures Noted(entries + [EntryOf(dir, name)], dir, names + {name})
  {
    assert (entries + [EntryOf(dir, name)])[..|entries|] == entries;
    assert names + {name} - {name} == names;
  }

  lemma {:induction false} NotedAt(entries: seq<Entry>, dir: Dir, names: set<Name>, i: nat)
    requires Noted(entries, dir, names) && i < |entries|
    ensures entries[i].name in names && entries[i].name in dir && entries[i] == EntryOf(dir, entries[i].name)
    ensures forall j | 0 <= j < i :: entries[j].name != entries[i].name
  {
    var front := entries[..|entries| - 1];
    if i < |front| {
      NotedAt(front, dir, names - {entries[|front|].name}, i);
      assert forall j | 0 <= j < i :: front[j] == entries[j];
    } else {
      forall j | 0 <= j < i
        ensures entries[j].name != entries[i].name
      {
        NotedAt(front, dir, names - {entries[|front|].name}, j);
      }
    }
  }

  /** Every file is noted. */
  lemma {:induction false} NotedAll(entries: seq<Entry>, dir: Dir, names: set<Name>, name: Name) returns (i: nat)
    requires Noted(entries, dir, names) && name in names
    ensures i < |entries| && entries[i].name == name
  {
    if entries[|entries| - 1].name == name {
      i := |entries| - 1;
    } else {
      i := NotedAll(entries[..|entries| - 1], dir, names - {entries[|entries| - 1].name}, name);
    }
  }

  lemma {:induction false} InsertNotes(entries: seq<Entry>, dir: Dir, names: set<Name>, name: Name)
    requires Noted(entries, dir, names) && name in dir && name !in names
    ensures Noted(Insert(entries, EntryOf(dir, name)), dir, names + {name})
  {
    var entry := EntryOf(dir, name);
    if entries == [] || entries[|entries| - 1].modified <= entry.modified {
      OneMoreEntry(entries, dir, names, name);
      assert [] + [entry] == [entry];
    } else {
      var (front, last) := (entries[..|entries| - 1], entries[|entries| - 1]);
      InsertNotes(front, dir, names - {last.name}, name);
      assert (Insert(front, entry) + [last])[..|Insert(front, entry)|] == Insert(front, entry);
      assert names + {name} - {last.name} == names - {last.name} + {name};
    }
  }

  lemma {:induction false} InsertKeepsOrder(entries: seq<Entry>, entry: Entry, latest: Instant)
    requires OldestFirst(entries) && entry.modified <= latest
    requires forall i | 0 <= i < |entries| :: entries[i].modified <= latest
    ensures OldestFirst(Insert(entries, entry))
    ensures forall i | 0 <= i < |Insert(entries, entry)| :: Insert(entries, entry)[i].modified <= latest
  {
    if entries != [] && entries[|entries| - 1].modified > entry.modified {
      InsertKeepsOrder(entries[..|entries| - 1], entry, entries[|entries| - 1].modified);
    }
  }

  lemma {:induction false} SortedNotes(entries: seq<Entry>, dir: Dir, names: set<Name>)
    requires Noted(entries, dir, names)
    ensures Noted(Sorted(entries), dir, names)
  {
    if entries != [] {
      var (front, last) := (entries[..|entries| - 1], entries[|entries| - 1]);
      SortedNotes(front, dir, names - {last.name});
      InsertNotes(Sorted(front), dir, names - {last.name}, last.name);
      assert names - {last.name} + {last.name} == names;
    }
  }

  lemma {:induction false} SortedIsOldestFirst(entries: seq<Entry>, latest: Instant)
    requires forall i | 0 <= i < |entries| :: entries[i].modified <= latest
    ensures OldestFirst(Sorted(entries))
    ensures forall i | 0 <= i < |Sorted(entries)| :: Sorted(entries)[i].modified <= latest
  {
    if entries != [] {
      SortedIsOldestFirst(entries[..|entries| - 1], latest);
      InsertKeepsOrder(Sorted(entries[..|entries| - 1]), entries[|entries| - 1], latest);
    }
  }

  lemma {:induction false} SomeLatest(entries: seq<Entry>) returns (latest: Instant)
    ensures forall i | 0 <= i < |entries| :: entries[i].modified <= latest
  {
    latest := 0;
    if entries != [] {
      latest := SomeLatest(entries[..|entries| - 1]);
      latest := Max(latest, entries[|entries| - 1].modified);
    }
  }

  /** What is not thrown away for its age. */
  function Unexpired(dir: Dir, expired: bool, now: Instant): Dir {
    map name | name in dir && !(expired && Stale(name, dir[name], now)) :: dir[name]
  }

  /** What is left of `dir` without the first `k` of `order`, those that cannot be removed aside. */
  ghost function Left(dir: Dir, order: seq<Entry>, k: nat, stuck: set<Name>): Dir
    requires k <= |order|
  {
    if k == 0 then dir
    else
      var before := Left(dir, order, k - 1, stuck);
      if order[k - 1].name in stuck then before else before - {order[k - 1].name}
  }

  /** Expired: too old to be used, and asked to be thrown away. */
  ghost function ExpiredIn(dir: Dir, expired: bool, now: Instant): set<Name> {
    set name | name in dir && expired && Stale(name, dir[name], now)
  }

  /** With fewer than `k` gone there is still too much. */
  ghost predicate TooMuchBefore(dir: Dir, stuck: set<Name>, target: Size, order: seq<Entry>, k: nat)
    requires k <= |order|
  {
    if k == 0 then true
    else TooMuchBefore(dir, stuck, target, order, k - 1) && !Within(SizeOf(Left(dir, order, k - 1, stuck)), target)
  }

  /** In the order of `order`, `k` files went for want of room, and not one more than needed. */
  ghost predicate JustEnough(dir: Dir, stuck: set<Name>, target: Size, order: seq<Entry>, k: nat)
    requires k <= |order|
  {
    && TooMuchBefore(dir, stuck, target, order, k)
    && (k == |order| || Within(SizeOf(Left(dir, order, k, stuck)), target))
  }

  /**
   From `dir`, everything expired goes, then the oldest one after the other, just until what is left
   is within the target; files in `stuck` cannot be removed.
   */
  ghost predicate Pruned(dir: Dir, stuck: set<Name>, expired: bool, target: Size, now: Instant, order: seq<Entry>, k: nat,
                         dir': Dir)
    requires k <= |order|
  {
    && Entries(order, Unexpired(dir, expired, now)) && OldestFirst(order)
    && JustEnough(Unexpired(dir, expired, now), stuck, target, order, k)
    && dir' == Left(dir - (ExpiredIn(dir, expired, now) - stuck), order, k, stuck)
  }

  /** The first `k` went, if they could be removed, and nothing else. */
  lemma {:induction false} LeftIs(dir: Dir, order: seq<Entry>, k: nat, stuck: set<Name>, name: Name)
    requires k <= |order|
    ensures var left := Left(dir, order, k, stuck);
            && (name in left <==> name in dir && (name in stuck || forall j | 0 <= j < k :: order[j].name != name))
            && (name in left ==> left[name] == dir[name])
  {
    if k > 0 {
      LeftIs(dir, order, k - 1, stuck, name);
    }
  }

  /** `more` has the files of `dir`, and others. */
  lemma NextIsThere(dir: Dir, more: Dir, order: seq<Entry>, k: nat, stuck: set<Name>)
    requires Entries(order, dir) && k < |order| && dir.Keys <= more.Keys
    requires forall name | name in dir :: more[name] == dir[name]
    ensures order[k].name in Left(more, order, k, stuck)
    ensures order[k].len == |Left(more, order, k, stuck)[order[k].name].bytes|
  {
    NotedAt(order, dir, dir.Keys, k);
    LeftIs(more, order, k, stuck, order[k].name);
  }

  function Lengths(entries: seq<Entry>): nat {
    if entries == [] then 0 else Lengths(entries[..|entries| - 1]) + entries[|entries| - 1].len
  }

  function Restrict(dir: Dir, names: set<Name>): Dir {
    map name | name in dir && name in names :: dir[name]
  }

  lemma {:induction false} LengthsAreBytes(entries: seq<Entry>, dir: Dir, names: set<Name>)
    requires Noted(entries, dir, names)
    ensures Size(|entries|, Lengths(entries)) == SizeOf(Restrict(dir, names))
  {
    if entries == [] {
      assert Restrict(dir, names) == map[];
    } else {
      var (front, last) := (entries[..|entries| - 1], entries[|entries| - 1]);
      LengthsAreBytes(front, dir, names - {last.name});
      SizeWithout(Restrict(dir, names), last.name);
      assert Restrict(dir, names) - {last.name} == Restrict(dir, names - {last.name});
    }
  }

  lemma EntriesSize(entries: seq<Entry>, dir: Dir)
    requires Entries(entries, dir)
    ensures Size(|entries|, Lengths(entries)) == SizeOf(dir)
  {
    LengthsAreBytes(entries, dir, dir.Keys);
    assert Restrict(dir, dir.Keys) == dir;
  }

  lemma OneLess(all: set<Name>, left: set<Name>, name: Name)
    requires name in left
    ensures all - (left - {name}) == if name in all then all - left + {name} else all - left
    ensures name !in all - left
  {
  }

  /**
   The entries of what is not expired, in whatever order the directory has them; what is expired is
   removed, if it can be.
   */
  method DropExpired(start: Dir, stuck: set<Name>, expired: bool, now: Instant)
      returns (dir: Dir, kept: seq<Entry>, ghost gone: set<Name>, removed: nat)
    ensures gone == ExpiredIn(start, expired, now) - stuck && dir == start - gone
    ensures removed + SizeOf(dir).files == SizeOf(start).files
    ensures Entries(kept, Unexpired(start, expired, now))
  {
    dir, kept, removed := start, [], 0;
    ghost var toGo := ExpiredIn(start, expired, now) - stuck;
    ghost var unexpired := Unexpired(start, expired, now);
    gone := {};
    ghost var names: set<Name> := {};
    var left := start.Keys;
    while left != {}
      invariant left <= start.Keys
      invariant gone == toGo - left && names == unexpired.Keys - left
      invariant dir == start - gone
      invariant removed + SizeOf(dir).files == SizeOf(start).files
      invariant Noted(kept, unexpired, names)
      decreases left
    {
      var name :| name in left;
      var file := start[name];
      OneLess(toGo, left, name);
      OneLess(unexpired.Keys, left, name);
      left := left - {name};
      if expired && Stale(name, file, now) {
        if name !in stuck {
          SizeWithout(dir, name);
          dir := dir - {name};
          gone := gone + {name};
          removed := removed + 1;
        }
        continue;
      }
      OneMoreEntry(kept, unexpired, names, name);
      kept := kept + [Entry(file.modified, |file.bytes|, name)];
      names := names + {name};
    }
    assert toGo - left == toGo && names == unexpired.Keys;
  }

  /** What `prune` answers: files, bytes, and how many went. */
  datatype Answer = Answer(size: Size, removed: nat)

  /** The files and bytes that the first `k` of `order` free, if they can be removed. */
  function Freed(order: seq<Entry>, k: nat, stuck: set<Name>): Size
    requires k <= |order|
  {
    if k == 0 then Size(0, 0)
    else
      var before := Freed(order, k - 1, stuck);
      if order[k - 1].name in stuck then before else Size(before.files + 1, before.bytes + order[k - 1].len)
  }

  predicate Over(total: Size, freed: Size, target: Size) {
    total.files > target.files + freed.files || total.bytes > target.bytes + freed.bytes
  }

  ghost predicate OverBefore(order: seq<Entry>, stuck: set<Name>, total: Size, target: Size, k: nat)
    requires k <= |order|
  {
    k > 0 ==> OverBefore(order, stuck, total, target, k - 1) && Over(total, Freed(order, k - 1, stuck), target)
  }

  lemma {:induction false} FreedIsGone(dir: Dir, more: Dir, order: seq<Entry>, k: nat, stuck: set<Name>)
    requires Entries(order, dir) && k <= |order| && dir.Keys <= more.Keys
    requires forall name | name in dir :: more[name] == dir[name]
    ensures var (freed, left) := (Freed(order, k, stuck), SizeOf(Left(more, order, k, stuck)));
            left.files + freed.files == SizeOf(more).files && left.bytes + freed.bytes == SizeOf(more).bytes
  {
    if k > 0 {
      FreedIsGone(dir, more, order, k - 1, stuck);
      NextIsThere(dir, more, order, k - 1, stuck);
      SizeWithout(Left(more, order, k - 1, stuck), order[k - 1].name);
    }
  }

  lemma {:induction false} OverIsTooMuch(dir: Dir, order: seq<Entry>, k: nat, stuck: set<Name>, target: Size)
    requires Entries(order, dir) && k <= |order|
    ensures OverBefore(order, stuck, SizeOf(dir), target, k) == TooMuchBefore(dir, stuck, target, order, k)
  {
    if k > 0 {
      OverIsTooMuch(dir, order, k - 1, stuck, target);
      FreedIsGone(dir, dir, order, k - 1, stuck);
    }
  }

  /** Removes the oldest while there is more than `target`. */
  method RemoveOldest(start: Dir, ghost unexpired: Dir, entries: seq<Entry>, stuck: set<Name>, target: Size)
      returns (dir: Dir, size: Size, removed: nat, ghost k: nat)
    requires Entries(entries, unexpired) && unexpired.Keys <= start.Keys
    requires forall name | name in unexpired :: start[name] == unexpired[name]
    ensures k <= |entries| && JustEnough(unexpired, stuck, target, entries, k)
    ensures dir == Left(start, entries, k, stuck) && removed + SizeOf(dir).files == SizeOf(start).files
    ensures size == SizeOf(Left(unexpired, entries, k, stuck))
  {
    var total := Size(|entries|, Lengths(entries));
    var (files, bytes) := (total.files, total.bytes);
    dir, removed, k := start, 0, 0;
    var i := 0;
    while i < |entries|
      invariant k == i <= |entries|
      invariant dir == Left(start, entries, i, stuck)
      invariant removed == Freed(entries, i, stuck).files
      invariant files == total.files - removed && bytes == total.bytes - Freed(entries, i, stuck).bytes
      invariant OverBefore(entries, stuck, total, target, i)
      decreases |entries| - i
    {
      if files <= target.files && bytes <= target.bytes {
        break;
      }
      if entries[i].name !in stuck {
        dir := dir - {entries[i].name};
        files := files - 1;
        bytes := bytes - entries[i].len;
        removed := removed + 1;
      }
      i, k := i + 1, k + 1;
    }
    EntriesSize(entries, unexpired);
    FreedIsGone(unexpired, unexpired, entries, k, stuck);
    FreedIsGone(unexpired, start, entries, k, stuck);
    OverIsTooMuch(unexpired, entries, k, stuck, target);
    size := Size(files, bytes);
  }

  /**
   Removes what is expired, then the oldest until the rest is within the target. It answers the
   files and bytes of what is not expired, and how many files went.
   */
  method Prune(start: Dir, stuck: set<Name>, expired: bool, target: Size, now: Instant)
      returns (dir: Dir, answer: Answer, ghost order: seq<Entry>, ghost k: nat)
    ensures k <= |order| && Pruned(start, stuck, expired, target, now, order, k, dir)
    ensures answer.size == SizeOf(Left(Unexpired(start, expired, now), order, k, stuck))
    ensures answer.removed + SizeOf(dir).files == SizeOf(start).files
  {
    var base, kept, gone, removed := DropExpired(start, stuck, expired, now);
    ghost var unexpired := Unexpired(start, expired, now);
    SortedNotes(kept, unexpired, unexpired.Keys);
    ghost var latest := SomeLatest(kept);
    SortedIsOldestFirst(kept, latest);
    order := Sorted(kept);
    var size, more;
    dir, size, more, k := RemoveOldest(base, unexpired, Sorted(kept), stuck, target);
    answer := Answer(size, removed + more);
  }

  // ----- What pruning means -----

  ghost function TooOld(dir: Dir, stuck: set<Name>, expired: bool, now: Instant): set<Name> {
    ExpiredIn(dir, expired, now) * stuck
  }

  lemma {:induction false} LeftWithout(dir: Dir, gone: set<Name>, order: seq<Entry>, k: nat, stuck: set<Name>)
    requires k <= |order|
    ensures Left(dir - gone, order, k, stuck) == Left(dir, order, k, stuck) - gone
  {
    if k > 0 {
      LeftWithout(dir, gone, order, k - 1, stuck);
      var (before, name) := (Left(dir, order, k - 1, stuck), order[k - 1].name);
      assert before - gone - {name} == before - {name} - gone;
    }
  }

  /** What is left is what was not expired, less the oldest, and what is expired and cannot be removed. */
  lemma PrunedLeaves(dir: Dir, stuck: set<Name>, expired: bool, target: Size, now: Instant, order: seq<Entry>, k: nat,
                     dir': Dir)
    requires k <= |order| && Pruned(dir, stuck, expired, target, now, order, k, dir')
    ensures TooOld(dir, stuck, expired, now) <= dir'.Keys
    ensures Left(Unexpired(dir, expired, now), order, k, stuck) == dir' - TooOld(dir, stuck, expired, now)
  {
    var aged := ExpiredIn(dir, expired, now);
    assert Unexpired(dir, expired, now) == dir - aged;
    LeftWithout(dir, aged, order, k, stuck);
    LeftWithout(dir, aged - stuck, order, k, stuck);
    var left := Left(dir, order, k, stuck);
    assert dir' == left - (aged - stuck);
    forall name | name in aged * stuck
      ensures name in dir'
    {
      LeftIs(dir, order, k, stuck, name);
    }
    assert left - aged == dir' - aged * stuck;
  }

  lemma {:induction false} SizeOfPart(dir: Dir, gone: set<Name>)
    requires gone <= dir.Keys
    ensures SizeOf(dir - gone).files <= SizeOf(dir).files
    ensures SizeOf(dir - gone) == SizeOf(dir) <==> gone == {}
  {
    if gone == {} {
      assert dir - gone == dir;
    } else {
      var name :| name in gone;
      SizeOfPart(dir, gone - {name});
      SizeWithout(dir - (gone - {name}), name);
      assert dir - (gone - {name}) - {name} == dir - gone;
    }
  }

  /** The answer is what the directory holds, just when all that was too old could be removed. */
  lemma AnswerIsExact(dir: Dir, stuck: set<Name>, expired: bool, target: Size, now: Instant, order: seq<Entry>, k: nat,
                      dir': Dir)
    requires k <= |order| && Pruned(dir, stuck, expired, target, now, order, k, dir')
    ensures SizeOf(Left(Unexpired(dir, expired, now), order, k, stuck)) == SizeOf(dir') <==> TooOld(dir, stuck, expired, now) == {}
  {
    PrunedLeaves(dir, stuck, expired, target, now, order, k, dir');
    SizeOfPart(dir', TooOld(dir, stuck, expired, now));
  }

  /** An icon that is too old and cannot be removed is there, and not in the answer. */
  lemma StuckIsNotAnswered(target: Size)
    ensures var (stuck, now) := (Icon("a"), (ICON_DAYS + 1) * DAY);
            var dir: Dir := map[stuck := File([1], 0)];
            && Pruned(dir, {stuck}, true, target, now, [], 0, dir)
            && SizeOf(Left(Unexpired(dir, true, now), [], 0, {stuck})) == Size(0, 0) != SizeOf(dir)
  {
    var (stuck, now) := (Icon("a"), (ICON_DAYS + 1) * DAY);
    var dir: Dir := map[stuck := File([1], 0)];
    assert Unexpired(dir, true, now) == map[];
    assert Pruned(dir, {stuck}, true, target, now, [], 0, dir);
    assert stuck in TooOld(dir, {stuck}, true, now);
    AnswerIsExact(dir, {stuck}, true, target, now, [], 0, dir);
  }

  /** With removals succeeding, what is left is within the target. */
  lemma PrunedFits(dir: Dir, expired: bool, target: Size, now: Instant, order: seq<Entry>, k: nat, dir': Dir)
    requires k <= |order| && Pruned(dir, {}, expired, target, now, order, k, dir')
    ensures Within(SizeOf(dir'), target) && dir' == Left(Unexpired(dir, expired, now), order, k, {})
  {
    PrunedLeaves(dir, {}, expired, target, now, order, k, dir');
    var unexpired := Unexpired(dir, expired, now);
    assert dir' - {} == dir' && TooOld(dir, {}, expired, now) == {};
    if k == |order| {
      forall name
        ensures name !in Left(unexpired, order, k, {})
      {
        LeftIs(unexpired, order, k, {}, name);
        if name in unexpired {
          var i := NotedAll(order, unexpired, unexpired.Keys, name);
        }
      }
      assert Left(unexpired, order, k, {}) == map[];
    }
  }

  /** What went for want of room is no newer than what was kept and could have gone. */
  lemma OldestWent(dir: Dir, stuck: set<Name>, expired: bool, target: Size, now: Instant, order: seq<Entry>, k: nat,
                   dir': Dir, went: Name, kept: Name)
    requires k <= |order| && Pruned(dir, stuck, expired, target, now, order, k, dir')
    requires went in Unexpired(dir, expired, now) && went !in dir'
    requires kept in Unexpired(dir, expired, now) && kept in dir' && kept !in stuck
    ensures dir[went].modified <= dir[kept].modified
  {
    var unexpired := Unexpired(dir, expired, now);
    var base := dir - (ExpiredIn(dir, expired, now) - stuck);
    LeftIs(base, order, k, stuck, went);
    LeftIs(base, order, k, stuck, kept);
    var j := NotedAll(order, unexpired, unexpired.Keys, kept);
    var i :| 0 <= i < k && order[i].name == went;
    NotedAt(order, unexpired, unexpired.Keys, i);
    NotedAt(order, unexpired, unexpired.Keys, j);
  }

  /** With one removal fewer there would still have been too much. */
  lemma NotOneMore(dir: Dir, stuck: set<Name>, expired: bool, target: Size, now: Instant, order: seq<Entry>, k: nat,
                   dir': Dir, j: nat)
    requires j < k <= |order| && Pruned(dir, stuck, expired, target, now, order, k, dir')
    ensures !Within(SizeOf(Left(Unexpired(dir, expired, now), order, j, stuck)), target)
  {
    TooMuchAt(Unexpired(dir, expired, now), stuck, target, order, k, j);
  }

  lemma {:induction false} TooMuchAt(dir: Dir, stuck: set<Name>, target: Size, order: seq<Entry>, k: nat, j: nat)
    requires j < k <= |order| && TooMuchBefore(dir, stuck, target, order, k)
    ensures !Within(SizeOf(Left(dir, order, j, stuck)), target)
  {
    if j < k - 1 {
      TooMuchAt(dir, stuck, target, order, k - 1, j);
    }
  }

  // ----- Keeping -----

  function Mine(host: string, icon: Option<seq<Byte>>): Name {
    if icon.Some? then Icon(host) else NoIcon(host)
  }

  function Other(host: string, icon: Option<seq<Byte>>): Name {
    if icon.Some? then NoIcon(host) else Icon(host)
  }

  function Content(icon: Option<seq<Byte>>): seq<Byte> {
    if icon.Some? then icon.value else []
  }

  /** How writing goes: done, or failed with or without a part of the temporary file left. */
  datatype Write = Written | Failed(left: Option<File>)

  /** How the file system takes it: the other file is removed or not, the new one written or not. */
  datatype Mood = Mood(clears: bool, write: Write, id: nat)

  const GOOD: Mood := Mood(true, Written, 0)

  function Cleared(dir: Dir, host: string, icon: Option<seq<Byte>>, mood: Mood): Dir {
    if mood.clears then dir - {Other(host, icon)} else dir
  }

  function AfterWrite(dir: Dir, host: string, icon: Option<seq<Byte>>, mood: Mood, now: Instant): Dir {
    var cleared := Cleared(dir, host, icon, mood);
    match mood.write
    case Written => cleared[Mine(host, icon) := File(Content(icon), now)]
    case Failed(None) => cleared
    case Failed(Some(left)) => cleared[Temporary(host, mood.id) := left]
  }

  function SizeIn(dir: Dir, name: Name): Size {
    if name in dir then Size(1, |dir[name].bytes|) else Size(0, 0)
  }

  function Less(size: Size, gone: Size): Size {
    Size(Max(size.files - gone.files, 0), Max(size.bytes - gone.bytes, 0))
  }

  /** What the book says after a write, whether it worked or not. */
  function Booked(book: Size, dir: Dir, host: string, icon: Option<seq<Byte>>): Size {
    var without := Less(Less(book, SizeIn(dir, Icon(host))), SizeIn(dir, NoIcon(host)));
    Size(without.files + 1, without.bytes + |Content(icon)|)
  }

  /**
   The book stays right just here: after a write that worked, if the other file went; after one that
   failed, if what is there by chance has the files and bytes that were to be.
   */
  predicate Settled(dir: Dir, host: string, icon: Option<seq<Byte>>, mood: Mood) {
    var (mine, other, len) := (Mine(host, icon), Other(host, icon), |Content(icon)|);
    var stays := other in dir && !mood.clears;
    match mood.write
    case Written => !stays
    case Failed(None) =>
      if stays then mine !in dir && |dir[other].bytes| == len else mine in dir && |dir[mine].bytes| == len
    case Failed(Some(left)) => !stays && mine !in dir && |left.bytes| == len
  }

  /** `whole` is the rest and two parts. */
  predicate Adds(whole: Size, rest: Size, a: Size, b: Size) {
    whole.files == rest.files + a.files + b.files && whole.bytes == rest.bytes + a.bytes + b.bytes
  }

  lemma SizeAside(dir: Dir, name: Name)
    ensures Adds(SizeOf(dir), SizeOf(dir - {name}), SizeIn(dir, name), Size(0, 0))
  {
    if name in dir {
      SizeWithout(dir, name);
    } else {
      assert dir - {name} == dir;
    }
  }

  /** What there is beside the host's two files. */
  ghost function Rest(dir: Dir, host: string): Size {
    SizeOf(dir - {Icon(host)} - {NoIcon(host)})
  }

  lemma RestAndTwo(dir: Dir, host: string)
    ensures Adds(SizeOf(dir), Rest(dir, host), SizeIn(dir, Icon(host)), SizeIn(dir, NoIcon(host)))
  {
    assert SizeIn(dir - {Icon(host)}, NoIcon(host)) == SizeIn(dir, NoIcon(host));
    SizeAside(dir, Icon(host));
    SizeAside(dir - {Icon(host)}, NoIcon(host));
  }

  lemma BookedIs(dir: Dir, host: string, icon: Option<seq<Byte>>)
    ensures Adds(Booked(SizeOf(dir), dir, host, icon), Rest(dir, host), Size(0, 0), Size(1, |Content(icon)|))
  {
    RestAndTwo(dir, host);
    TakenOff(SizeOf(dir), Rest(dir, host), SizeIn(dir, Icon(host)), SizeIn(dir, NoIcon(host)));
  }

  lemma TakenOff(whole: Size, rest: Size, a: Size, b: Size)
    requires Adds(whole, rest, a, b)
    ensures Less(Less(whole, a), b) == rest
  {
    assert Less(Less(whole, a), b).files == rest.files;
    assert Less(Less(whole, a), b).bytes == rest.bytes;
  }

  /** `dir'` has the same other files. */
  lemma SameRest(dir: Dir, dir': Dir, host: string)
    requires dir' - {Icon(host)} - {NoIcon(host)} == dir - {Icon(host)} - {NoIcon(host)}
    ensures Adds(SizeOf(dir'), Rest(dir, host), SizeIn(dir', Icon(host)), SizeIn(dir', NoIcon(host)))
  {
    RestAndTwo(dir', host);
  }

  /** What stays of the other file. */
  function Stays(dir: Dir, host: string, icon: Option<seq<Byte>>, mood: Mood): Size {
    if mood.clears then Size(0, 0) else SizeIn(dir, Other(host, icon))
  }

  lemma WrittenSize(dir: Dir, host: string, icon: Option<seq<Byte>>, mood: Mood, now: Instant)
    requires mood.write.Written?
    ensures Adds(SizeOf(AfterWrite(dir, host, icon, mood, now)), Rest(dir, host), Stays(dir, host, icon, mood),
                 Size(1, |Content(icon)|))
  {
    var dir' := AfterWrite(dir, host, icon, mood, now);
    assert dir' - {Icon(host)} - {NoIcon(host)} == dir - {Icon(host)} - {NoIcon(host)};
    SameRest(dir, dir', host);
    assert SizeIn(dir', Mine(host, icon)) == Size(1, |Content(icon)|);
    assert SizeIn(dir', Other(host, icon)) == Stays(dir, host, icon, mood);
  }

  lemma SameAside(dir: Dir, host: string, icon: Option<seq<Byte>>)
    ensures dir - {Other(host, icon)} - {Icon(host)} - {NoIcon(host)} == dir - {Icon(host)} - {NoIcon(host)}
  {
  }

  lemma InRemoved(dir: Dir, host: string, icon: Option<seq<Byte>>)
    ensures SizeIn(dir - {Other(host, icon)}, Mine(host, icon)) == SizeIn(dir, Mine(host, icon))
    ensures SizeIn(dir - {Other(host, icon)}, Other(host, icon)) == Size(0, 0)
  {
  }

  lemma RemovedSize(dir: Dir, host: string, icon: Option<seq<Byte>>)
    ensures Adds(SizeOf(dir - {Other(host, icon)}), Rest(dir, host), Size(0, 0), SizeIn(dir, Mine(host, icon)))
  {
    assert dir - {Other(host, icon)} - {Icon(host)} - {NoIcon(host)} == dir - {Icon(host)} - {NoIcon(host)} by {
      SameAside(dir, host, icon);
    }
    SameRest(dir, dir - {Other(host, icon)}, host);
    InRemoved(dir, host, icon);
  }

  lemma ClearedSize(dir: Dir, host: string, icon: Option<seq<Byte>>, mood: Mood)
    ensures Adds(SizeOf(Cleared(dir, host, icon, mood)), Rest(dir, host), Stays(dir, host, icon, mood),
                 SizeIn(dir, Mine(host, icon)))
  {
    RemovedSize(dir, host, icon);
    RestAndTwo(dir, host);
  }

  /** A temporary file left behind comes on top. */
  lemma LeftoverSize(dir: Dir, host: string, icon: Option<seq<Byte>>, mood: Mood, left: File)
    requires Temporary(host, mood.id) !in dir
    ensures var cleared := Cleared(dir, host, icon, mood);
            Adds(SizeOf(cleared[Temporary(host, mood.id) := left]), SizeOf(cleared), Size(1, |left.bytes|), Size(0, 0))
  {
    var cleared := Cleared(dir, host, icon, mood);
    SizeWith(cleared, Temporary(host, mood.id), left);
    assert cleared - {Temporary(host, mood.id)} == cleared;
  }

  lemma SameSum(a: Size, b: Size, rest: Size, x: Size, y: Size, u: Size, v: Size)
    requires Adds(a, rest, x, y) && Adds(b, rest, u, v)
    ensures a == b <==> x.files + y.files == u.files + v.files && x.bytes + y.bytes == u.bytes + v.bytes
  {
  }

  lemma BookAfterSuccess(dir: Dir, host: string, icon: Option<seq<Byte>>, mood: Mood, now: Instant)
    requires mood.write.Written?
    ensures Booked(SizeOf(dir), dir, host, icon) == SizeOf(AfterWrite(dir, host, icon, mood, now))
       <==> mood.clears || Other(host, icon) !in dir
  {
    BookedIs(dir, host, icon);
    WrittenSize(dir, host, icon, mood, now);
    SameSum(Booked(SizeOf(dir), dir, host, icon), SizeOf(AfterWrite(dir, host, icon, mood, now)), Rest(dir, host),
            Size(0, 0), Size(1, |Content(icon)|), Stays(dir, host, icon, mood), Size(1, |Content(icon)|));
  }

  lemma BookAfterFailure(dir: Dir, host: string, icon: Option<seq<Byte>>, mood: Mood)
    ensures Booked(SizeOf(dir), dir, host, icon) == SizeOf(Cleared(dir, host, icon, mood))
       <==> Settled(dir, host, icon, mood.(write := Failed(None)))
  {
    var (stays, mine) := (Stays(dir, host, icon, mood), SizeIn(dir, Mine(host, icon)));
    BookedIs(dir, host, icon);
    ClearedSize(dir, host, icon, mood);
    FailureSettles(dir, host, icon, mood);
    SameSum(Booked(SizeOf(dir), dir, host, icon), SizeOf(Cleared(dir, host, icon, mood)), Rest(dir, host),
            Size(0, 0), Size(1, |Content(icon)|), stays, mine);
  }

  lemma FailureSettles(dir: Dir, host: string, icon: Option<seq<Byte>>, mood: Mood)
    ensures var (stays, mine) := (Stays(dir, host, icon, mood), SizeIn(dir, Mine(host, icon)));
            Settled(dir, host, icon, mood.(write := Failed(None)))
            <==> 1 == stays.files + mine.files && |Content(icon)| == stays.bytes + mine.bytes
  {
  }

  lemma LeftoverSettles(dir: Dir, host: string, icon: Option<seq<Byte>>, mood: Mood, left: File)
    ensures var (stays, mine) := (Stays(dir, host, icon, mood), SizeIn(dir, Mine(host, icon)));
            Settled(dir, host, icon, mood.(write := Failed(Some(left))))
            <==> 0 == stays.files + mine.files && |Content(icon)| == stays.bytes + mine.bytes + |left.bytes|
  {
  }

  lemma BookAfterLeftover(dir: Dir, host: string, icon: Option<seq<Byte>>, mood: Mood, left: File)
    requires Temporary(host, mood.id) !in dir
    ensures Booked(SizeOf(dir), dir, host, icon) == SizeOf(Cleared(dir, host, icon, mood)[Temporary(host, mood.id) := left])
       <==> Settled(dir, host, icon, mood.(write := Failed(Some(left))))
  {
    var (stays, mine) := (Stays(dir, host, icon, mood), SizeIn(dir, Mine(host, icon)));
    BookedIs(dir, host, icon);
    LeftoverSize(dir, host, icon, mood, left);
    ClearedSize(dir, host, icon, mood);
    LeftoverSettles(dir, host, icon, mood, left);
    SameSum(Booked(SizeOf(dir), dir, host, icon), SizeOf(Cleared(dir, host, icon, mood)[Temporary(host, mood.id) := left]),
            Rest(dir, host), Size(0, 0), Size(1, |Content(icon)|), stays, Size(mine.files + 1, mine.bytes + |left.bytes|));
  }

  lemma BookAfterWrite(dir: Dir, host: string, icon: Option<seq<Byte>>, mood: Mood, now: Instant)
    requires Temporary(host, mood.id) !in dir
    ensures Booked(SizeOf(dir), dir, host, icon) == SizeOf(AfterWrite(dir, host, icon, mood, now))
       <==> Settled(dir, host, icon, mood)
  {
    match mood.write
    case Written => BookAfterSuccess(dir, host, icon, mood, now);
    case Failed(None) => BookAfterFailure(dir, host, icon, mood);
    case Failed(Some(left)) => BookAfterLeftover(dir, host, icon, mood, left);
  }

  lemma FirstNotSettled(dir: Dir, host: string, icon: Option<seq<Byte>>, id: nat)
    requires Icon(host) !in dir && NoIcon(host) !in dir
    ensures !Settled(dir, host, icon, Mood(true, Failed(None), id))
  {
  }

  /** The first write for a host, if it fails, is booked all the same: the book is wrong then. */
  lemma FailedWriteIsBooked(dir: Dir, host: string, icon: Option<seq<Byte>>, id: nat, now: Instant)
    requires Icon(host) !in dir && NoIcon(host) !in dir && Temporary(host, id) !in dir
    ensures Booked(SizeOf(dir), dir, host, icon) != SizeOf(AfterWrite(dir, host, icon, Mood(true, Failed(None), id), now))
  {
    BookAfterWrite(dir, host, icon, Mood(true, Failed(None), id), now);
    FirstNotSettled(dir, host, icon, id);
  }

  // ----- Runs of the cache, with removals and writes succeeding -----

  datatype Cache = Cache(dir: Dir, counted: Option<Size>)

  datatype Step =
    | Keep(host: string, icon: Option<seq<Byte>>, room: bool, now: Instant)
    | Daily(now: Instant)
    | Count
    | Clear

  function Target(limits: Size): (target: Size)
    ensures 100 * target.files <= 80 * limits.files < 100 * (target.files + 1)
    ensures 100 * target.bytes <= 80 * limits.bytes < 100 * (target.bytes + 1)
  {
    Size(limits.files * AFTER_EVICTION / 100, limits.bytes * AFTER_EVICTION / 100)
  }

  /** What was counted, or is now. */
  ghost function Book(c: Cache): Size {
    if c.counted.Some? then c.counted.value else SizeOf(c.dir)
  }

  /** An eviction from `dir`: what is left, and counted anew. */
  ghost predicate Evicted(limits: Size, dir: Dir, stuck: set<Name>, expired: bool, now: Instant, c': Cache) {
    exists order, k: nat {:trigger Pruned(dir, stuck, expired, Target(limits), now, order, k, c'.dir)} ::
      && k <= |order| && Pruned(dir, stuck, expired, Target(limits), now, order, k, c'.dir)
      && c'.counted == Some(SizeOf(Left(Unexpired(dir, expired, now), order, k, stuck)))
  }

  /** After a write with room for it: past the limits, the oldest go. */
  ghost predicate Kept(limits: Size, c: Cache, host: string, icon: Option<seq<Byte>>, mood: Mood, stuck: set<Name>,
                       now: Instant, c': Cache) {
    var dir := AfterWrite(c.dir, host, icon, mood, now);
    var book := Booked(Book(c), c.dir, host, icon);
    if Within(book, limits) then c' == Cache(dir, Some(book)) else Evicted(limits, dir, stuck, false, now, c')
  }

  ghost predicate Next(limits: Size, c: Cache, step: Step, c': Cache) {
    match step
    case Keep(host, icon, room, now) => if room then Kept(limits, c, host, icon, GOOD, {}, now, c') else c' == c
    case Daily(now) => Evicted(limits, c.dir, {}, true, now, c')
    case Count => c' == Cache(c.dir, Some(Book(c)))
    case Clear => c' == Cache(map[], None)
  }

  ghost predicate Follows(limits: Size, c: Cache, c': Cache) {
    exists step :: Next(limits, c, step, c')
  }

  /** The server starts with whatever an earlier run left, not counted yet. */
  ghost predicate Run(limits: Size, run: seq<Cache>) {
    && |run| > 0 && run[0].counted == None && OneKind(run[0].dir)
    && forall i | 0 < i < |run| :: Follows(limits, run[i - 1], run[i])
  }

  /** No host has an icon and has none. */
  ghost predicate OneKind(dir: Dir) {
    forall host :: !(Icon(host) in dir && NoIcon(host) in dir)
  }

  ghost predicate Inv(c: Cache) {
    OneKind(c.dir) && Book(c) == SizeOf(c.dir)
  }

  lemma EvictionFits(limits: Size, dir: Dir, expired: bool, now: Instant, c': Cache)
    requires Evicted(limits, dir, {}, expired, now, c')
    ensures c'.counted == Some(SizeOf(c'.dir)) && Within(SizeOf(c'.dir), limits)
    ensures forall name | name in c'.dir :: name in dir && c'.dir[name] == dir[name]
  {
    var target := Target(limits);
    var order, k: nat :| k <= |order| && Pruned(dir, {}, expired, target, now, order, k, c'.dir)
      && c'.counted == Some(SizeOf(Left(Unexpired(dir, expired, now), order, k, {})));
    PrunedFits(dir, expired, target, now, order, k, c'.dir);
    assert target.files <= limits.files && target.bytes <= limits.bytes;
    forall name | name in c'.dir
      ensures name in dir && c'.dir[name] == dir[name]
    {
      LeftIs(Unexpired(dir, expired, now), order, k, {}, name);
    }
  }

  ghost predicate Older(dir: Dir, now: Instant) {
    forall name | name in dir :: dir[name].modified < now
  }

  /**
   After a host's icon, or that it has none, is kept: the cache is within its ceilings; the host has
   nothing else; no other host got anything; and the host has it if all fits. If not, and everything
   else is older, it has it still just when it alone is within what an eviction aims for.
   */
  ghost predicate WellKept(limits: Size, c: Cache, host: string, icon: Option<seq<Byte>>, now: Instant, c': Cache) {
    && Within(SizeOf(c'.dir), limits)
    && Other(host, icon) !in c'.dir
    && (Mine(host, icon) in c'.dir ==> c'.dir[Mine(host, icon)] == File(Content(icon), now))
    && (Within(SizeOf(AfterWrite(c.dir, host, icon, GOOD, now)), limits) ==> JustAdded(c.dir, host, icon, now, c'.dir))
    && (forall name | name in c'.dir && name != Mine(host, icon) :: name in c.dir && c'.dir[name] == c.dir[name])
    && (!Within(SizeOf(AfterWrite(c.dir, host, icon, GOOD, now)), limits) && Older(c.dir, now) ==>
          (Mine(host, icon) in c'.dir <==> Within(Size(1, |Content(icon)|), Target(limits))))
  }

  ghost predicate JustAdded(dir: Dir, host: string, icon: Option<seq<Byte>>, now: Instant, dir': Dir) {
    dir' == (dir - {Other(host, icon)})[Mine(host, icon) := File(Content(icon), now)]
  }

  lemma KeepKeeps(limits: Size, c: Cache, host: string, icon: Option<seq<Byte>>, now: Instant, c': Cache)
    requires Inv(c) && Kept(limits, c, host, icon, GOOD, {}, now, c')
    ensures Inv(c') && WellKept(limits, c, host, icon, now, c')
  {
    if Within(SizeOf(AfterWrite(c.dir, host, icon, GOOD, now)), limits) {
      KeepFits(limits, c, host, icon, now, c');
    } else {
      EvictsByRightBook(limits, c, host, icon, now, c');
      KeepEvicts(limits, c, host, icon, now, c');
    }
  }

  lemma RightBook(limits: Size, c: Cache, host: string, icon: Option<seq<Byte>>, now: Instant, c': Cache)
    requires Book(c) == SizeOf(c.dir) && Kept(limits, c, host, icon, GOOD, {}, now, c')
    ensures var dir := AfterWrite(c.dir, host, icon, GOOD, now);
            if Within(SizeOf(dir), limits) then c' == Cache(dir, Some(SizeOf(dir))) else Evicted(limits, dir, {}, false, now, c')
  {
    BookAfterSuccess(c.dir, host, icon, GOOD, now);
  }

  lemma EvictsByRightBook(limits: Size, c: Cache, host: string, icon: Option<seq<Byte>>, now: Instant, c': Cache)
    requires Book(c) == SizeOf(c.dir) && Kept(limits, c, host, icon, GOOD, {}, now, c')
    requires !Within(SizeOf(AfterWrite(c.dir, host, icon, GOOD, now)), limits)
    ensures Evicted(limits, AfterWrite(c.dir, host, icon, GOOD, now), {}, false, now, c')
  {
    RightBook(limits, c, host, icon, now, c');
  }

  lemma KeepFits(limits: Size, c: Cache, host: string, icon: Option<seq<Byte>>, now: Instant, c': Cache)
    requires Inv(c) && Within(SizeOf(AfterWrite(c.dir, host, icon, GOOD, now)), limits)
    requires Kept(limits, c, host, icon, GOOD, {}, now, c')
    ensures Inv(c') && WellKept(limits, c, host, icon, now, c')
  {
    RightBook(limits, c, host, icon, now, c');
    WriteKeepsOneKind(c.dir, host, icon, now);
  }

  lemma KeepEvicts(limits: Size, c: Cache, host: string, icon: Option<seq<Byte>>, now: Instant, c': Cache)
    requires Inv(c) && Evicted(limits, AfterWrite(c.dir, host, icon, GOOD, now), {}, false, now, c')
    requires !Within(SizeOf(AfterWrite(c.dir, host, icon, GOOD, now)), limits)
    ensures Inv(c') && WellKept(limits, c, host, icon, now, c')
  {
    var dir := AfterWrite(c.dir, host, icon, GOOD, now);
    WriteKeepsOneKind(c.dir, host, icon, now);
    EvictionFits(limits, dir, false, now, c');
    FewerKinds(dir, c'.dir);
    if Older(c.dir, now) {
      NewestStays(limits, dir, now, c', Mine(host, icon));
    }
  }

  /** The newest file is the last of the order. */
  lemma NewestIsLast(order: seq<Entry>, dir: Dir, newest: Name)
    requires Entries(order, dir) && OldestFirst(order) && newest in dir
    requires forall name | name in dir && name != newest :: dir[name].modified < dir[newest].modified
    ensures |order| > 0 && order[|order| - 1].name == newest
    ensures forall i | 0 <= i < |order| - 1 :: order[i].name != newest
  {
    var at := NotedAll(order, dir, dir.Keys, newest);
    var last := |order| - 1;
    NotedAt(order, dir, dir.Keys, at);
    NotedAt(order, dir, dir.Keys, last);
  }

  /** With all others gone, what is left is the newest. */
  lemma OnlyNewestLeft(order: seq<Entry>, dir: Dir, newest: Name)
    requires Entries(order, dir) && |order| > 0 && order[|order| - 1].name == newest && newest in dir
    requires forall i | 0 <= i < |order| - 1 :: order[i].name != newest
    ensures Left(dir, order, |order| - 1, {}) == map[newest := dir[newest]]
    ensures SizeOf(Left(dir, order, |order| - 1, {})) == Size(1, |dir[newest].bytes|)
  {
    var left := Left(dir, order, |order| - 1, {});
    forall name
      ensures name in left <==> name == newest
      ensures name in left ==> left[name] == dir[name]
    {
      LeftIs(dir, order, |order| - 1, {}, name);
      if name in dir {
        var i := NotedAll(order, dir, dir.Keys, name);
      }
    }
    SizeWithout(left, newest);
    assert left - {newest} == map[];
  }

  /** The newest file outlives an eviction exactly if it alone is within the target. */
  lemma NewestStays(limits: Size, dir: Dir, now: Instant, c': Cache, newest: Name)
    requires Evicted(limits, dir, {}, false, now, c') && newest in dir
    requires forall name | name in dir && name != newest :: dir[name].modified < dir[newest].modified
    ensures newest in c'.dir <==> Within(Size(1, |dir[newest].bytes|), Target(limits))
  {
    var target := Target(limits);
    var order, k: nat :| k <= |order| && Pruned(dir, {}, false, target, now, order, k, c'.dir)
      && c'.counted == Some(SizeOf(Left(Unexpired(dir, false, now), order, k, {})));
    assert Unexpired(dir, false, now) == dir;
    PrunedFits(dir, false, target, now, order, k, c'.dir);
    NewestIsLast(order, dir, newest);
    OnlyNewestLeft(order, dir, newest);
    LeftIs(dir, order, k, {}, newest);
    if newest in c'.dir {
      SizeWithout(c'.dir, newest);
    } else {
      TooMuchAt(dir, {}, target, order, k, |order| - 1);
    }
  }

  lemma FewerKinds(dir: Dir, dir': Dir)
    requires OneKind(dir) && forall name | name in dir' :: name in dir
    ensures OneKind(dir')
  {
  }

  lemma WriteKeepsOneKind(dir: Dir, host: string, icon: Option<seq<Byte>>, now: Instant)
    requires OneKind(dir)
    ensures var dir' := AfterWrite(dir, host, icon, GOOD, now);
            && OneKind(dir') && Other(host, icon) !in dir'
            && Mine(host, icon) in dir' && dir'[Mine(host, icon)] == File(Content(icon), now)
            && forall name | name in dir' && name != Mine(host, icon) :: name in dir && dir'[name] == dir[name]
  {
  }

  lemma StepKeeps(limits: Size, c: Cache, c': Cache)
    requires Inv(c) && Follows(limits, c, c')
    ensures Inv(c')
  {
    var step :| Next(limits, c, step, c');
    if step.Keep? {
      if step.room {
        KeepKeeps(limits, c, step.host, step.icon, step.now, c');
      }
    } else if step.Daily? {
      DailyKeeps(limits, c, step.now, c');
    } else if step.Count? {
      assert c' == Cache(c.dir, Some(Book(c)));
    } else {
      assert c' == Cache(map[], None);
    }
  }

  lemma DailyKeeps(limits: Size, c: Cache, now: Instant, c': Cache)
    requires Inv(c) && Evicted(limits, c.dir, {}, true, now, c')
    ensures Inv(c') && Within(SizeOf(c'.dir), limits)
  {
    EvictionFits(limits, c.dir, true, now, c');
    FewerKinds(c.dir, c'.dir);
  }

  /** In every run, the book is right and no host has two files. */
  lemma {:induction false} RunKeepsBook(limits: Size, run: seq<Cache>, i: nat)
    requires Run(limits, run) && i < |run|
    ensures Inv(run[i])
  {
    if i > 0 {
      RunKeepsBook(limits, run, i - 1);
      StepKeeps(limits, run[i - 1], run[i]);
    }
  }

  // ----- What the cache says -----

  predicate Usable(dir: Dir, name: Name, days: nat, now: Instant) {
    name in dir && dir[name].modified <= now && now - dir[name].modified < days * DAY
  }

  /** An icon, that there is none, or nothing. */
  function Says(dir: Dir, host: string, now: Instant): Option<Option<seq<Byte>>> {
    if Usable(dir, Icon(host), ICON_DAYS, now) then Some(Some(dir[Icon(host)].bytes))
    else if Usable(dir, NoIcon(host), NONE_DAYS, now) then Some(None)
    else None
  }

  lemma SaidIs(dir: Dir, host: string, icon: Option<seq<Byte>>, at: Instant, now: Instant)
    requires Other(host, icon) !in dir
    requires Mine(host, icon) in dir ==> dir[Mine(host, icon)] == File(Content(icon), at)
    ensures Says(dir, host, now) != None
       <==> Mine(host, icon) in dir && at <= now < at + (if icon.Some? then ICON_DAYS else NONE_DAYS) * DAY
    ensures Says(dir, host, now) != None ==> Says(dir, host, now) == Some(icon)
  {
  }

  /** What was kept is said for its days and no longer, unless it went for want of room. */
  lemma KeptIsSaid(limits: Size, c: Cache, host: string, icon: Option<seq<Byte>>, at: Instant, c': Cache, now: Instant)
    requires WellKept(limits, c, host, icon, at, c')
    ensures Says(c'.dir, host, now) != None
       <==> Mine(host, icon) in c'.dir && at <= now < at + (if icon.Some? then ICON_DAYS else NONE_DAYS) * DAY
    ensures Says(c'.dir, host, now) != None ==> Says(c'.dir, host, now) == Some(icon)
  {
    SaidIs(c'.dir, host, icon, at, now);
  }

  /** Throwing away what is too old takes nothing that the cache would have said. */
  lemma ExpiredSaysNothing(dir: Dir, host: string, at: Instant, now: Instant)
    requires at <= now
    ensures Says(Unexpired(dir, true, at), host, now) == Says(dir, host, now)
  {
  }

  /**
   And it takes all that is too old: an icon after 30 days, a "none" after 3, what a write left behind
   after one.
   */
  lemma GoneExactly(dir: Dir, name: Name, now: Instant)
    requires name in dir
    ensures name !in Unexpired(dir, true, now) <==>
              now > dir[name].modified + (if name.Icon? then 30 else if name.NoIcon? then 3 else 1) * 86_400
    ensures name in Unexpired(dir, true, now) ==> Unexpired(dir, true, now)[name] == dir[name]
    ensures Unexpired(dir, false, now) == dir
  {
  }

  // ----- The cache as it runs -----

  /** `cache_size`: counted on disk. */
  method CacheSize(dir: Dir) returns (size: Size)
    ensures size == SizeOf(dir)
  {
    var (files, bytes) := (0, 0);
    var left := dir.Keys;
    ghost var seen: Dir := map[];
    while left != {}
      invariant left <= dir.Keys && seen == dir - left
      invariant files == SizeOf(seen).files && bytes == SizeOf(seen).bytes
      decreases left
    {
      var name :| name in left;
      OneMoreSeen(dir, left, name);
      seen := dir - (left - {name});
      files := files + 1;
      bytes := bytes + |dir[name].bytes|;
      left := left - {name};
    }
    assert dir - {} == dir;
    size := Size(files, bytes);
  }

  lemma OneMoreSeen(dir: Dir, left: set<Name>, name: Name)
    requires name in left && left <= dir.Keys
    ensures SizeOf(dir - (left - {name})) == Plus(SizeOf(dir - left), dir[name])
  {
    SizeWithout(dir - (left - {name}), name);
    assert dir - (left - {name}) - {name} == dir - left;
  }

  class Icons {
    const limits: Size
    var dir: Dir
    var counted: Option<Size>

    ghost function Value(): Cache
      reads this
    {
      Cache(dir, counted)
    }

    constructor (limits: Size, dir: Dir)
      ensures this.limits == limits && Value() == Cache(dir, None)
    {
      this.limits, this.dir, counted := limits, dir, None;
    }

    /** The cache's files and bytes, counted the first time. */
    method Counted() returns (size: Size)
      modifies this`counted
      ensures size == Book(old(Value())) && counted == Some(size)
    {
      if counted.None? {
        var now := CacheSize(dir);
        counted := Some(now);
      }
      size := counted.value;
    }

    /** Makes room, and counts anew. Files in `stuck` cannot be removed. */
    method Evict(expired: bool, stuck: set<Name>, now: Instant)
      modifies this
      ensures Evicted(limits, old(dir), stuck, expired, now, Value())
    {
      var target := Size(limits.files * AFTER_EVICTION / 100, limits.bytes * AFTER_EVICTION / 100);
      ghost var start := dir;
      var left, answer;
      ghost var order, k;
      left, answer, order, k := Prune(dir, stuck, expired, target, now);
      dir, counted := left, Some(answer.size);
      assert Pruned(start, stuck, expired, Target(limits), now, order, k, Value().dir);
    }

    /** Keeps an icon, or that there is none, if the disk has room; past the limits, the oldest go. */
    method Keep(host: string, icon: Option<seq<Byte>>, room: bool, mood: Mood, stuck: set<Name>, now: Instant)
      modifies this
      ensures if room then Kept(limits, old(Value()), host, icon, mood, stuck, now, Value()) else Value() == old(Value())
    {
      if !room {
        return;
      }
      var book := Counted();
      var before := [SizeIn(dir, Icon(host)), SizeIn(dir, NoIcon(host))];
      var other := if icon.Some? then NoIcon(host) else Icon(host);
      var mine := if icon.Some? then Icon(host) else NoIcon(host);
      if mood.clears {
        dir := dir - {other};
      }
      match mood.write {
        case Written => dir := dir[mine := File(Content(icon), now)];
        case Failed(None) =>
        case Failed(Some(left)) => dir := dir[Temporary(host, mood.id) := left];
      }
      var without := book;
      for i := 0 to 2
        invariant i == 0 ==> without == book
        invariant i == 1 ==> without == Less(book, before[0])
        invariant i == 2 ==> without == Less(Less(book, before[0]), before[1])
      {
        without := Less(without, before[i]);
      }
      counted := Some(Size(without.files + 1, without.bytes + |Content(icon)|));
      if !Within(counted.value, limits) {
        Evict(false, stuck, now);
      }
    }
  }
}
