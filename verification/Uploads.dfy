/**
 Uploads on their way. Each holds a token: an account's upload counts for the account, a file
 request's for the request and the file, and reserves the bytes it announced. Dropping the token
 ends it.
 */
module Uploads {
  import opened Prelude
  import opened Counters

  const UPLOADS_PER_USER: nat := 4

  datatype Uploading = Uploading(keys: seq<string>, reserved: nat)

  /** Free and total bytes of the disk, if it can be asked. */
  datatype Disk = Disk(free: nat, total: nat)

  predicate EnoughRoom(disk: Disk, need: nat) {
    disk.free >= SaturatingAdd(need, Max(disk.total / 20, 256 * 1024 * 1024))
  }

  predicate HasRoom(disk: Option<Disk>, need: nat) {
    disk.None? || EnoughRoom(disk.value, need)
  }

  datatype Refusal = TooMany | Conflict | NoRoom

  datatype Start<T> = Started(upload: T) | Refused(why: Refusal)

  function RequestKey(request: string): string {
    "request:" + request
  }

  function FileKey(file: string): string {
    "file:" + file
  }

  // ----- What the three operations compute -----

  datatype Running = Running(counts: Counts, reserved: nat)

  const IDLE: Running := Running(map[], 0)

  function UserStart(running: Running, user: string): Start<Uploading> {
    if Get(running.counts, user) >= UPLOADS_PER_USER then Refused(TooMany) else Started(Uploading([user], 0))
  }

  function FileStart(running: Running, request: string, file: string, size: nat, disk: Option<Disk>): Start<Uploading> {
    if Get(running.counts, FileKey(file)) > 0 then Refused(Conflict)
    else if Get(running.counts, RequestKey(request)) >= UPLOADS_PER_USER then Refused(TooMany)
    else if !HasRoom(disk, SaturatingAdd(running.reserved, size)) then Refused(NoRoom)
    else Started(Uploading([RequestKey(request), FileKey(file)], size))
  }

  function RaiseAll(counts: Counts, keys: seq<string>): Counts
    decreases |keys|
  {
    if keys == [] then counts else RaiseAll(Raise(counts, keys[0]), keys[1..])
  }

  function LowerAll(counts: Counts, keys: seq<string>): Counts
    decreases |keys|
  {
    if keys == [] then counts
    else LowerAll(if Get(counts, keys[0]) > 0 then Lower(counts, keys[0]) else counts, keys[1..])
  }

  /** The 64-bit counter of reserved bytes wraps around in a release build. */
  function Admitted(running: Running, upload: Uploading): Running {
    Running(RaiseAll(running.counts, upload.keys), (running.reserved + upload.reserved) % U64)
  }

  function Ended(running: Running, upload: Uploading): Running {
    Running(LowerAll(running.counts, upload.keys), Max(running.reserved - upload.reserved, 0))
  }

  // ----- Runs: any interleaving of starts and ends -----

  datatype Step =
    | User(user: string)
    | File(request: string, file: string, size: nat, disk: Option<Disk>)
    | End(at: nat)

  datatype World = World(running: Running, live: seq<Uploading>)

  ghost predicate Next(w: World, step: Step, w': World) {
    match step
    case User(user) => AfterStart(w, UserStart(w.running, user), w')
    case File(request, file, size, disk) => size < U64 && AfterStart(w, FileStart(w.running, request, file, size, disk), w')
    case End(at) =>
      at < |w.live| && w' == World(Ended(w.running, w.live[at]), w.live[..at] + w.live[at + 1..])
  }

  ghost predicate AfterStart(w: World, start: Start<Uploading>, w': World) {
    match start
    case Refused(_) => w' == w
    case Started(upload) => w' == World(Admitted(w.running, upload), w.live + [upload])
  }

  /** The bytes of the live uploads together. */
  ghost function Announced(live: seq<Uploading>): nat {
    if live == [] then 0 else Announced(live[..|live| - 1]) + live[|live| - 1].reserved
  }

  /** How many live uploads carry `key`. */
  ghost function Carrying(live: seq<Uploading>, key: string): nat {
    if live == [] then 0
    else Carrying(live[..|live| - 1], key) + (if key in live[|live| - 1].keys then 1 else 0)
  }

  /** The steps of a run; `users` may start uploads. */
  ghost predicate Follows(users: iset<string>, w: World, w': World) {
    exists step :: Next(w, step, w') && (step.User? ==> step.user in users)
  }

  ghost predicate Run(users: iset<string>, run: seq<World>) {
    && |run| > 0
    && run[0] == World(IDLE, [])
    && forall i | 0 < i < |run| :: Follows(users, run[i - 1], run[i])
  }

  /** Every counter says what the live uploads say. */
  ghost predicate Exact(w: World) {
    NoZero(w.running.counts) && forall key :: Get(w.running.counts, key) == Carrying(w.live, key)
  }

  /** And so do the reserved bytes. */
  ghost predicate ReservedRight(w: World) {
    w.running.reserved == Announced(w.live)
  }

  /** What is announced fits 64 bits all the time. */
  ghost predicate Fits(run: seq<World>) {
    forall i | 0 <= i < |run| :: Announced(run[i].live) < U64
  }

  ghost predicate FewPerKey(w: World) {
    forall key :: Carrying(w.live, key) <= UPLOADS_PER_USER
  }

  ghost predicate OnePerFile(w: World) {
    forall file :: Carrying(w.live, FileKey(file)) <= 1
  }

  ghost predicate DistinctKeys(upload: Uploading) {
    forall i, j | 0 <= i < j < |upload.keys| :: upload.keys[i] != upload.keys[j]
  }

  ghost predicate Inv(w: World) {
    Exact(w) && FewPerKey(w) && w.running.reserved <= Announced(w.live) && forall u | u in w.live :: DistinctKeys(u)
  }

  // ----- Raising and lowering a token's keys -----

  lemma {:induction false} RaiseAllCounts(counts: Counts, keys: seq<string>)
    requires NoZero(counts) && forall i, j | 0 <= i < j < |keys| :: keys[i] != keys[j]
    ensures NoZero(RaiseAll(counts, keys))
    ensures forall k :: Get(RaiseAll(counts, keys), k) == Get(counts, k) + (if k in keys then 1 else 0)
    decreases |keys|
  {
    if keys != [] {
      RaiseLower(counts, keys[0]);
      RaiseAllCounts(Raise(counts, keys[0]), keys[1..]);
    }
  }

  lemma {:induction false} LowerAllCounts(counts: Counts, keys: seq<string>)
    requires NoZero(counts) && forall i, j | 0 <= i < j < |keys| :: keys[i] != keys[j]
    requires forall k | k in keys :: Get(counts, k) > 0
    ensures NoZero(LowerAll(counts, keys))
    ensures forall k :: Get(LowerAll(counts, keys), k) == Get(counts, k) - (if k in keys then 1 else 0)
    decreases |keys|
  {
    if keys != [] {
      RaiseLower(counts, keys[0]);
      LowerAllCounts(Lower(counts, keys[0]), keys[1..]);
    }
  }

  lemma OneMoreLive(live: seq<Uploading>, upload: Uploading, key: string)
    ensures Announced(live + [upload]) == Announced(live) + upload.reserved
    ensures Carrying(live + [upload], key) == Carrying(live, key) + (if key in upload.keys then 1 else 0)
  {
    assert (live + [upload])[..|live|] == live;
  }

  lemma {:induction false} WithoutOne(live: seq<Uploading>, at: nat)
    requires at < |live|
    ensures Announced(live[..at] + live[at + 1..]) == Announced(live) - live[at].reserved
    ensures forall key :: Carrying(live[..at] + live[at + 1..], key) == Carrying(live, key) - (if key in live[at].keys then 1 else 0)
  {
    var last := |live| - 1;
    var left := live[..at] + live[at + 1..];
    if at == last {
      assert left == live[..last];
    } else {
      WithoutOne(live[..last], at);
      assert left[..|left| - 1] == live[..last][..at] + live[..last][at + 1..];
      assert left[|left| - 1] == live[last];
    }
  }

  // ----- Every step keeps the books -----

  lemma StartKeepsInv(w: World, upload: Uploading)
    requires Inv(w) && DistinctKeys(upload)
    requires forall k | k in upload.keys :: Get(w.running.counts, k) < UPLOADS_PER_USER
    ensures Inv(World(Admitted(w.running, upload), w.live + [upload]))
  {
    var live := w.live + [upload];
    assert live[..|live| - 1] == w.live;
    RaiseAllCounts(w.running.counts, upload.keys);
  }

  lemma EndKeepsInv(w: World, at: nat)
    requires Inv(w) && at < |w.live|
    ensures Inv(World(Ended(w.running, w.live[at]), w.live[..at] + w.live[at + 1..]))
  {
    var upload, left := w.live[at], w.live[..at] + w.live[at + 1..];
    assert upload in w.live && forall u | u in left :: u in w.live;
    WithoutOne(w.live, at);
    LowerAllCounts(w.running.counts, upload.keys);
    assert Announced(left) == Announced(w.live) - upload.reserved;
  }

  lemma StartedUploads(w: World, user: string, request: string, file: string, size: nat, disk: Option<Disk>)
    ensures UserStart(w.running, user).Started? ==>
              var u := UserStart(w.running, user).upload;
              DistinctKeys(u) && forall k | k in u.keys :: Get(w.running.counts, k) < UPLOADS_PER_USER
    ensures FileStart(w.running, request, file, size, disk).Started? ==>
              var u := FileStart(w.running, request, file, size, disk).upload;
              DistinctKeys(u) && forall k | k in u.keys :: Get(w.running.counts, k) < UPLOADS_PER_USER
  {
    assert RequestKey(request)[0] != FileKey(file)[0];
  }

  lemma StartIsRight(w: World, user: string, w': World)
    requires Inv(w) && AfterStart(w, UserStart(w.running, user), w')
    ensures Inv(w')
  {
    StartedUploads(w, user, "", "", 0, None);
    if UserStart(w.running, user).Started? {
      StartKeepsInv(w, UserStart(w.running, user).upload);
    }
  }

  lemma FileStartIsRight(w: World, request: string, file: string, size: nat, disk: Option<Disk>, w': World)
    requires Inv(w) && AfterStart(w, FileStart(w.running, request, file, size, disk), w')
    ensures Inv(w')
  {
    StartedUploads(w, "", request, file, size, disk);
    if FileStart(w.running, request, file, size, disk).Started? {
      StartKeepsInv(w, FileStart(w.running, request, file, size, disk).upload);
    }
  }

  /** In every interleaving the counters are right and no account or request has more than its share. */
  lemma {:induction false} RunKeepsBooks(users: iset<string>, run: seq<World>)
    requires Run(users, run)
    ensures Inv(run[|run| - 1])
  {
    var n := |run| - 1;
    if n > 0 {
      RunKeepsBooks(users, run[..n]);
      var (w, w') := (run[n - 1], run[n]);
      assert Follows(users, w, w');
      var step :| Next(w, step, w') && (step.User? ==> step.user in users);
      match step
      case User(user) => StartIsRight(w, user, w');
      case File(request, file, size, disk) => FileStartIsRight(w, request, file, size, disk, w');
      case End(at) => EndKeepsInv(w, at);
    }
  }

  /** When the last upload has ended, nothing is left behind. */
  lemma NothingLeftBehind(users: iset<string>, run: seq<World>)
    requires Run(users, run) && run[|run| - 1].live == []
    ensures run[|run| - 1].running == IDLE
  {
    RunKeepsBooks(users, run);
    var counts := run[|run| - 1].running.counts;
    forall key
      ensures key !in counts
    {
      assert Get(counts, key) == Carrying([], key);
    }
  }

  // ----- The reserved bytes -----

  lemma EndKeepsReserved(w: World, at: nat)
    requires at < |w.live| && ReservedRight(w)
    ensures ReservedRight(World(Ended(w.running, w.live[at]), w.live[..at] + w.live[at + 1..]))
  {
    WithoutOne(w.live, at);
  }

  lemma StartKeepsReserved(w: World, start: Start<Uploading>, w': World)
    requires AfterStart(w, start, w') && ReservedRight(w) && Announced(w'.live) < U64
    ensures ReservedRight(w')
  {
    if start.Started? {
      OneMoreLive(w.live, start.upload, "");
    }
  }

  lemma StepKeepsReserved(w: World, step: Step, w': World)
    requires Next(w, step, w') && ReservedRight(w) && Announced(w'.live) < U64
    ensures ReservedRight(w')
  {
    match step
    case User(user) => StartKeepsReserved(w, UserStart(w.running, user), w');
    case File(request, file, size, disk) =>
      StartKeepsReserved(w, FileStart(w.running, request, file, size, disk), w');
    case End(at) => EndKeepsReserved(w, at);
  }

  lemma {:induction false} FittingIsRight(users: iset<string>, run: seq<World>, i: nat)
    requires Run(users, run) && Fits(run) && i < |run|
    ensures ReservedRight(run[i])
  {
    if i > 0 {
      FittingIsRight(users, run, i - 1);
      assert Follows(users, run[i - 1], run[i]);
      var step :| Next(run[i - 1], step, run[i]) && (step.User? ==> step.user in users);
      StepKeepsReserved(run[i - 1], step, run[i]);
    }
  }

  lemma {:induction false} ReservedIsWord(users: iset<string>, run: seq<World>, i: nat)
    requires Run(users, run) && i < |run|
    ensures run[i].running.reserved < U64
  {
    if i > 0 {
      ReservedIsWord(users, run, i - 1);
      assert Follows(users, run[i - 1], run[i]);
    }
  }

  /** The reserved bytes are those of the live uploads all through a run exactly when these fit 64 bits all the time. */
  lemma ReservedRightIfItFits(users: iset<string>, run: seq<World>)
    requires Run(users, run)
    ensures (forall i | 0 <= i < |run| :: ReservedRight(run[i])) <==> Fits(run)
  {
    if Fits(run) {
      forall i | 0 <= i < |run| ensures ReservedRight(run[i]) {
        FittingIsRight(users, run, i);
      }
    } else {
      var i :| 0 <= i < |run| && Announced(run[i].live) >= U64;
      ReservedIsWord(users, run, i);
      assert !ReservedRight(run[i]);
    }
  }

  /** The disk could be asked, and not all of 2^64 bytes are free. */
  ghost predicate Known(step: Step) {
    step.File? ==> step.disk.Some? && step.disk.value.free < U64 - 1
  }

  /** A run in which it always could. */
  ghost predicate KnownRun(users: iset<string>, run: seq<World>) {
    && Run(users, run)
    && forall i | 0 < i < |run| :: FollowsKnown(run[i - 1], run[i])
  }

  ghost predicate FollowsKnown(w: World, w': World) {
    exists step :: Next(w, step, w') && Known(step)
  }

  lemma KnownFileFits(w: World, request: string, file: string, size: nat, disk: Disk)
    requires ReservedRight(w) && disk.free < U64 - 1
    requires FileStart(w.running, request, file, size, Some(disk)).Started?
    ensures Announced(w.live) + size < U64
  {
  }

  lemma StartAnnounces(w: World, start: Start<Uploading>, w': World)
    requires AfterStart(w, start, w')
    ensures Announced(w'.live) == Announced(w.live) + if start.Started? then start.upload.reserved else 0
  {
    if start.Started? {
      OneMoreLive(w.live, start.upload, "");
    }
  }

  lemma KnownStepFits(w: World, step: Step, w': World)
    requires Next(w, step, w') && Known(step) && ReservedRight(w) && Announced(w.live) < U64
    ensures Announced(w'.live) < U64
  {
    match step
    case End(at) => WithoutOne(w.live, at);
    case User(user) => StartAnnounces(w, UserStart(w.running, user), w');
    case File(request, file, size, disk) =>
      StartAnnounces(w, FileStart(w.running, request, file, size, disk), w');
      if FileStart(w.running, request, file, size, disk).Started? {
        KnownFileFits(w, request, file, size, disk.value);
      }
  }

  lemma {:induction false} KnownIsRight(users: iset<string>, run: seq<World>, i: nat)
    requires KnownRun(users, run) && i < |run|
    ensures Announced(run[i].live) < U64 && ReservedRight(run[i])
  {
    if i > 0 {
      KnownIsRight(users, run, i - 1);
      assert FollowsKnown(run[i - 1], run[i]);
      var step :| Next(run[i - 1], step, run[i]) && Known(step);
      KnownStepFits(run[i - 1], step, run[i]);
      StepKeepsReserved(run[i - 1], step, run[i]);
    }
  }

  /** Where the disks are known, what is announced always fits, so the reserved bytes are right. */
  lemma KnownDisksFit(users: iset<string>, run: seq<World>)
    requires KnownRun(users, run)
    ensures Fits(run) && forall i | 0 <= i < |run| :: ReservedRight(run[i])
  {
    forall i | 0 <= i < |run|
      ensures Announced(run[i].live) < U64 && ReservedRight(run[i])
    {
      KnownIsRight(users, run, i);
    }
  }

  // ----- What the server can announce -----

  /** The largest file a file request takes, 4096 MB, as it is encrypted. */
  const FILE_MOST: nat := 4096 * 1024 * 1024 + 65

  ghost predicate SmallStep(step: Step, size: nat) {
    step.File? ==> step.size <= size
  }

  ghost predicate FollowsSmall(w: World, w': World, size: nat) {
    exists step :: Next(w, step, w') && SmallStep(step, size)
  }

  /** A run whose uploads announce `size` bytes at most each, `most` of them at once at most; disks may be unknown. */
  ghost predicate SmallRun(users: iset<string>, run: seq<World>, size: nat, most: nat) {
    && Run(users, run)
    && (forall i | 0 < i < |run| :: FollowsSmall(run[i - 1], run[i], size))
    && (forall i | 0 <= i < |run| :: |run[i].live| <= most)
  }

  ghost predicate SmallLive(live: seq<Uploading>, size: nat) {
    forall u | u in live :: u.reserved <= size
  }

  lemma StartKeepsSmall(w: World, start: Start<Uploading>, w': World, size: nat)
    requires SmallLive(w.live, size) && AfterStart(w, start, w') && (start.Started? ==> start.upload.reserved <= size)
    ensures SmallLive(w'.live, size)
  {
  }

  lemma StepKeepsSmall(w: World, step: Step, w': World, size: nat)
    requires SmallLive(w.live, size) && Next(w, step, w') && SmallStep(step, size)
    ensures SmallLive(w'.live, size)
  {
    match step
    case User(user) => StartKeepsSmall(w, UserStart(w.running, user), w', size);
    case File(request, file, announced, disk) =>
      StartKeepsSmall(w, FileStart(w.running, request, file, announced, disk), w', size);
    case End(at) =>
  }

  lemma {:induction false} LiveIsSmall(users: iset<string>, run: seq<World>, size: nat, most: nat, i: nat)
    requires SmallRun(users, run, size, most) && i < |run|
    ensures SmallLive(run[i].live, size)
  {
    if i > 0 {
      LiveIsSmall(users, run, size, most, i - 1);
      assert FollowsSmall(run[i - 1], run[i], size);
      var step :| Next(run[i - 1], step, run[i]) && SmallStep(step, size);
      StepKeepsSmall(run[i - 1], step, run[i], size);
    }
  }

  lemma {:induction false} SmallSum(live: seq<Uploading>, size: nat)
    requires SmallLive(live, size)
    ensures Announced(live) <= |live| * size
  {
    if live != [] {
      SmallSum(live[..|live| - 1], size);
      assert |live| * size == (|live| - 1) * size + size;
    }
  }

  lemma FewerAnnounceLess(few: nat, most: nat, size: nat)
    requires few <= most
    ensures few * size <= most * size
  {
  }

  /** Uploads that are small enough for their number always fit, whatever is known of the disks. */
  lemma SmallUploadsFit(users: iset<string>, run: seq<World>, size: nat, most: nat)
    requires SmallRun(users, run, size, most) && most * size < U64
    ensures Fits(run) && forall i | 0 <= i < |run| :: ReservedRight(run[i])
  {
    forall i | 0 <= i < |run|
      ensures Announced(run[i].live) < U64
    {
      LiveIsSmall(users, run, size, most, i);
      SmallSum(run[i].live, size);
      FewerAnnounceLess(|run[i].live|, most, size);
    }
    ReservedRightIfItFits(users, run);
  }

  /** No size the server admits makes the reserved bytes wrong, with fewer than 2^31 uploads at once. */
  lemma ServerUploadsFit(users: iset<string>, run: seq<World>)
    requires SmallRun(users, run, FILE_MOST, 0x7FFF_FFFF)
    ensures Fits(run) && forall i | 0 <= i < |run| :: ReservedRight(run[i])
  {
    SmallUploadsFit(users, run, FILE_MOST, 0x7FFF_FFFF);
  }

  // ----- Any sizes -----

  /** An upload of a file request of its own, whose disk cannot be asked. */
  ghost function Alone(name: string, size: nat): Uploading {
    Uploading([RequestKey(name), FileKey(name)], size)
  }

  lemma AdmitAlone(users: iset<string>, run: seq<World>, name: string, size: nat) returns (run': seq<World>)
    requires Run(users, run) && size < U64
    requires var counts := run[|run| - 1].running.counts; RequestKey(name) !in counts && FileKey(name) !in counts
    ensures var w := run[|run| - 1];
            Run(users, run') && run'[|run'| - 1] == World(Admitted(w.running, Alone(name, size)), w.live + [Alone(name, size)])
  {
    var w := run[|run| - 1];
    var w' := World(Admitted(w.running, Alone(name, size)), w.live + [Alone(name, size)]);
    assert FileStart(w.running, name, name, size, None) == Started(Alone(name, size));
    assert Next(w, File(name, name, size, None), w');
    assert Follows(users, w, w');
    run' := run + [w'];
    forall i | 0 < i < |run'|
      ensures Follows(users, run'[i - 1], run'[i])
    {
      assert i < |run| ==> Follows(users, run[i - 1], run[i]);
    }
  }

  lemma OtherKeys()
    ensures RequestKey("b") !in Alone("a", 0).keys && FileKey("b") !in Alone("a", 0).keys
  {
    assert RequestKey("b")[8] != RequestKey("a")[8] && FileKey("b")[5] != FileKey("a")[5];
    assert RequestKey("b")[0] != FileKey("a")[0] && FileKey("b")[0] != RequestKey("a")[0];
  }

  lemma AloneTakesItsKeys(name: string, size: nat, key: string)
    ensures key in Admitted(IDLE, Alone(name, size)).counts ==> key in Alone(name, 0).keys
  {
    assert RequestKey(name)[0] != FileKey(name)[0];
    RaiseAllCounts(IDLE.counts, Alone(name, size).keys);
    assert Get(Admitted(IDLE, Alone(name, size)).counts, key) == if key in Alone(name, size).keys then 1 else 0;
  }

  /** Where the disks are unknown, two uploads of 2^63 bytes each are booked as none. */
  lemma UnknownDiskWraps(users: iset<string>) returns (run: seq<World>)
    ensures Run(users, run) && run[|run| - 1].running.reserved == 0 && Announced(run[|run| - 1].live) == U64
  {
    var half: nat := U64 / 2;
    run := AdmitAlone(users, [World(IDLE, [])], "a", half);
    OtherKeys();
    AloneTakesItsKeys("a", half, RequestKey("b"));
    AloneTakesItsKeys("a", half, FileKey("b"));
    OneMoreLive([], Alone("a", half), "");
    OneMoreLive([] + [Alone("a", half)], Alone("b", half), "");
    run := AdmitAlone(users, run, "b", half);
  }

  // ----- One upload per file -----

  /** No account is called like a file's counter. */
  ghost predicate NoFileNames(users: iset<string>) {
    forall user | user in users :: !("file:" <= user)
  }

  lemma UserKeepsOnePerFile(w: World, user: string, w': World)
    requires !("file:" <= user) && OnePerFile(w) && AfterStart(w, UserStart(w.running, user), w')
    ensures OnePerFile(w')
  {
    if UserStart(w.running, user).Started? {
      assert w'.live[..|w'.live| - 1] == w.live;
      assert forall file :: "file:" <= FileKey(file);
    }
  }

  lemma FileKeepsOnePerFile(w: World, request: string, file: string, size: nat, disk: Option<Disk>, w': World)
    requires Exact(w) && OnePerFile(w) && AfterStart(w, FileStart(w.running, request, file, size, disk), w')
    ensures OnePerFile(w')
  {
    if FileStart(w.running, request, file, size, disk).Started? {
      assert w'.live[..|w'.live| - 1] == w.live;
      assert Get(w.running.counts, FileKey(file)) == Carrying(w.live, FileKey(file)) == 0;
      forall other
        ensures Carrying(w'.live, FileKey(other)) <= 1
      {
        assert FileKey(other)[0] != RequestKey(request)[0];
      }
    }
  }

  lemma EndKeepsOnePerFile(w: World, at: nat, w': World)
    requires OnePerFile(w) && Next(w, End(at), w')
    ensures OnePerFile(w')
  {
    WithoutOne(w.live, at);
  }

  lemma StepKeepsOnePerFile(users: iset<string>, w: World, w': World)
    requires NoFileNames(users) && Inv(w) && OnePerFile(w) && Follows(users, w, w')
    ensures OnePerFile(w')
  {
    var step :| Next(w, step, w') && (step.User? ==> step.user in users);
    match step
    case User(user) => UserKeepsOnePerFile(w, user, w');
    case File(request, file, size, disk) => FileKeepsOnePerFile(w, request, file, size, disk, w');
    case End(at) => EndKeepsOnePerFile(w, at, w');
  }

  lemma {:induction false} RunKeepsOnePerFile(users: iset<string>, run: seq<World>)
    requires NoFileNames(users) && Run(users, run)
    ensures OnePerFile(run[|run| - 1])
  {
    var n := |run| - 1;
    if n > 0 {
      RunKeepsOnePerFile(users, run[..n]);
      RunKeepsBooks(users, run[..n]);
      assert Follows(users, run[n - 1], run[n]);
      StepKeepsOnePerFile(users, run[n - 1], run[n]);
    }
  }

  /** An account called like a file's counter gets four uploads where a file gets one. */
  lemma FileNameBreaksOnePerFile(users: iset<string>, file: string) returns (run: seq<World>)
    requires FileKey(file) in users
    ensures Run(users, run) && !OnePerFile(run[|run| - 1])
  {
    var user := FileKey(file);
    var u := Uploading([user], 0);
    var w0 := World(IDLE, []);
    var w1 := World(Admitted(IDLE, u), [] + [u]);
    var w2 := World(Admitted(w1.running, u), w1.live + [u]);
    assert RaiseAll(IDLE.counts, [user]) == RaiseAll(map[user := 1], []);
    OneMoreLive([], u, user);
    OneMoreLive(w1.live, u, user);
    assert Carrying(w2.live, user) == 2 && Announced(w2.live) == 0;
    assert Next(w0, User(user), w1) && Next(w1, User(user), w2);
    run := [w0, w1, w2];
    assert Follows(users, run[0], run[1]) && Follows(users, run[1], run[2]);
  }

  /** A file has at most one upload in every run exactly when no account is called like a file's counter. */
  lemma OnePerFileUnlessNamed(users: iset<string>)
    ensures (forall run | Run(users, run) :: OnePerFile(run[|run| - 1])) <==> NoFileNames(users)
  {
    if NoFileNames(users) {
      forall run | Run(users, run)
        ensures OnePerFile(run[|run| - 1])
      {
        RunKeepsOnePerFile(users, run);
      }
    } else {
      var user :| user in users && "file:" <= user;
      assert user == FileKey(user[5..]);
      var run := FileNameBreaksOnePerFile(users, user[5..]);
    }
  }

  // ----- Room beside the others -----

  /** An account's upload is admitted exactly while fewer than four of its uploads are on their way. */
  lemma UserAdmittedExactly(users: iset<string>, run: seq<World>, user: string)
    requires Run(users, run)
    ensures var w := run[|run| - 1];
            UserStart(w.running, user) == if Carrying(w.live, user) < 4 then Started(Uploading([user], 0)) else Refused(TooMany)
  {
    RunKeepsBooks(users, run);
    assert Get(run[|run| - 1].running.counts, user) == Carrying(run[|run| - 1].live, user);
  }

  lemma RoomExactly(disk: Disk, reserved: nat, size: nat)
    requires disk.free < U64 - 1
    ensures HasRoom(Some(disk), SaturatingAdd(reserved, size)) <==>
              reserved + size + Max(disk.total / 20, 268_435_456) <= disk.free
  {
  }

  /**
   While what is announced fits 64 bits, a file request's upload is admitted exactly if the file has no
   upload, the request fewer than four, and the disk, where it is known, room for it beside all others
   on their way and the margin: a twentieth, or 256 MB if that is more.
   */
  lemma AdmittedHasRoom(users: iset<string>, run: seq<World>, request: string, file: string, size: nat, disk: Option<Disk>)
    requires Run(users, run) && Fits(run) && (disk.Some? ==> disk.value.free < U64 - 1)
    ensures var w := run[|run| - 1];
            FileStart(w.running, request, file, size, disk) ==
              if Carrying(w.live, "file:" + file) > 0 then Refused(Conflict)
              else if Carrying(w.live, "request:" + request) >= 4 then Refused(TooMany)
              else if disk.Some?
                      && Announced(w.live) + size + Max(disk.value.total / 20, 268_435_456) > disk.value.free
              then Refused(NoRoom)
              else Started(Uploading(["request:" + request, "file:" + file], size))
  {
    RunKeepsBooks(users, run);
    ReservedRightIfItFits(users, run);
    var w := run[|run| - 1];
    assert ReservedRight(w);
    assert Get(w.running.counts, FileKey(file)) == Carrying(w.live, FileKey(file));
    assert Get(w.running.counts, RequestKey(request)) == Carrying(w.live, RequestKey(request));
    if disk.Some? {
      RoomExactly(disk.value, w.running.reserved, size);
    }
  }

  // ----- The program's state, updated in place -----

  class Uploads {
    var counts: Counts
    var reserved: nat

    ghost function Value(): Running
      reads this
    {
      Running(counts, reserved)
    }

    ghost predicate Valid()
      reads this
    {
      NoZero(counts) && reserved < U64
    }

    constructor ()
      ensures Valid() && Value() == IDLE
    {
      counts, reserved := map[], 0;
    }

    method Begin(user: string) returns (start: Start<Uploading>)
      requires Valid()
      modifies this
      ensures Valid() && start == UserStart(old(Value()), user)
      ensures Value() == if start.Started? then Admitted(old(Value()), start.upload) else old(Value())
    {
      var count := Get(counts, user);
      if count >= UPLOADS_PER_USER {
        return Refused(TooMany);
      }
      counts := counts[user := count + 1];
      start := Started(Uploading([user], 0));
      assert RaiseAll(old(counts), [user]) == RaiseAll(Raise(old(counts), user), []);
    }

    method BeginFile(request: string, file: string, size: nat, disk: Option<Disk>) returns (start: Start<Uploading>)
      requires Valid() && size < U64
      modifies this
      ensures Valid() && start == FileStart(old(Value()), request, file, size, disk)
      ensures Value() == if start.Started? then Admitted(old(Value()), start.upload) else old(Value())
    {
      var requestKey, fileKey := RequestKey(request), FileKey(file);
      if fileKey in counts && counts[fileKey] > 0 {
        return Refused(Conflict);
      }
      if requestKey in counts && counts[requestKey] >= UPLOADS_PER_USER {
        return Refused(TooMany);
      }
      if !HasRoom(disk, SaturatingAdd(reserved, size)) {
        return Refused(NoRoom);
      }
      reserved := (reserved + size) % U64;
      var keys := [requestKey, fileKey];
      var i := 0;
      while i < |keys|
        invariant 0 <= i <= |keys| && NoZero(counts) && reserved == (old(reserved) + size) % U64
        invariant RaiseAll(counts, keys[i..]) == RaiseAll(old(counts), keys)
      {
        counts := counts[keys[i] := Get(counts, keys[i]) + 1];
        i := i + 1;
      }
      start := Started(Uploading(keys, size));
    }

    /** Dropping a token. */
    method End(upload: Uploading)
      requires Valid()
      modifies this
      ensures Valid() && Value() == Ended(old(Value()), upload)
    {
      reserved := Max(reserved - upload.reserved, 0);
      var i := 0;
      while i < |upload.keys|
        invariant 0 <= i <= |upload.keys| && reserved == Max(old(reserved) - upload.reserved, 0) && NoZero(counts)
        invariant LowerAll(counts, upload.keys[i..]) == LowerAll(old(counts), upload.keys)
      {
        var key := upload.keys[i];
        if key in counts {
          counts := if counts[key] == 1 then counts - {key} else counts[key := counts[key] - 1];
        }
        i := i + 1;
      }
    }
  }
}
