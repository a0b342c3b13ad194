/**
 Icon databases as one file each: a magic line, the length of the index, the index as JSON, and the
 icons one after the other. The writer keeps each icon once, however many names point to it.
 */
module IconPack {
  import opened Prelude
  import opened NearestDomain

  const MAGIC: seq<Byte> := [85, 87, 85, 73, 67, 79, 78, 83, 49, 10]

  datatype Kind = Svg | Png

  datatype About = About(id: string, name: string, url: string, license: string, licenseUrl: string,
                         attribution: string, repository: string, commit: string)

  datatype Entry = Entry(offset: nat, len: nat, kind: Kind, hash: seq<Byte>)

  datatype LibraryEntry = LibraryEntry(id: string, name: string, aliases: seq<string>, icon: nat)

  datatype Index = Index(about: About, icons: seq<Entry>, domains: map<string, nat>, names: map<string, nat>,
                         library: seq<LibraryEntry>)

  /** The JSON library and the hash are not modelled: only that reading undoes writing. */
  datatype Outside = Outside(write: Index -> seq<Byte>, read: seq<Byte> -> Option<Index>, digest: seq<Byte> -> seq<Byte>)

  ghost predicate Faithful(out: Outside) {
    && (forall index :: out.read(out.write(index)) == Some(index))
    && (forall bytes :: |out.digest(bytes)| == 32)
  }

  // ----- Numbers of four bytes, least significant first -----

  function ToLe(n: nat): (bytes: seq<Byte>)
    ensures |bytes| == 4
  {
    [n % 256, n / 256 % 256, n / 65536 % 256, n / 16777216 % 256]
  }

  function FromLe(bytes: seq<Byte>): nat
    requires |bytes| == 4
  {
    bytes[0] as int + 256 * bytes[1] as int + 65536 * bytes[2] as int + 16777216 * bytes[3] as int
  }

  lemma FourInBigEndian(a: Byte, b: Byte, c: Byte, d: Byte)
    ensures BigEndian([a, b, c, d]) == ((a as int * 256 + b as int) * 256 + c as int) * 256 + d as int
  {
    assert [a, b, c, d][..3] == [a, b, c] && [a, b, c][..2] == [a, b] && [a, b][..1] == [a];
    assert BigEndian([a]) == a as int;
    assert BigEndian([a, b]) == a as int * 256 + b as int;
    assert BigEndian([a, b, c]) == (a as int * 256 + b as int) * 256 + c as int;
  }

  /** The lowest octet comes first. */
  lemma FromLeToLe(n: nat)
    requires n < U32
    ensures FromLe(ToLe(n)) == n
    ensures BigEndian([ToLe(n)[3], ToLe(n)[2], ToLe(n)[1], ToLe(n)[0]]) == n
  {
    FourInBigEndian(ToLe(n)[3], ToLe(n)[2], ToLe(n)[1], ToLe(n)[0]);
    assert n / 256 / 256 == n / 65536 && n / 65536 / 256 == n / 16777216;
  }

  // ----- Writing -----

  datatype Pack = Pack(about: About, blobs: seq<Byte>, icons: seq<Entry>, seen: map<seq<Byte>, nat>,
                       domains: map<string, nat>, names: map<string, nat>, library: seq<LibraryEntry>)

  function NewPack(about: About): Pack {
    Pack(about, [], [], map[], map[], map[], [])
  }

  /** Lengths and numbers are cut to 32 bits, as the program does. */
  function AddIcon(p: Pack, digest: seq<Byte>, bytes: seq<Byte>, kind: Kind): (Pack, nat)
    requires |digest| == 32
  {
    if digest in p.seen then (p, p.seen[digest])
    else
      var at := |p.icons| % U32;
      (p.(icons := p.icons + [Entry(|p.blobs|, |bytes| % U32, kind, digest[..8])],
          blobs := p.blobs + bytes,
          seen := p.seen[digest := at]), at)
  }

  /** The first one given stays. */
  function OrInsert(m: map<string, nat>, key: string, icon: nat): map<string, nat> {
    if key in m then m else m[key := icon]
  }

  function IndexOf(p: Pack): Index {
    Index(p.about, p.icons, p.domains, p.names, p.library)
  }

  function Finish(p: Pack, out: Outside): seq<Byte> {
    var index := out.write(IndexOf(p));
    MAGIC + ToLe(|index| % U32) + index + p.blobs
  }

  function GiveDomain(p: Pack, domain: string, icon: nat): Pack {
    p.(domains := OrInsert(p.domains, domain, icon))
  }

  function GiveName(p: Pack, name: string, icon: nat): Pack {
    p.(names := OrInsert(p.names, name, icon))
  }

  function GiveLibrary(p: Pack, entry: LibraryEntry): Pack {
    p.(library := p.library + [entry])
  }

  class Writer {
    var about: About
    var blobs: seq<Byte>
    var icons: seq<Entry>
    var seen: map<seq<Byte>, nat>
    var domains: map<string, nat>
    var names: map<string, nat>
    var library: seq<LibraryEntry>

    ghost function Value(): Pack
      reads this
    {
      Pack(about, blobs, icons, seen, domains, names, library)
    }

    constructor (about: About)
      ensures Value() == NewPack(about)
    {
      this.about, blobs, icons, seen := about, [], [], map[];
      domains, names, library := map[], map[], [];
    }

    method Icon(out: Outside, bytes: seq<Byte>, kind: Kind) returns (at: nat)
      requires |out.digest(bytes)| == 32
      modifies this
      ensures (Value(), at) == AddIcon(old(Value()), out.digest(bytes), bytes, kind)
    {
      var digest := out.digest(bytes);
      if digest in seen {
        return seen[digest];
      }
      at := |icons| % U32;
      icons := icons + [Entry(|blobs|, |bytes| % U32, kind, digest[..8])];
      blobs := blobs + bytes;
      seen := seen[digest := at];
    }

    method Domain(domain: string, icon: nat)
      modifies this
      ensures Value() == GiveDomain(old(Value()), domain, icon)
    {
      if domain !in domains {
        domains := domains[domain := icon];
      }
    }

    method Name(name: string, icon: nat)
      modifies this
      ensures Value() == GiveName(old(Value()), name, icon)
    {
      if name !in names {
        names := names[name := icon];
      }
    }

    method Library(entry: LibraryEntry)
      modifies this
      ensures Value() == GiveLibrary(old(Value()), entry)
    {
      library := library + [entry];
    }
  }

  // ----- Reading -----

  datatype Database = Database(about: About, data: seq<Byte>, start: nat, icons: seq<Entry>, domains: map<string, nat>,
                               names: map<string, nat>, library: seq<LibraryEntry>, libraryIds: map<string, nat>)

  datatype Failure = NotAPack | CutShort | BadIndex | OutsidePack | NoSuchIcon

  datatype Result<T> = Ok(value: T) | Err(failure: Failure)

  /** Where each id is in the library; of entries with one id, the last. */
  function LibraryIds(library: seq<LibraryEntry>): map<string, nat> {
    if library == [] then map[]
    else LibraryIds(library[..|library| - 1])[library[|library| - 1].id := |library| - 1]
  }

  predicate Known(index: Index) {
    var count := |index.icons| % U32;
    && (forall d | d in index.domains :: index.domains[d] < count)
    && (forall n | n in index.names :: index.names[n] < count)
    && (forall entry | entry in index.library :: entry.icon < count)
  }

  /** Where the index ends and the icons begin. */
  function IconsStart(data: seq<Byte>): (start: Result<nat>)
    ensures start.Ok? ==> |MAGIC| + 4 <= start.value <= |data|
  {
    if !(MAGIC <= data) then Err(NotAPack)
    else
      var rest := data[|MAGIC|..];
      if |rest| < 4 then Err(CutShort)
      else
        var length := FromLe(rest[..4]);
        if |rest| < 4 + length then Err(CutShort) else Ok(|MAGIC| + 4 + length)
  }

  function Checked(index: Index, data: seq<Byte>, start: nat): Result<Database>
    requires start <= |data|
  {
    if exists icon | icon in index.icons :: SaturatingAdd(icon.offset, icon.len) > |data| - start then Err(OutsidePack)
    else if !Known(index) then Err(NoSuchIcon)
    else Ok(Database(index.about, data, start, index.icons, index.domains, index.names, index.library,
                     LibraryIds(index.library)))
  }

  function Parse(out: Outside, data: seq<Byte>): Result<Database> {
    match IconsStart(data)
    case Err(failure) => Err(failure)
    case Ok(start) =>
      match out.read(data[|MAGIC| + 4..start])
      case None => Err(BadIndex)
      case Some(index) => Checked(index, data, start)
  }

  datatype Found = Found(database: string, hash: seq<Byte>, kind: Kind, bytes: seq<Byte>)

  function IconAt(db: Database, at: nat): Option<Found> {
    if at >= |db.icons| then None
    else
      var entry := db.icons[at];
      var from := db.start + entry.offset;
      if from + entry.len > |db.data| then None
      else Some(Found(db.about.id, entry.hash, entry.kind, db.data[from..from + entry.len]))
  }

  function LibraryIcon(db: Database, id: string): Option<Found> {
    if id in db.libraryIds && db.libraryIds[id] < |db.library| then IconAt(db, db.library[db.libraryIds[id]].icon) else None
  }

  // ----- Any pack that is accepted -----

  /** Every icon lies inside the pack, and every name points to one. */
  ghost predicate Sound(index: Index, room: nat) {
    && (forall icon | icon in index.icons :: icon.offset + icon.len <= room)
    && (forall d | d in index.domains :: index.domains[d] < |index.icons|)
    && (forall n | n in index.names :: index.names[n] < |index.icons|)
    && (forall entry | entry in index.library :: entry.icon < |index.icons|)
  }

  /** A pack is accepted exactly if it begins as one, its index can be read, and that is sound. */
  lemma AcceptedExactly(out: Outside, data: seq<Byte>, index: Index, length: nat)
    requires |data| < U64 && |MAGIC| + 4 + length <= |data| && length < U32 && |index.icons| < U32
    requires data[..|MAGIC|] == MAGIC && data[|MAGIC|..][..4] == ToLe(length)
    requires out.read(data[|MAGIC| + 4..|MAGIC| + 4 + length]) == Some(index)
    ensures Parse(out, data).Ok? <==> Sound(index, |data| - (|MAGIC| + 4 + length))
  {
    FromLeToLe(length);
    assert IconsStart(data) == Ok(|MAGIC| + 4 + length);
    var room := |data| - (|MAGIC| + 4 + length);
    assert forall icon: Entry :: SaturatingAdd(icon.offset, icon.len) > room <==> icon.offset + icon.len > room;
  }

  lemma {:induction false} LibraryIdsInside(library: seq<LibraryEntry>)
    ensures forall id | id in LibraryIds(library) :: LibraryIds(library)[id] < |library|
  {
    if library != [] {
      LibraryIdsInside(library[..|library| - 1]);
    }
  }

  lemma CheckedIsSound(index: Index, data: seq<Byte>, start: nat)
    requires |data| < U64 && 0 < start <= |data| && Checked(index, data, start).Ok?
    ensures Sound(index, |data| - start)
  {
    var count := |index.icons| % U32;
    assert count <= |index.icons|;
    forall icon | icon in index.icons
      ensures icon.offset + icon.len <= |data| - start
    {
      assert SaturatingAdd(icon.offset, icon.len) <= |data| - start;
    }
  }

  /** Of an accepted pack, whoever wrote it, every name yields an icon, and that is a piece of the pack. */
  lemma AcceptedAnswers(out: Outside, data: seq<Byte>)
    requires |data| < U64 && Parse(out, data).Ok?
    ensures var db := Parse(out, data).value;
            && db.data == data && db.start <= |data|
            && (forall at | 0 <= at < |db.icons| ::
                  IconAt(db, at) == Some(Found(db.about.id, db.icons[at].hash, db.icons[at].kind,
                                               data[db.start..][db.icons[at].offset..][..db.icons[at].len])))
            && (forall d | d in db.domains :: IconAt(db, db.domains[d]).Some?)
            && (forall n | n in db.names :: IconAt(db, db.names[n]).Some?)
            && (forall id | id in db.libraryIds :: LibraryIcon(db, id).Some?)
  {
    var start := IconsStart(data).value;
    var index := out.read(data[|MAGIC| + 4..start]).value;
    var db := Parse(out, data).value;
    CheckedIsSound(index, data, start);
    LibraryIdsInside(index.library);
    forall at | 0 <= at < |db.icons|
      ensures IconAt(db, at) == Some(Found(db.about.id, db.icons[at].hash, db.icons[at].kind,
                                           data[db.start..][db.icons[at].offset..][..db.icons[at].len]))
    {
      var entry := db.icons[at];
      assert entry in index.icons;
      assert data[start + entry.offset..start + entry.offset + entry.len] == data[start..][entry.offset..][..entry.len];
    }
  }

  // ----- What a sequence of calls means -----

  datatype Call = IconCall(bytes: seq<Byte>, kind: Kind) | DomainCall(name: string, icon: nat)
                | NameCall(name: string, icon: nat) | LibraryCall(entry: LibraryEntry)

  function Apply(out: Outside, p: Pack, call: Call): Pack
    requires call.IconCall? ==> |out.digest(call.bytes)| == 32
  {
    match call
    case IconCall(bytes, kind) => AddIcon(p, out.digest(bytes), bytes, kind).0
    case DomainCall(name, icon) => GiveDomain(p, name, icon)
    case NameCall(name, icon) => GiveName(p, name, icon)
    case LibraryCall(entry) => GiveLibrary(p, entry)
  }

  ghost function Build(out: Outside, about: About, calls: seq<Call>): Pack
    requires Faithful(out)
  {
    if calls == [] then NewPack(about)
    else Apply(out, Build(out, about, calls[..|calls| - 1]), calls[|calls| - 1])
  }

  datatype Picture = Picture(bytes: seq<Byte>, kind: Kind)

  ghost predicate HasBytes(pictures: seq<Picture>, bytes: seq<Byte>) {
    exists picture :: picture in pictures && picture.bytes == bytes
  }

  /** The different icons in the order they first came, each with its first kind: icon `n` is the `n`-th. */
  ghost function Pictures(calls: seq<Call>): seq<Picture> {
    if calls == [] then []
    else
      var before := Pictures(calls[..|calls| - 1]);
      match calls[|calls| - 1]
      case IconCall(bytes, kind) => WithPicture(before, bytes, kind)
      case _ => before
  }

  ghost function WithPicture(pictures: seq<Picture>, bytes: seq<Byte>, kind: Kind): seq<Picture> {
    if HasBytes(pictures, bytes) then pictures else pictures + [Picture(bytes, kind)]
  }

  ghost function Blob(pictures: seq<Picture>): seq<Byte> {
    if pictures == [] then [] else Blob(pictures[..|pictures| - 1]) + pictures[|pictures| - 1].bytes
  }

  ghost predicate NoCollision(out: Outside, calls: seq<Call>) {
    forall a, b | a in calls && b in calls && a.IconCall? && b.IconCall? :: out.digest(a.bytes) == out.digest(b.bytes) ==> a.bytes == b.bytes
  }

  /** Everything fits the 32 bits the pack has for it. */
  ghost predicate Fits(out: Outside, about: About, calls: seq<Call>)
    requires Faithful(out)
  {
    ShortIcons(calls) && |out.write(IndexOf(Build(out, about, calls)))| < U32
  }

  /** The entry of the `i`-th icon: its bytes begin where the ones before it end. */
  ghost function EntryOf(out: Outside, pictures: seq<Picture>, i: nat): Entry
    requires Faithful(out) && i < |pictures|
  {
    Entry(|Blob(pictures[..i])|, |pictures[i].bytes|, pictures[i].kind, out.digest(pictures[i].bytes)[..8])
  }

  /** The entries tile the icons' bytes without gap or overlap. */
  ghost predicate EntriesTile(out: Outside, icons: seq<Entry>, blobs: seq<Byte>, pictures: seq<Picture>)
    requires Faithful(out)
  {
    && |icons| == |pictures|
    && blobs == Blob(pictures)
    && forall i | 0 <= i < |pictures| :: icons[i] == EntryOf(out, pictures, i)
  }

  /** Each icon is known by its digest, and nothing else is. */
  ghost predicate SeenKnows(out: Outside, seen: map<seq<Byte>, nat>, pictures: seq<Picture>) {
    && (forall i | 0 <= i < |pictures| :: out.digest(pictures[i].bytes) in seen && seen[out.digest(pictures[i].bytes)] == i)
    && (forall d | d in seen :: seen[d] < |pictures| && out.digest(pictures[seen[d]].bytes) == d)
  }

  ghost predicate Tiled(out: Outside, p: Pack, pictures: seq<Picture>)
    requires Faithful(out)
  {
    EntriesTile(out, p.icons, p.blobs, pictures) && SeenKnows(out, p.seen, pictures)
  }

  lemma {:induction false} PicturesAreGiven(calls: seq<Call>)
    ensures forall picture | picture in Pictures(calls) :: IconCall(picture.bytes, picture.kind) in calls
    ensures forall i, j | 0 <= i < j < |Pictures(calls)| :: Pictures(calls)[i].bytes != Pictures(calls)[j].bytes
  {
    if calls != [] {
      PicturesAreGiven(calls[..|calls| - 1]);
      assert forall call | call in calls[..|calls| - 1] :: call in calls;
    }
  }

  lemma EntriesGrow(out: Outside, icons: seq<Entry>, blobs: seq<Byte>, pictures: seq<Picture>, picture: Picture)
    requires Faithful(out) && EntriesTile(out, icons, blobs, pictures)
    ensures EntriesTile(out, icons + [EntryOf(out, pictures + [picture], |pictures|)], blobs + picture.bytes, pictures + [picture])
    ensures EntryOf(out, pictures + [picture], |pictures|)
         == Entry(|blobs|, |picture.bytes|, picture.kind, out.digest(picture.bytes)[..8])
  {
    var more := pictures + [picture];
    assert more[..|pictures|] == pictures;
    forall i | 0 <= i < |pictures|
      ensures EntryOf(out, more, i) == EntryOf(out, pictures, i)
    {
      assert more[..i] == pictures[..i];
    }
  }

  lemma SeenGrows(out: Outside, seen: map<seq<Byte>, nat>, pictures: seq<Picture>, picture: Picture)
    requires SeenKnows(out, seen, pictures) && out.digest(picture.bytes) !in seen
    ensures SeenKnows(out, seen[out.digest(picture.bytes) := |pictures|], pictures + [picture])
  {
  }

  lemma SeenExactly(out: Outside, seen: map<seq<Byte>, nat>, calls: seq<Call>, bytes: seq<Byte>, kind: Kind)
    requires SeenKnows(out, seen, Pictures(calls)) && NoCollision(out, calls + [IconCall(bytes, kind)])
    ensures out.digest(bytes) in seen <==> HasBytes(Pictures(calls), bytes)
  {
    var longer, pictures := calls + [IconCall(bytes, kind)], Pictures(calls);
    if picture :| picture in pictures && picture.bytes == bytes {
      var i :| 0 <= i < |pictures| && pictures[i] == picture;
      assert out.digest(pictures[i].bytes) in seen;
    }
    if out.digest(bytes) in seen {
      PicturesAreGiven(calls);
      var picture := pictures[seen[out.digest(bytes)]];
      assert picture in pictures && IconCall(picture.bytes, picture.kind) in longer && longer[|calls|] in longer;
    }
  }

  lemma AddedIcon(p: Pack, digest: seq<Byte>, bytes: seq<Byte>, kind: Kind)
    requires |digest| == 32 && |p.icons| < U32 && |bytes| < U32 && digest !in p.seen
    ensures var p' := AddIcon(p, digest, bytes, kind).0;
            && p'.icons == p.icons + [Entry(|p.blobs|, |bytes|, kind, digest[..8])]
            && p'.blobs == p.blobs + bytes && p'.seen == p.seen[digest := |p.icons|]
  {
    assert |bytes| % U32 == |bytes| && |p.icons| % U32 == |p.icons|;
  }

  lemma IconKeepsTiling(out: Outside, p: Pack, pictures: seq<Picture>, bytes: seq<Byte>, kind: Kind)
    requires Faithful(out) && Tiled(out, p, pictures) && |pictures| < U32 && |bytes| < U32
    requires out.digest(bytes) in p.seen <==> HasBytes(pictures, bytes)
    ensures Tiled(out, AddIcon(p, out.digest(bytes), bytes, kind).0, WithPicture(pictures, bytes, kind))
  {
    if !HasBytes(pictures, bytes) {
      EntriesGrow(out, p.icons, p.blobs, pictures, Picture(bytes, kind));
      SeenGrows(out, p.seen, pictures, Picture(bytes, kind));
      AddedIcon(p, out.digest(bytes), bytes, kind);
    }
  }

  ghost predicate ShortIcons(calls: seq<Call>) {
    |Pictures(calls)| < U32 && forall call | call in calls && call.IconCall? :: |call.bytes| < U32
  }

  lemma {:induction false} BuildIsTiled(out: Outside, about: About, calls: seq<Call>)
    requires Faithful(out) && NoCollision(out, calls) && ShortIcons(calls)
    ensures Tiled(out, Build(out, about, calls), Pictures(calls))
  {
    if calls != [] {
      var front, last := calls[..|calls| - 1], calls[|calls| - 1];
      assert forall call | call in front :: call in calls;
      assert calls == front + [last] && last in calls;
      BuildIsTiled(out, about, front);
      if last.IconCall? {
        SeenExactly(out, Build(out, about, front).seen, front, last.bytes, last.kind);
        IconKeepsTiling(out, Build(out, about, front), Pictures(front), last.bytes, last.kind);
      }
    }
  }

  /** The number answered for an icon is its place among the different ones. */
  lemma IconAnswersItsNumber(out: Outside, about: About, calls: seq<Call>, bytes: seq<Byte>, kind: Kind)
    requires Faithful(out) && NoCollision(out, calls + [IconCall(bytes, kind)]) && ShortIcons(calls + [IconCall(bytes, kind)])
    ensures var at := AddIcon(Build(out, about, calls), out.digest(bytes), bytes, kind).1;
            var pictures := Pictures(calls + [IconCall(bytes, kind)]);
            at < |pictures| && pictures[at].bytes == bytes
  {
    var longer := calls + [IconCall(bytes, kind)];
    assert longer[..|longer| - 1] == calls;
    BuildIsTiled(out, about, longer);
    PicturesAreGiven(longer);
    var pictures := Pictures(longer);
    var p := Build(out, about, longer);
    assert HasBytes(pictures, bytes);
    var i :| 0 <= i < |pictures| && pictures[i].bytes == bytes;
    assert p.seen[out.digest(bytes)] == i;
  }

  lemma {:induction false} BlobSlice(pictures: seq<Picture>, i: nat)
    requires i < |pictures|
    ensures |Blob(pictures[..i])| + |pictures[i].bytes| <= |Blob(pictures)|
    ensures Blob(pictures)[|Blob(pictures[..i])|..|Blob(pictures[..i])| + |pictures[i].bytes|] == pictures[i].bytes
  {
    var n := |pictures| - 1;
    if i < n {
      BlobSlice(pictures[..n], i);
      assert pictures[..n][..i] == pictures[..i];
    }
  }

  // ----- Reading what was written -----

  /** Every name points to an icon that was put in. */
  ghost predicate PointsInside(p: Pack) {
    && (forall d | d in p.domains :: p.domains[d] < |p.icons|)
    && (forall n | n in p.names :: p.names[n] < |p.icons|)
    && (forall entry | entry in p.library :: entry.icon < |p.icons|)
  }

  ghost function Read(out: Outside, p: Pack): Database {
    Database(p.about, Finish(p, out), |MAGIC| + 4 + |out.write(IndexOf(p))|, p.icons, p.domains, p.names, p.library,
             LibraryIds(p.library))
  }

  lemma FourInARow(a: seq<Byte>, b: seq<Byte>, c: seq<Byte>, d: seq<Byte>)
    ensures var all := a + b + c + d;
            && a <= all && all[|a|..][..|b|] == b && all[|a| + |b|..|a| + |b| + |c|] == c && all[|a| + |b| + |c|..] == d
  {
  }

  lemma StartAfter(data: seq<Byte>, le: seq<Byte>, length: nat)
    requires MAGIC <= data && |data| >= |MAGIC| + 4 + length
    requires |le| == 4 && data[|MAGIC|..][..4] == le && FromLe(le) == length
    ensures IconsStart(data) == Ok(|MAGIC| + 4 + length)
  {
  }

  lemma FinishLayout(out: Outside, p: Pack)
    requires Faithful(out) && |out.write(IndexOf(p))| < U32
    ensures var (data, index) := (Finish(p, out), out.write(IndexOf(p)));
            var start := |MAGIC| + 4 + |index|;
            IconsStart(data) == Ok(start) && data[|MAGIC| + 4..start] == index && data[start..] == p.blobs
  {
    var index := out.write(IndexOf(p));
    var length := ToLe(|index|);
    FourInARow(MAGIC, length, index, p.blobs);
    FromLeToLe(|index|);
    assert |index| % U32 == |index|;
    assert Finish(p, out) == MAGIC + length + index + p.blobs;
    StartAfter(Finish(p, out), length, |index|);
  }

  lemma IconsInside(out: Outside, p: Pack, pictures: seq<Picture>)
    requires Faithful(out) && Tiled(out, p, pictures)
    ensures forall icon | icon in p.icons :: SaturatingAdd(icon.offset, icon.len) <= |p.blobs|
  {
    forall icon | icon in p.icons
      ensures SaturatingAdd(icon.offset, icon.len) <= |p.blobs|
    {
      var i :| 0 <= i < |p.icons| && p.icons[i] == icon;
      BlobSlice(pictures, i);
    }
  }

  lemma CheckedByNames(out: Outside, p: Pack, pictures: seq<Picture>, data: seq<Byte>, start: nat)
    requires Faithful(out) && Tiled(out, p, pictures) && |pictures| < U32
    requires start <= |data| && data[start..] == p.blobs
    ensures Checked(IndexOf(p), data, start)
         == if PointsInside(p) then
              Ok(Database(p.about, data, start, p.icons, p.domains, p.names, p.library, LibraryIds(p.library)))
            else Err(NoSuchIcon)
  {
    IconsInside(out, p, pictures);
    assert |p.icons| % U32 == |p.icons|;
    assert Known(IndexOf(p)) <==> PointsInside(p);
  }

  /** A pack is read back exactly when every name in it points to an icon in it. */
  lemma ParseUndoesFinish(out: Outside, about: About, calls: seq<Call>)
    requires Faithful(out) && NoCollision(out, calls) && Fits(out, about, calls)
    ensures var p := Build(out, about, calls);
            Parse(out, Finish(p, out)) == if PointsInside(p) then Ok(Read(out, p)) else Err(NoSuchIcon)
  {
    var p := Build(out, about, calls);
    BuildIsTiled(out, about, calls);
    FinishLayout(out, p);
    CheckedByNames(out, p, Pictures(calls), Finish(p, out), |MAGIC| + 4 + |out.write(IndexOf(p))|);
    assert out.read(out.write(IndexOf(p))) == Some(IndexOf(p));
  }

  lemma IconFromBlob(out: Outside, db: Database, p: Pack, pictures: seq<Picture>, n: nat)
    requires Faithful(out) && Tiled(out, p, pictures)
    requires db.icons == p.icons && db.start <= |db.data| && db.data[db.start..] == p.blobs
    ensures IconAt(db, n) == FoundPicture(out, db.about.id, pictures, n)
  {
    if n < |pictures| {
      BlobSlice(pictures, n);
      SliceBehind(db.data, db.start, p.icons[n].offset, p.icons[n].len);
    }
  }

  ghost function FoundPicture(out: Outside, id: string, pictures: seq<Picture>, n: nat): Option<Found>
    requires Faithful(out)
  {
    if n < |pictures| then Some(Found(id, out.digest(pictures[n].bytes)[..8], pictures[n].kind, pictures[n].bytes)) else None
  }

  lemma SliceBehind(data: seq<Byte>, start: nat, offset: nat, len: nat)
    requires start <= |data| && offset + len <= |data| - start
    ensures data[start + offset..start + offset + len] == data[start..][offset..offset + len]
  {
  }

  /** Icon `n` of the pack read back is the `n`-th of the different icons, with its first kind. */
  lemma IconReadBack(out: Outside, about: About, calls: seq<Call>, n: nat)
    requires Faithful(out) && NoCollision(out, calls) && Fits(out, about, calls)
    ensures IconAt(Read(out, Build(out, about, calls)), n) == FoundPicture(out, about.id, Pictures(calls), n)
  {
    var p := Build(out, about, calls);
    BuildIsTiled(out, about, calls);
    AboutStays(out, about, calls);
    FinishLayout(out, p);
    IconFromBlob(out, Read(out, p), p, Pictures(calls), n);
  }

  lemma {:induction false} AboutStays(out: Outside, about: About, calls: seq<Call>)
    requires Faithful(out)
    ensures Build(out, about, calls).about == about
  {
    if calls != [] {
      AboutStays(out, about, calls[..|calls| - 1]);
    }
  }

  ghost predicate Gives(call: Call, domain: bool, name: string) {
    if domain then call.DomainCall? && call.name == name else call.NameCall? && call.name == name
  }

  /** The first call that gives `name` an icon. */
  ghost predicate FirstGives(calls: seq<Call>, i: nat, domain: bool, name: string) {
    i < |calls| && Gives(calls[i], domain, name) && forall j | 0 <= j < i :: !Gives(calls[j], domain, name)
  }

  ghost function GivenTo(p: Pack, domain: bool): map<string, nat> {
    if domain then p.domains else p.names
  }

  lemma OneCallGives(out: Outside, p: Pack, call: Call, domain: bool, name: string)
    requires call.IconCall? ==> |out.digest(call.bytes)| == 32
    ensures var m := GivenTo(p, domain);
            var m' := GivenTo(Apply(out, p, call), domain);
            if name !in m && Gives(call, domain, name) then name in m' && m'[name] == call.icon
            else (name in m' <==> name in m) && (name in m ==> m'[name] == m[name])
  {
  }

  /** Of several icons given for one domain or name, the first counts. */
  lemma {:induction false} FirstGivenStays(out: Outside, about: About, calls: seq<Call>, domain: bool, name: string)
    requires Faithful(out)
    ensures var p := Build(out, about, calls);
            var m := GivenTo(p, domain);
            if name in m then exists i: nat :: FirstGives(calls, i, domain, name) && m[name] == calls[i].icon
            else forall i | 0 <= i < |calls| :: !Gives(calls[i], domain, name)
  {
    if calls != [] {
      var (front, last) := (calls[..|calls| - 1], calls[|calls| - 1]);
      FirstGivenStays(out, about, front, domain, name);
      var m := GivenTo(Build(out, about, front), domain);
      OneCallGives(out, Build(out, about, front), last, domain, name);
      if name in m {
        var i: nat :| FirstGives(front, i, domain, name) && m[name] == front[i].icon;
        assert FirstGives(calls, i, domain, name);
      } else {
        assert forall i | 0 <= i < |front| :: calls[i] == front[i];
        if Gives(last, domain, name) {
          assert FirstGives(calls, |front|, domain, name);
        }
      }
    }
  }

  ghost function LibraryOf(calls: seq<Call>): (library: seq<LibraryEntry>)
    ensures forall entry | entry in library :: LibraryCall(entry) in calls
  {
    if calls == [] then []
    else
      var last := calls[|calls| - 1];
      LibraryOf(calls[..|calls| - 1]) + (if last.LibraryCall? then [last.entry] else [])
  }

  lemma {:induction false} LibraryIsGiven(out: Outside, about: About, calls: seq<Call>)
    requires Faithful(out)
    ensures Build(out, about, calls).library == LibraryOf(calls)
  {
    if calls != [] {
      LibraryIsGiven(out, about, calls[..|calls| - 1]);
    }
  }

  /** Only numbers that the writer handed out are used. */
  ghost predicate HandedOut(calls: seq<Call>) {
    forall call | call in calls ::
      match call
      case IconCall(_, _) => true
      case DomainCall(_, icon) => icon < |Pictures(calls)|
      case NameCall(_, icon) => icon < |Pictures(calls)|
      case LibraryCall(entry) => entry.icon < |Pictures(calls)|
  }

  lemma HandedOutPointsInside(out: Outside, about: About, calls: seq<Call>)
    requires Faithful(out) && NoCollision(out, calls) && ShortIcons(calls) && HandedOut(calls)
    ensures PointsInside(Build(out, about, calls))
  {
    var p := Build(out, about, calls);
    BuildIsTiled(out, about, calls);
    forall d | d in p.domains
      ensures p.domains[d] < |p.icons|
    {
      GivenIsInside(out, about, calls, true, d);
    }
    forall n | n in p.names
      ensures p.names[n] < |p.icons|
    {
      GivenIsInside(out, about, calls, false, n);
    }
    LibraryIsGiven(out, about, calls);
  }

  lemma GivenIsInside(out: Outside, about: About, calls: seq<Call>, domain: bool, name: string)
    requires Faithful(out) && HandedOut(calls)
    ensures var p := Build(out, about, calls);
            var m := GivenTo(p, domain);
            name in m ==> m[name] < |Pictures(calls)|
  {
    FirstGivenStays(out, about, calls, domain, name);
    var m := GivenTo(Build(out, about, calls), domain);
    if name in m {
      var i: nat :| FirstGives(calls, i, domain, name) && m[name] == calls[i].icon;
      assert calls[i] in calls;
    }
  }

  function NamedIcon(db: Database, m: map<string, nat>, name: string): Option<Found> {
    if name in m then IconAt(db, m[name]) else None
  }

  lemma NamedIconReadBack(out: Outside, about: About, calls: seq<Call>, m: map<string, nat>, name: string)
    requires Faithful(out) && NoCollision(out, calls) && Fits(out, about, calls)
    ensures NamedIcon(Read(out, Build(out, about, calls)), m, name)
         == if name in m then FoundPicture(out, about.id, Pictures(calls), m[name]) else None
  {
    if name in m {
      IconReadBack(out, about, calls, m[name]);
    }
  }

  /** With numbers the writer handed out, the pack is read without an error. */
  lemma PackIsRead(out: Outside, about: About, calls: seq<Call>)
    requires Faithful(out) && NoCollision(out, calls) && Fits(out, about, calls) && HandedOut(calls)
    ensures Parse(out, Finish(Build(out, about, calls), out)) == Ok(Read(out, Build(out, about, calls)))
  {
    HandedOutPointsInside(out, about, calls);
    ParseUndoesFinish(out, about, calls);
  }

  function Lookup(db: Database, domain: bool, name: string): Option<Found> {
    NamedIcon(db, if domain then db.domains else db.names, name)
  }

  /** A domain or a name yields the icon with the first number given for it, or nothing where none was given. */
  lemma LookupReadBack(out: Outside, about: About, calls: seq<Call>, domain: bool, name: string, i: nat)
    requires Faithful(out) && NoCollision(out, calls) && Fits(out, about, calls) && HandedOut(calls)
    ensures FirstGives(calls, i, domain, name) ==>
              && calls[i].icon < |Pictures(calls)|
              && Lookup(Read(out, Build(out, about, calls)), domain, name)
              == FoundPicture(out, about.id, Pictures(calls), calls[i].icon)
    ensures (forall j | 0 <= j < |calls| :: !Gives(calls[j], domain, name)) ==>
              Lookup(Read(out, Build(out, about, calls)), domain, name) == None
  {
    var m := GivenTo(Build(out, about, calls), domain);
    FirstGivenStays(out, about, calls, domain, name);
    NamedIconReadBack(out, about, calls, m, name);
    if FirstGives(calls, i, domain, name) {
      assert calls[i] in calls;
    }
  }

  /** Later calls leave the icons in their places. */
  lemma {:induction false} PicturesGrow(calls: seq<Call>, n: nat)
    requires n <= |calls|
    ensures Pictures(calls[..n]) <= Pictures(calls)
  {
    if n < |calls| {
      PicturesGrow(calls[..|calls| - 1], n);
      assert calls[..|calls| - 1][..n] == calls[..n];
    } else {
      assert calls[..n] == calls;
    }
  }

  /** The number that the `c`-th call, for an icon, was answered. */
  ghost function Answered(out: Outside, about: About, calls: seq<Call>, c: nat): nat
    requires Faithful(out) && c < |calls| && calls[c].IconCall?
  {
    AddIcon(Build(out, about, calls[..c]), out.digest(calls[c].bytes), calls[c].bytes, calls[c].kind).1
  }

  /** The number answered is the icon's in the finished pack, whatever calls follow. */
  lemma AnsweredStays(out: Outside, about: About, calls: seq<Call>, c: nat)
    requires Faithful(out) && NoCollision(out, calls) && ShortIcons(calls) && c < |calls| && calls[c].IconCall?
    ensures var n := Answered(out, about, calls, c); n < |Pictures(calls)| && Pictures(calls)[n].bytes == calls[c].bytes
  {
    var front := calls[..c];
    var longer := front + [IconCall(calls[c].bytes, calls[c].kind)];
    assert longer == calls[..c + 1];
    assert forall call | call in longer :: call in calls;
    PicturesGrow(calls, c + 1);
    IconAnswersItsNumber(out, about, front, calls[c].bytes, calls[c].kind);
  }

  /** Call `k` is the first for an icon of these bytes. */
  ghost predicate FirstWith(calls: seq<Call>, k: nat, bytes: seq<Byte>) {
    && k < |calls| && calls[k].IconCall? && calls[k].bytes == bytes
    && forall j | 0 <= j < k :: !(calls[j].IconCall? && calls[j].bytes == bytes)
  }

  lemma {:induction false} FirstKindStays(calls: seq<Call>, k: nat, n: nat)
    requires n < |Pictures(calls)| && FirstWith(calls, k, Pictures(calls)[n].bytes)
    ensures Pictures(calls)[n].kind == calls[k].kind
  {
    var (front, last) := (calls[..|calls| - 1], calls[|calls| - 1]);
    PicturesAreGiven(front);
    if n < |Pictures(front)| {
      var picture := Pictures(front)[n];
      assert picture in Pictures(front) && IconCall(picture.bytes, picture.kind) in front;
      var j :| 0 <= j < |front| && front[j] == IconCall(picture.bytes, picture.kind);
      assert calls[j] == front[j] && k <= j;
      assert FirstWith(front, k, picture.bytes);
      FirstKindStays(front, k, n);
    } else if k < |front| {
      HasFirst(front, k);
    }
  }

  lemma {:induction false} HasFirst(calls: seq<Call>, k: nat)
    requires k < |calls| && calls[k].IconCall?
    ensures HasBytes(Pictures(calls), calls[k].bytes)
  {
    var (front, last) := (calls[..|calls| - 1], calls[|calls| - 1]);
    if k < |front| {
      HasFirst(front, k);
      PicturesGrow(calls, |front|);
      var picture :| picture in Pictures(front) && picture.bytes == calls[k].bytes;
      assert picture in Pictures(calls);
    } else if !HasBytes(Pictures(front), last.bytes) {
      assert Picture(last.bytes, last.kind) in Pictures(calls);
    }
  }

  ghost predicate FirstKind(calls: seq<Call>, bytes: seq<Byte>, kind: Kind) {
    forall k: nat | FirstWith(calls, k, bytes) :: calls[k].kind == kind
  }

  lemma PictureHasFirstKind(calls: seq<Call>, n: nat)
    requires n < |Pictures(calls)|
    ensures FirstKind(calls, Pictures(calls)[n].bytes, Pictures(calls)[n].kind)
  {
    forall k: nat | FirstWith(calls, k, Pictures(calls)[n].bytes)
      ensures calls[k].kind == Pictures(calls)[n].kind
    {
      FirstKindStays(calls, k, n);
    }
  }

  /** An icon was found: in this database, these bytes, with the kind they first came with. */
  ghost predicate Yields(found: Option<Found>, database: string, calls: seq<Call>, bytes: seq<Byte>) {
    && found.Some? && found.value.database == database && found.value.bytes == bytes
    && FirstKind(calls, bytes, found.value.kind)
  }

  /** The pack of these calls, finished and read again. */
  ghost function WrittenAndRead(out: Outside, about: About, calls: seq<Call>): Result<Database>
    requires Faithful(out)
  {
    Parse(out, Finish(Build(out, about, calls), out))
  }

  /**
   The round trip. Call `c` gave the writer an icon and was answered a number; call `i` is the first
   to give a domain or a name an icon, and that number. Then the finished pack is read, and the domain
   or name yields the bytes that were handed over, with the kind those bytes first came with.
   */
  lemma PackRoundTrip(out: Outside, about: About, calls: seq<Call>, c: nat, domain: bool, name: string, i: nat)
    requires Faithful(out) && NoCollision(out, calls) && Fits(out, about, calls) && HandedOut(calls)
    requires c < |calls| && calls[c].IconCall?
    requires FirstGives(calls, i, domain, name) && calls[i].icon == Answered(out, about, calls, c)
    ensures WrittenAndRead(out, about, calls).Ok?
    ensures Yields(Lookup(WrittenAndRead(out, about, calls).value, domain, name), about.id, calls, calls[c].bytes)
  {
    PackIsRead(out, about, calls);
    LookupReadBack(out, about, calls, domain, name, i);
    AnsweredStays(out, about, calls, c);
    PictureHasFirstKind(calls, calls[i].icon);
  }

  ghost predicate LastEntry(library: seq<LibraryEntry>, at: nat, id: string) {
    at < |library| && library[at].id == id && forall j | at < j < |library| :: library[j].id != id
  }

  /** The library is another matter: of several entries with one id, the last counts. */
  lemma {:induction false} LastLibraryEntryCounts(library: seq<LibraryEntry>, id: string)
    ensures if id in LibraryIds(library) then LastEntry(library, LibraryIds(library)[id], id)
            else forall j | 0 <= j < |library| :: library[j].id != id
  {
    if library != [] {
      LastLibraryEntryCounts(library[..|library| - 1], id);
    }
  }

  lemma LibraryRoundTrip(out: Outside, about: About, calls: seq<Call>, id: string, at: nat)
    requires Faithful(out) && NoCollision(out, calls) && Fits(out, about, calls) && HandedOut(calls)
    requires LastEntry(LibraryOf(calls), at, id)
    ensures var parsed := Parse(out, Finish(Build(out, about, calls), out));
            parsed.Ok? && LibraryIcon(parsed.value, id) == FoundPicture(out, about.id, Pictures(calls), LibraryOf(calls)[at].icon)
  {
    HandedOutPointsInside(out, about, calls);
    ParseUndoesFinish(out, about, calls);
    LibraryIsGiven(out, about, calls);
    LibraryReadBack(out, about, calls, Read(out, Build(out, about, calls)), id, at);
  }

  lemma LibraryReadBack(out: Outside, about: About, calls: seq<Call>, db: Database, id: string, at: nat)
    requires Faithful(out) && NoCollision(out, calls) && Fits(out, about, calls) && LastEntry(db.library, at, id)
    requires db == Read(out, Build(out, about, calls))
    ensures LibraryIcon(db, id) == FoundPicture(out, about.id, Pictures(calls), db.library[at].icon)
  {
    LastLibraryEntryCounts(db.library, id);
    IconReadBack(out, about, calls, db.library[at].icon);
  }

  ghost predicate FirstEntry(library: seq<LibraryEntry>, at: nat, id: string) {
    at < |library| && library[at].id == id && forall j | 0 <= j < at :: library[j].id != id
  }

  /** So the first entry's icon is the one found exactly when the last entry has the same. */
  lemma FirstLibraryEntryCounts(out: Outside, about: About, calls: seq<Call>, id: string, first: nat, last: nat)
    requires Faithful(out) && NoCollision(out, calls) && Fits(out, about, calls) && HandedOut(calls)
    requires FirstEntry(LibraryOf(calls), first, id) && LastEntry(LibraryOf(calls), last, id)
    ensures var library := LibraryOf(calls);
            var parsed := Parse(out, Finish(Build(out, about, calls), out));
            && parsed.Ok?
            && (LibraryIcon(parsed.value, id) == FoundPicture(out, about.id, Pictures(calls), library[first].icon)
                <==> library[first].icon == library[last].icon)
  {
    var library := LibraryOf(calls);
    LibraryRoundTrip(out, about, calls, id, last);
    PicturesAreGiven(calls);
    assert LibraryCall(library[first]) in calls && LibraryCall(library[last]) in calls;
  }

  /** A pack with two icons, given one after the other for one library id. */
  function TwoForOne(a: seq<Byte>, b: seq<Byte>, kind: Kind, id: string): seq<Call> {
    [IconCall(a, kind), IconCall(b, kind)] + [LibraryCall(LibraryEntry(id, id, [], 0))] + [LibraryCall(LibraryEntry(id, id, [], 1))]
  }

  lemma OneMoreCall(calls: seq<Call>, call: Call)
    ensures Pictures(calls + [call]) == if call.IconCall? then WithPicture(Pictures(calls), call.bytes, call.kind) else Pictures(calls)
    ensures LibraryOf(calls + [call]) == LibraryOf(calls) + if call.LibraryCall? then [call.entry] else []
  {
    assert (calls + [call])[..|calls|] == calls;
  }

  lemma TwoPictures(a: seq<Byte>, b: seq<Byte>, kind: Kind)
    requires a != b
    ensures Pictures([IconCall(a, kind), IconCall(b, kind)]) == [Picture(a, kind), Picture(b, kind)]
    ensures LibraryOf([IconCall(a, kind), IconCall(b, kind)]) == []
  {
    assert [] + [IconCall(a, kind)] == [IconCall(a, kind)];
    OneMoreCall([], IconCall(a, kind));
    assert Pictures([IconCall(a, kind)]) == [Picture(a, kind)];
    assert [IconCall(a, kind)] + [IconCall(b, kind)] == [IconCall(a, kind), IconCall(b, kind)];
    OneMoreCall([IconCall(a, kind)], IconCall(b, kind));
  }

  lemma TwoForOneMeans(a: seq<Byte>, b: seq<Byte>, kind: Kind, id: string)
    requires a != b
    ensures Pictures(TwoForOne(a, b, kind, id)) == [Picture(a, kind), Picture(b, kind)]
    ensures LibraryOf(TwoForOne(a, b, kind, id)) == [LibraryEntry(id, id, [], 0), LibraryEntry(id, id, [], 1)]
  {
    var (one, two) := (LibraryCall(LibraryEntry(id, id, [], 0)), LibraryCall(LibraryEntry(id, id, [], 1)));
    var both := [IconCall(a, kind), IconCall(b, kind)];
    assert Pictures(both) == [Picture(a, kind), Picture(b, kind)] && LibraryOf(both) == [] by {
      TwoPictures(a, b, kind);
    }
    OneMoreCall(both, one);
    OneMoreCall(both + [one], two);
  }

  lemma BothHandedOut(calls: seq<Call>, a: seq<Byte>, b: seq<Byte>, kind: Kind, id: string)
    requires calls == TwoForOne(a, b, kind, id) && |Pictures(calls)| == 2
    ensures HandedOut(calls)
  {
  }

  /** Written, finished and read back, it yields the second icon and not the first. */
  lemma FirstLibraryEntryLost(out: Outside, about: About, a: seq<Byte>, b: seq<Byte>, kind: Kind, id: string)
    requires Faithful(out) && out.digest(a) != out.digest(b) && Fits(out, about, TwoForOne(a, b, kind, id))
    ensures var parsed := Parse(out, Finish(Build(out, about, TwoForOne(a, b, kind, id)), out));
            parsed.Ok? && LibraryIcon(parsed.value, id).Some? && LibraryIcon(parsed.value, id).value.bytes == b != a
  {
    var calls := TwoForOne(a, b, kind, id);
    TwoForOneMeans(a, b, kind, id);
    BothHandedOut(calls, a, b, kind, id);
    LibraryRoundTrip(out, about, calls, id, 1);
  }

  /** The icon of a host or of the nearest domain above it. */
  method ByDomain(db: Database, host: string, base: Option<string>) returns (found: Option<Found>)
    ensures exists icon ::
              NearestIcon(db.domains, host, base, icon) && found == if icon.Some? then IconAt(db, icon.value) else None
  {
    var icon := Walk(db.domains, host, base);
    found := if icon.Some? then IconAt(db, icon.value) else None;
  }
}
