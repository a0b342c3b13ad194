/**
 An upload is written to a hidden file of its own, then gets its name by a hard link, which fails
 when the name is taken, and loses the hidden one. Any number of uploads do so at once.
 */
module Publish {
  import opened Prelude

  // ----- Receiving: one multipart form -----

  const MOST_PARTS: nat := 8
  const MOST_FIELD: nat := 10_000

  /** A piece of a part as it arrives, or none in time. */
  datatype Chunk = Bytes(bytes: seq<Byte>) | Stalled

  datatype Part = Part(name: string, chunks: seq<Chunk>)

  datatype Received =
    | Complete(data: seq<Byte>, fields: seq<(string, seq<Byte>)>)
    | NotTaken

  /** Whether bytes are text. */
  type Utf8 = seq<Byte> -> bool

  predicate IsFile(part: Part) {
    part.name == "data"
  }

  ghost predicate Arrives(chunks: seq<Chunk>) {
    forall c | c in chunks :: c.Bytes?
  }

  ghost function Content(chunks: seq<Chunk>): (content: seq<Byte>)
  {
    if chunks == [] then []
    else Content(chunks[..|chunks| - 1]) + (match chunks[|chunks| - 1] case Bytes(bytes) => bytes case Stalled => [])
  }

  ghost predicate PartFits(part: Part, limit: nat, utf8: Utf8) {
    && Arrives(part.chunks)
    && if IsFile(part) then |Content(part.chunks)| <= limit
       else |Content(part.chunks)| <= MOST_FIELD && utf8(Content(part.chunks))
  }

  /** A form that is taken: few parts, all complete and small enough, exactly one of them the file. */
  ghost predicate FormFits(parts: seq<Part>, broken: bool, limit: nat, room: bool, utf8: Utf8) {
    && room && !broken && |parts| <= MOST_PARTS
    && (forall part | part in parts :: PartFits(part, limit, utf8))
    && |Files(parts)| == 1
  }

  ghost function Files(parts: seq<Part>): seq<Part> {
    if parts == [] then []
    else
      var last := parts[|parts| - 1];
      Files(parts[..|parts| - 1]) + (if IsFile(last) then [last] else [])
  }

  ghost function Fields(parts: seq<Part>): seq<(string, seq<Byte>)> {
    if parts == [] then []
    else
      var last := parts[|parts| - 1];
      Fields(parts[..|parts| - 1]) + (if IsFile(last) then [] else [(last.name, Content(last.chunks))])
  }

  /** What is to come of a form: the whole of its file and its fields, or nothing. */
  ghost function Answer(parts: seq<Part>, broken: bool, limit: nat, room: bool, utf8: Utf8): Received {
    if FormFits(parts, broken, limit, room, utf8) then Complete(Content(Files(parts)[0].chunks), Fields(parts))
    else NotTaken
  }

  lemma {:induction false} ContentGrows(chunks: seq<Chunk>, n: nat)
    requires n <= |chunks|
    ensures |Content(chunks[..n])| <= |Content(chunks)|
  {
    if n < |chunks| {
      ContentGrows(chunks[..|chunks| - 1], n);
      assert chunks[..|chunks| - 1][..n] == chunks[..n];
    } else {
      assert chunks[..n] == chunks;
    }
  }

  lemma {:induction false} FilesGrow(parts: seq<Part>, n: nat)
    requires n <= |parts|
    ensures |Files(parts[..n])| <= |Files(parts)|
  {
    if n < |parts| {
      FilesGrow(parts[..|parts| - 1], n);
      assert parts[..|parts| - 1][..n] == parts[..n];
    } else {
      assert parts[..n] == parts;
    }
  }

  /** The chunks of one part, at most `limit` bytes. */
  method ReadPart(chunks: seq<Chunk>, limit: nat) returns (content: Option<seq<Byte>>)
    ensures content.Some? <==> Arrives(chunks) && |Content(chunks)| <= limit
    ensures content.Some? ==> content.value == Content(chunks)
  {
    var bytes := [];
    for i := 0 to |chunks|
      invariant Arrives(chunks[..i]) && bytes == Content(chunks[..i]) && |bytes| <= limit
    {
      assert chunks[..i + 1][..i] == chunks[..i];
      match chunks[i]
      case Stalled =>
        assert chunks[i] in chunks;
        return None;
      case Bytes(more) =>
        if |bytes| + |more| > limit {
          ContentGrows(chunks, i + 1);
          return None;
        }
        bytes := bytes + more;
    }
    assert chunks[..|chunks|] == chunks;
    return Some(bytes);
  }

  /** One part: the file, a field, or the end of the upload. */
  method TakePart(part: Part, limit: nat, utf8: Utf8) returns (taken: Option<seq<Byte>>)
    ensures taken.Some? <==> PartFits(part, limit, utf8)
    ensures taken.Some? ==> taken.value == Content(part.chunks)
  {
    if part.name != "data" {
      taken := ReadPart(part.chunks, MOST_FIELD);
      if taken.Some? && !utf8(taken.value) {
        return None;
      }
    } else {
      taken := ReadPart(part.chunks, limit);
    }
  }

  ghost predicate TakenSoFar(parts: seq<Part>, limit: nat, utf8: Utf8, data: Option<seq<Byte>>,
                             fields: seq<(string, seq<Byte>)>)
  {
    && (forall part | part in parts :: PartFits(part, limit, utf8))
    && fields == Fields(parts)
    && if data.None? then Files(parts) == []
       else |Files(parts)| == 1 && data.value == Content(Files(parts)[0].chunks)
  }

  lemma OneMorePart(parts: seq<Part>, n: nat)
    requires n < |parts|
    ensures parts[..n + 1][..n] == parts[..n] && parts[n] in parts
    ensures |Files(parts[..n + 1])| <= |Files(parts)|
  {
    FilesGrow(parts, n + 1);
  }

  /** One more part is taken, the file or a field. */
  lemma OneMoreTaken(parts: seq<Part>, n: nat, limit: nat, utf8: Utf8, data: Option<seq<Byte>>,
                     fields: seq<(string, seq<Byte>)>)
    requires n < |parts| && PartFits(parts[n], limit, utf8) && TakenSoFar(parts[..n], limit, utf8, data, fields)
    requires IsFile(parts[n]) ==> data.None?
    ensures IsFile(parts[n]) ==> TakenSoFar(parts[..n + 1], limit, utf8, Some(Content(parts[n].chunks)), fields)
    ensures !IsFile(parts[n]) ==>
              TakenSoFar(parts[..n + 1], limit, utf8, data, fields + [(parts[n].name, Content(parts[n].chunks))])
  {
    assert parts[..n + 1][..n] == parts[..n];
  }

  method Receive(parts: seq<Part>, broken: bool, limit: nat, room: bool, utf8: Utf8)
    returns (received: Received)
    ensures received.Complete? <==> FormFits(parts, broken, limit, room, utf8)
    ensures received == Answer(parts, broken, limit, room, utf8)
  {
    if !room {
      return NotTaken;
    }
    var fields: seq<(string, seq<Byte>)> := [];
    var data: Option<seq<Byte>> := None;
    for n := 0 to |parts|
      invariant n <= MOST_PARTS
      invariant TakenSoFar(parts[..n], limit, utf8, data, fields)
    {
      OneMorePart(parts, n);
      if n + 1 > MOST_PARTS {
        return NotTaken;
      }
      var file := parts[n].name == "data";
      if file && data.Some? {
        return NotTaken;
      }
      var taken := TakePart(parts[n], limit, utf8);
      if taken.None? {
        return NotTaken;
      }
      OneMoreTaken(parts, n, limit, utf8, data, fields);
      if file {
        data := taken;
      } else {
        fields := fields + [(parts[n].name, taken.value)];
      }
    }
    assert parts[..|parts|] == parts;
    if broken || data.None? {
      return NotTaken;
    }
    return Complete(data.value, fields);
  }

  // ----- Publishing: any number of uploads at once -----

  /** The place a file is published at, or the hidden file of one upload (a name of its own). */
  datatype Path = Final(target: string) | Partial(id: nat)

  /** `Failing`: an error, the hidden file not yet removed. `Linked` and `Taken`: the link was tried, likewise. */
  datatype Phase = Reading | Writing | Ready | Failing | Linked | Taken | Kept | KeepRefused | Refused | Discarded

  /** What a request brings: its parts and whether it breaks off behind them; the limit and the room there is. */
  datatype Form = Form(parts: seq<Part>, broken: bool, limit: nat, room: bool)

  /** `at` parts are read, `chunk` pieces of the next one written. `stuck`: the hidden file could not be removed. */
  datatype Upload = Upload(target: string, form: Form, at: nat, chunk: nat, fields: seq<(string, seq<Byte>)>,
                           phase: Phase, stuck: bool)

  /**
   `names` says which file a path names; a file goes by the number of the upload that made it, and
   two paths may name the same one. `data` are the bytes of the files.
   */
  datatype World = World(names: map<Path, nat>, data: map<nat, seq<Byte>>, uploads: map<nat, Upload>)

  const EMPTY: World := World(map[], map[], map[])

  datatype Step =
    | Start(id: nat, target: string, form: Form)
    | Field(id: nat)
    | Open(id: nat)
    | Write(id: nat)
    | Sync(id: nat)
    | FormEnds(id: nat)
    | Fail(id: nat)
    | CleanUp(id: nat, removed: bool)
    | Link(id: nat)
    | LinkFails(id: nat)
    | Unlink(id: nat, removed: bool)
    | Discard(id: nat, removed: bool)

  ghost predicate In(w: World, id: nat, phase: Phase) {
    id in w.uploads && w.uploads[id].phase == phase
  }

  ghost predicate AtPart(w: World, id: nat, phase: Phase) {
    In(w, id, phase) && w.uploads[id].at < |w.uploads[id].form.parts|
  }

  ghost function To(w: World, id: nat, phase: Phase): World
    requires id in w.uploads
  {
    w.(uploads := w.uploads[id := w.uploads[id].(phase := phase)])
  }

  /** The hidden file is removed, if it can be. */
  ghost function Ended(w: World, id: nat, phase: Phase, removed: bool): World
    requires id in w.uploads
  {
    var stuck := !removed && id in w.data;
    World(if stuck then w.names else w.names - {Partial(id)}, w.data,
          w.uploads[id := w.uploads[id].(phase := phase, stuck := stuck)])
  }

  ghost function Started(w: World, id: nat, target: string, form: Form): World {
    w.(uploads := w.uploads[id := Upload(target, form, 0, 0, [], if form.room then Reading else Refused, false)])
  }

  ghost function WithField(upload: Upload): Upload
    requires upload.at < |upload.form.parts|
  {
    var part := upload.form.parts[upload.at];
    upload.(at := upload.at + 1, fields := upload.fields + [(part.name, Content(part.chunks))])
  }

  /** A field is read in one step: no file is touched meanwhile. */
  ghost function FieldRead(w: World, id: nat, utf8: Utf8): World
    requires AtPart(w, id, Reading)
  {
    var upload := w.uploads[id];
    var part := upload.form.parts[upload.at];
    if upload.at >= MOST_PARTS || !PartFits(part, upload.form.limit, utf8) then To(w, id, Failing)
    else w.(uploads := w.uploads[id := WithField(upload)])
  }

  /** The hidden file is made, unless there are too many parts or there is a file already. */
  ghost function Opened(w: World, id: nat): World
    requires AtPart(w, id, Reading)
  {
    var upload := w.uploads[id];
    if upload.at >= MOST_PARTS || id in w.data then To(w, id, Failing)
    else World(w.names[Partial(id) := id], w.data[id := []], w.uploads[id := upload.(phase := Writing, chunk := 0)])
  }

  /** The next piece; one that does not come, or is over the limit, is not written and ends the upload. */
  ghost function WrittenTo(w: World, id: nat): World
    requires AtPart(w, id, Writing) && id in w.data
    requires w.uploads[id].chunk < |w.uploads[id].form.parts[w.uploads[id].at].chunks|
  {
    var upload := w.uploads[id];
    match upload.form.parts[upload.at].chunks[upload.chunk]
    case Stalled => To(w, id, Failing)
    case Bytes(bytes) =>
      if |w.data[id]| + |bytes| > upload.form.limit then To(w, id, Failing)
      else World(w.names, w.data[id := w.data[id] + bytes], w.uploads[id := upload.(chunk := upload.chunk + 1)])
  }

  ghost function Synced(w: World, id: nat): World
    requires id in w.uploads
  {
    var upload := w.uploads[id];
    w.(uploads := w.uploads[id := upload.(phase := Reading, at := upload.at + 1)])
  }

  /** `hard_link`: a name that is taken stays as it is. */
  ghost function LinkedTo(w: World, id: nat): World
    requires id in w.uploads
  {
    var path := Final(w.uploads[id].target);
    if path in w.names then To(w, id, Taken) else To(w.(names := w.names[path := id]), id, Linked)
  }

  ghost predicate Next(w: World, step: Step, w': World, utf8: Utf8) {
    match step
    case Start(id, target, form) => id !in w.uploads && w' == Started(w, id, target, form)
    case Field(id) =>
      AtPart(w, id, Reading) && !IsFile(w.uploads[id].form.parts[w.uploads[id].at]) && w' == FieldRead(w, id, utf8)
    case Open(id) =>
      AtPart(w, id, Reading) && IsFile(w.uploads[id].form.parts[w.uploads[id].at]) && w' == Opened(w, id)
    case Write(id) =>
      && AtPart(w, id, Writing) && id in w.data
      && w.uploads[id].chunk < |w.uploads[id].form.parts[w.uploads[id].at].chunks| && w' == WrittenTo(w, id)
    case Sync(id) =>
      && AtPart(w, id, Writing)
      && w.uploads[id].chunk == |w.uploads[id].form.parts[w.uploads[id].at].chunks| && w' == Synced(w, id)
    case FormEnds(id) =>
      && In(w, id, Reading) && w.uploads[id].at == |w.uploads[id].form.parts|
      && w' == To(w, id, if w.uploads[id].form.broken || id !in w.data then Failing else Ready)
    case Fail(id) => (In(w, id, Reading) || In(w, id, Writing)) && w' == To(w, id, Failing)
    case CleanUp(id, removed) => In(w, id, Failing) && w' == Ended(w, id, Refused, removed)
    case Link(id) => In(w, id, Ready) && w' == LinkedTo(w, id)
    case LinkFails(id) => In(w, id, Ready) && w' == To(w, id, Taken)
    case Unlink(id, removed) =>
      || (In(w, id, Linked) && w' == Ended(w, id, Kept, removed))
      || (In(w, id, Taken) && w' == Ended(w, id, KeepRefused, removed))
    case Discard(id, removed) => In(w, id, Ready) && w' == Ended(w, id, Discarded, removed)
  }

  ghost predicate Follows(w: World, w': World, utf8: Utf8) {
    exists step :: Next(w, step, w', utf8)
  }

  ghost predicate Run(run: seq<World>, utf8: Utf8) {
    && |run| > 0
    && run[0] == EMPTY
    && forall i | 0 < i < |run| :: Follows(run[i - 1], run[i], utf8)
  }

  ghost predicate Over(phase: Phase) {
    phase.Kept? || phase.KeepRefused? || phase.Refused? || phase.Discarded?
  }

  ghost predicate Published(w: World, id: nat) {
    In(w, id, Linked) || In(w, id, Kept)
  }

  ghost function FileOf(w: World, id: nat): Option<seq<Byte>> {
    if id in w.data then Some(w.data[id]) else None
  }

  /** All of the form was taken, as `Receive` answers it: the whole file and all the fields. */
  ghost predicate Whole(upload: Upload, file: Option<seq<Byte>>, utf8: Utf8) {
    var form := upload.form;
    && file.Some?
    && Answer(form.parts, form.broken, form.limit, form.room, utf8) == Complete(file.value, upload.fields)
  }

  /** The parts before the one at hand were taken, and nothing is missing in what they left. */
  ghost predicate InForm(upload: Upload, data: Option<seq<Byte>>, utf8: Utf8) {
    var form := upload.form;
    && form.room && upload.at <= |form.parts| && upload.at <= MOST_PARTS
    && TakenSoFar(form.parts[..upload.at], form.limit, utf8, data, upload.fields)
  }

  /** In the middle of the file: what is written is the pieces up to here. */
  ghost predicate InFile(upload: Upload, file: seq<Byte>) {
    && upload.at < |upload.form.parts| && upload.at < MOST_PARTS
    && var part := upload.form.parts[upload.at];
    && IsFile(part) && upload.chunk <= |part.chunks|
    && Arrives(part.chunks[..upload.chunk])
    && file == Content(part.chunks[..upload.chunk])
    && |file| <= upload.form.limit
  }

  ghost predicate OwnRight(upload: Upload, file: Option<seq<Byte>>, utf8: Utf8) {
    match upload.phase
    case Reading => InForm(upload, file, utf8)
    case Writing => file.Some? && InForm(upload, None, utf8) && InFile(upload, file.value)
    case Failing => true
    case Refused => true
    case _ => Whole(upload, file, utf8)
  }

  /** The hidden files are those of the uploads that are not over, and those that could not be removed. */
  ghost predicate PartialsRight(w: World) {
    && w.data.Keys <= w.uploads.Keys
    && (forall id | Partial(id) in w.names :: id in w.uploads && w.names[Partial(id)] == id)
    && (forall id | id in w.uploads ::
          Partial(id) in w.names <==> id in w.data && (!Over(w.uploads[id].phase) || w.uploads[id].stuck))
  }

  ghost predicate FilesRight(w: World, utf8: Utf8) {
    forall id | id in w.uploads :: OwnRight(w.uploads[id], FileOf(w, id), utf8)
  }

  /** A path names the one upload that was published there. */
  ghost predicate FinalsRight(w: World) {
    && (forall target | Final(target) in w.names ::
          Published(w, w.names[Final(target)]) && w.uploads[w.names[Final(target)]].target == target)
    && (forall id | Published(w, id) ::
          Final(w.uploads[id].target) in w.names && w.names[Final(w.uploads[id].target)] == id)
  }

  ghost predicate Right(w: World, utf8: Utf8) {
    PartialsRight(w) && FinalsRight(w) && FilesRight(w, utf8)
  }

  /** What is published stays: the name, the file, its bytes, and what was asked for. */
  ghost predicate Stays(w: World, w': World) {
    && (forall target | Final(target) in w.names ::
          Final(target) in w'.names && w'.names[Final(target)] == w.names[Final(target)])
    && (forall id | Published(w, id) ::
          && Published(w', id) && FileOf(w', id) == FileOf(w, id)
          && w'.uploads[id].target == w.uploads[id].target && w'.uploads[id].form == w.uploads[id].form)
  }

  /** A step of upload `id`: nothing of any other upload, and no published name, changes. */
  ghost predicate Touches(w: World, id: nat, w': World) {
    && w'.uploads.Keys == w.uploads.Keys + {id}
    && (forall i | i in w.uploads && i != id :: w'.uploads[i] == w.uploads[i])
    && (forall i | i != id :: FileOf(w', i) == FileOf(w, i))
    && (forall path | path in w.names && path != Partial(id) :: path in w'.names && w'.names[path] == w.names[path])
    && (forall path | path in w'.names && path != Partial(id) :: path in w.names)
  }

  ghost predicate PartialRight(w: World, id: nat) {
    && id in w.uploads
    && (Partial(id) in w.names <==> id in w.data && (!Over(w.uploads[id].phase) || w.uploads[id].stuck))
    && (Partial(id) in w.names ==> w.names[Partial(id)] == id)
  }

  lemma PartialsKept(w: World, id: nat, w': World)
    requires PartialsRight(w) && Touches(w, id, w') && PartialRight(w', id)
    ensures PartialsRight(w')
  {
    forall i | i in w'.data ensures i in w'.uploads {
      assert i != id ==> FileOf(w', i) == FileOf(w, i);
    }
    forall i | i in w'.uploads ensures PartialRight(w', i) {
      if i != id {
        assert PartialRight(w, i) && FileOf(w', i) == FileOf(w, i);
      }
    }
    forall i | Partial(i) in w'.names ensures PartialRight(w', i) {
      assert i != id ==> Partial(i) in w.names;
    }
  }

  lemma FilesKept(w: World, id: nat, w': World, utf8: Utf8)
    requires FilesRight(w, utf8) && Touches(w, id, w') && OwnRight(w'.uploads[id], FileOf(w', id), utf8)
    ensures FilesRight(w', utf8)
  {
    forall i | i in w'.uploads ensures OwnRight(w'.uploads[i], FileOf(w', i), utf8) {
      assert i != id ==> FileOf(w', i) == FileOf(w, i) && w'.uploads[i] == w.uploads[i];
    }
  }

  ghost predicate SamePublished(w: World, id: nat, w': World) {
    && (Published(w', id) <==> Published(w, id))
    && (Published(w, id) ==>
          && w'.uploads[id].target == w.uploads[id].target && w'.uploads[id].form == w.uploads[id].form
          && FileOf(w', id) == FileOf(w, id))
  }

  lemma FinalsKept(w: World, id: nat, w': World)
    requires FinalsRight(w) && Touches(w, id, w') && SamePublished(w, id, w')
    ensures FinalsRight(w') && Stays(w, w')
  {
    forall i ensures Published(w', i) <==> Published(w, i) {
      assert i != id ==> FileOf(w', i) == FileOf(w, i);
    }
    forall target | Final(target) in w'.names ensures Final(target) in w.names {
      assert Final(target) != Partial(id);
    }
  }

  /** Whatever one upload does keeps what is right of all the others. */
  lemma TouchingKeeps(w: World, id: nat, w': World, utf8: Utf8)
    requires Right(w, utf8) && Touches(w, id, w') && SamePublished(w, id, w') && PartialRight(w', id)
    requires OwnRight(w'.uploads[id], FileOf(w', id), utf8)
    ensures Right(w', utf8) && Stays(w, w')
  {
    PartialsKept(w, id, w');
    FilesKept(w, id, w', utf8);
    FinalsKept(w, id, w');
  }

  lemma ToTouches(w: World, id: nat, phase: Phase)
    requires PartialsRight(w) && id in w.uploads && !Over(w.uploads[id].phase)
    requires !Over(phase) && (Published(w, id) <==> phase == Linked)
    ensures var w' := To(w, id, phase);
            && Touches(w, id, w') && SamePublished(w, id, w') && PartialRight(w', id)
            && w'.uploads[id] == w.uploads[id].(phase := phase) && FileOf(w', id) == FileOf(w, id)
  {
  }

  lemma ToKeeps(w: World, id: nat, phase: Phase, utf8: Utf8)
    requires Right(w, utf8) && id in w.uploads && !Over(w.uploads[id].phase)
    requires !Over(phase) && (Published(w, id) <==> phase == Linked)
    requires OwnRight(w.uploads[id].(phase := phase), FileOf(w, id), utf8)
    ensures Right(To(w, id, phase), utf8) && Stays(w, To(w, id, phase))
  {
    ToTouches(w, id, phase);
    TouchingKeeps(w, id, To(w, id, phase), utf8);
  }

  lemma EndingTouches(w: World, id: nat, phase: Phase, removed: bool)
    requires PartialsRight(w) && id in w.uploads && !Over(w.uploads[id].phase)
    requires Over(phase) && (Published(w, id) <==> phase == Kept)
    ensures var w' := Ended(w, id, phase, removed);
            && Touches(w, id, w') && SamePublished(w, id, w') && PartialRight(w', id)
            && w'.uploads[id] == w.uploads[id].(phase := phase, stuck := w'.uploads[id].stuck)
            && FileOf(w', id) == FileOf(w, id)
  {
  }

  lemma EndedRight(upload: Upload, phase: Phase, stuck: bool, file: Option<seq<Byte>>, utf8: Utf8)
    requires Over(phase) && (phase == Refused || Whole(upload, file, utf8))
    ensures OwnRight(upload.(phase := phase, stuck := stuck), file, utf8)
  {
  }

  lemma EndingKeeps(w: World, id: nat, phase: Phase, removed: bool, utf8: Utf8)
    requires Right(w, utf8) && id in w.uploads && !Over(w.uploads[id].phase)
    requires Over(phase) && (Published(w, id) <==> phase == Kept)
    requires phase == Refused || Whole(w.uploads[id], FileOf(w, id), utf8)
    ensures Right(Ended(w, id, phase, removed), utf8) && Stays(w, Ended(w, id, phase, removed))
  {
    EndingTouches(w, id, phase, removed);
    EndedRight(w.uploads[id], phase, Ended(w, id, phase, removed).uploads[id].stuck, FileOf(w, id), utf8);
    TouchingKeeps(w, id, Ended(w, id, phase, removed), utf8);
  }

  lemma StartKeeps(w: World, id: nat, target: string, form: Form, utf8: Utf8)
    requires Right(w, utf8) && id !in w.uploads
    ensures Right(Started(w, id, target, form), utf8) && Stays(w, Started(w, id, target, form))
  {
    TouchingKeeps(w, id, Started(w, id, target, form), utf8);
  }

  lemma FieldReadRight(upload: Upload, file: Option<seq<Byte>>, utf8: Utf8)
    requires upload.phase == Reading && InForm(upload, file, utf8) && upload.at < |upload.form.parts|
    requires upload.at < MOST_PARTS && !IsFile(upload.form.parts[upload.at])
    requires PartFits(upload.form.parts[upload.at], upload.form.limit, utf8)
    ensures OwnRight(WithField(upload), file, utf8)
  {
    OneMoreTaken(upload.form.parts, upload.at, upload.form.limit, utf8, file, upload.fields);
  }

  lemma FieldTouches(w: World, id: nat, utf8: Utf8)
    requires PartialsRight(w) && AtPart(w, id, Reading)
    requires w.uploads[id].at < MOST_PARTS
    requires PartFits(w.uploads[id].form.parts[w.uploads[id].at], w.uploads[id].form.limit, utf8)
    ensures var w' := FieldRead(w, id, utf8);
            && Touches(w, id, w') && SamePublished(w, id, w') && PartialRight(w', id)
            && w'.uploads[id] == WithField(w.uploads[id]) && FileOf(w', id) == FileOf(w, id)
  {
  }

  lemma FieldKeeps(w: World, id: nat, utf8: Utf8)
    requires Right(w, utf8) && AtPart(w, id, Reading) && !IsFile(w.uploads[id].form.parts[w.uploads[id].at])
    ensures Right(FieldRead(w, id, utf8), utf8) && Stays(w, FieldRead(w, id, utf8))
  {
    var upload := w.uploads[id];
    if upload.at >= MOST_PARTS || !PartFits(upload.form.parts[upload.at], upload.form.limit, utf8) {
      ToKeeps(w, id, Failing, utf8);
    } else {
      FieldReadRight(upload, FileOf(w, id), utf8);
      FieldTouches(w, id, utf8);
      TouchingKeeps(w, id, FieldRead(w, id, utf8), utf8);
    }
  }

  lemma OpenedRight(upload: Upload, utf8: Utf8)
    requires InForm(upload, None, utf8) && upload.at < |upload.form.parts| && upload.at < MOST_PARTS
    requires IsFile(upload.form.parts[upload.at])
    ensures OwnRight(upload.(phase := Writing, chunk := 0), Some([]), utf8)
  {
  }

  lemma OpeningTouches(w: World, id: nat)
    requires PartialsRight(w) && AtPart(w, id, Reading) && w.uploads[id].at < MOST_PARTS && id !in w.data
    ensures var w' := Opened(w, id);
            && Touches(w, id, w') && SamePublished(w, id, w') && PartialRight(w', id)
            && w'.uploads[id] == w.uploads[id].(phase := Writing, chunk := 0) && FileOf(w', id) == Some([])
  {
  }

  lemma OpeningKeeps(w: World, id: nat, utf8: Utf8)
    requires Right(w, utf8) && AtPart(w, id, Reading) && IsFile(w.uploads[id].form.parts[w.uploads[id].at])
    ensures Right(Opened(w, id), utf8) && Stays(w, Opened(w, id))
  {
    if w.uploads[id].at >= MOST_PARTS || id in w.data {
      ToKeeps(w, id, Failing, utf8);
    } else {
      OpeningTouches(w, id);
      assert InForm(w.uploads[id], None, utf8);
      OpenedRight(w.uploads[id], utf8);
      TouchingKeeps(w, id, Opened(w, id), utf8);
    }
  }

  lemma PieceWritten(upload: Upload, file: seq<Byte>, bytes: seq<Byte>, utf8: Utf8)
    requires upload.phase == Writing && OwnRight(upload, Some(file), utf8)
    requires upload.chunk < |upload.form.parts[upload.at].chunks|
    requires upload.form.parts[upload.at].chunks[upload.chunk] == Bytes(bytes)
    requires |file| + |bytes| <= upload.form.limit
    ensures OwnRight(upload.(chunk := upload.chunk + 1), Some(file + bytes), utf8)
  {
    var chunks := upload.form.parts[upload.at].chunks;
    assert chunks[..upload.chunk + 1][..upload.chunk] == chunks[..upload.chunk];
  }

  lemma WritingTouches(w: World, id: nat, bytes: seq<Byte>)
    requires PartialsRight(w) && AtPart(w, id, Writing) && id in w.data
    requires w.uploads[id].chunk < |w.uploads[id].form.parts[w.uploads[id].at].chunks|
    requires w.uploads[id].form.parts[w.uploads[id].at].chunks[w.uploads[id].chunk] == Bytes(bytes)
    requires |w.data[id]| + |bytes| <= w.uploads[id].form.limit
    ensures var w' := WrittenTo(w, id);
            && Touches(w, id, w') && SamePublished(w, id, w') && PartialRight(w', id)
            && w'.uploads[id] == w.uploads[id].(chunk := w.uploads[id].chunk + 1)
            && FileOf(w', id) == Some(w.data[id] + bytes)
  {
  }

  lemma PieceKeeps(w: World, id: nat, bytes: seq<Byte>, utf8: Utf8)
    requires Right(w, utf8) && AtPart(w, id, Writing) && id in w.data
    requires w.uploads[id].chunk < |w.uploads[id].form.parts[w.uploads[id].at].chunks|
    requires w.uploads[id].form.parts[w.uploads[id].at].chunks[w.uploads[id].chunk] == Bytes(bytes)
    requires |w.data[id]| + |bytes| <= w.uploads[id].form.limit
    ensures Right(WrittenTo(w, id), utf8) && Stays(w, WrittenTo(w, id))
  {
    var w' := WrittenTo(w, id);
    assert OwnRight(w'.uploads[id], FileOf(w', id), utf8) by {
      assert OwnRight(w.uploads[id], FileOf(w, id), utf8);
      PieceWritten(w.uploads[id], w.data[id], bytes, utf8);
      WritingTouches(w, id, bytes);
    }
    WritingTouches(w, id, bytes);
    TouchingKeeps(w, id, w', utf8);
  }

  lemma WritingKeeps(w: World, id: nat, utf8: Utf8)
    requires Right(w, utf8) && AtPart(w, id, Writing) && id in w.data
    requires w.uploads[id].chunk < |w.uploads[id].form.parts[w.uploads[id].at].chunks|
    ensures Right(WrittenTo(w, id), utf8) && Stays(w, WrittenTo(w, id))
  {
    match w.uploads[id].form.parts[w.uploads[id].at].chunks[w.uploads[id].chunk]
    case Stalled => FailingKeeps(w, id, utf8);
    case Bytes(bytes) =>
      if |w.data[id]| + |bytes| > w.uploads[id].form.limit {
        FailingKeeps(w, id, utf8);
      } else {
        PieceKeeps(w, id, bytes, utf8);
      }
  }

  lemma FileRead(upload: Upload, file: seq<Byte>, utf8: Utf8)
    requires upload.phase == Writing && OwnRight(upload, Some(file), utf8)
    requires upload.chunk == |upload.form.parts[upload.at].chunks|
    ensures OwnRight(upload.(phase := Reading, at := upload.at + 1), Some(file), utf8)
  {
    var chunks := upload.form.parts[upload.at].chunks;
    assert chunks[..upload.chunk] == chunks;
    OneMoreTaken(upload.form.parts, upload.at, upload.form.limit, utf8, None, upload.fields);
  }

  lemma SyncingKeeps(w: World, id: nat, utf8: Utf8)
    requires Right(w, utf8) && AtPart(w, id, Writing)
    requires w.uploads[id].chunk == |w.uploads[id].form.parts[w.uploads[id].at].chunks|
    ensures Right(Synced(w, id), utf8) && Stays(w, Synced(w, id))
  {
    assert OwnRight(w.uploads[id], FileOf(w, id), utf8);
    FileRead(w.uploads[id], w.data[id], utf8);
    SyncingTouches(w, id);
    TouchingKeeps(w, id, Synced(w, id), utf8);
  }

  lemma SyncingTouches(w: World, id: nat)
    requires PartialsRight(w) && In(w, id, Writing)
    ensures var w' := Synced(w, id);
            && Touches(w, id, w') && SamePublished(w, id, w') && PartialRight(w', id) && FileOf(w', id) == FileOf(w, id)
            && w'.uploads[id] == w.uploads[id].(phase := Reading, at := w.uploads[id].at + 1)
  {
  }

  /** At the end of a form that did not break off, what was taken is the whole of it. */
  lemma FormEndsKeeps(w: World, id: nat, phase: Phase, utf8: Utf8)
    requires Right(w, utf8) && In(w, id, Reading) && w.uploads[id].at == |w.uploads[id].form.parts|
    requires phase == if w.uploads[id].form.broken || id !in w.data then Failing else Ready
    ensures Right(To(w, id, phase), utf8) && Stays(w, To(w, id, phase))
  {
    var parts := w.uploads[id].form.parts;
    assert parts[..|parts|] == parts;
    ToKeeps(w, id, phase, utf8);
  }

  lemma NewFinal(w: World, id: nat)
    requires FinalsRight(w) && In(w, id, Ready) && Final(w.uploads[id].target) !in w.names
    ensures FinalsRight(LinkedTo(w, id)) && Stays(w, LinkedTo(w, id))
  {
    var w' := LinkedTo(w, id);
    assert forall i :: Published(w', i) <==> i == id || Published(w, i);
    assert forall i :: FileOf(w', i) == FileOf(w, i);
  }

  lemma LinkedFiles(w: World, id: nat, utf8: Utf8)
    requires PartialsRight(w) && FilesRight(w, utf8) && In(w, id, Ready) && Final(w.uploads[id].target) !in w.names
    ensures PartialsRight(LinkedTo(w, id)) && FilesRight(LinkedTo(w, id), utf8)
  {
    var w' := LinkedTo(w, id);
    forall i | i in w'.uploads ensures OwnRight(w'.uploads[i], FileOf(w', i), utf8) {
      assert FileOf(w', i) == FileOf(w, i) && OwnRight(w.uploads[i], FileOf(w, i), utf8);
    }
  }

  lemma LinkingKeeps(w: World, id: nat, utf8: Utf8)
    requires Right(w, utf8) && In(w, id, Ready)
    ensures Right(LinkedTo(w, id), utf8) && Stays(w, LinkedTo(w, id))
  {
    if Final(w.uploads[id].target) in w.names {
      ToKeeps(w, id, Taken, utf8);
    } else {
      NewFinal(w, id);
      LinkedFiles(w, id, utf8);
    }
  }

  lemma FailingKeeps(w: World, id: nat, utf8: Utf8)
    requires Right(w, utf8) && (In(w, id, Reading) || In(w, id, Writing))
    ensures Right(To(w, id, Failing), utf8) && Stays(w, To(w, id, Failing))
  {
    ToKeeps(w, id, Failing, utf8);
  }

  lemma CleaningKeeps(w: World, id: nat, removed: bool, utf8: Utf8)
    requires Right(w, utf8) && In(w, id, Failing)
    ensures Right(Ended(w, id, Refused, removed), utf8) && Stays(w, Ended(w, id, Refused, removed))
  {
    EndingKeeps(w, id, Refused, removed, utf8);
  }

  lemma WholeBehindForm(w: World, id: nat, utf8: Utf8)
    requires FilesRight(w, utf8) && (In(w, id, Ready) || In(w, id, Linked) || In(w, id, Taken) || In(w, id, Kept))
    ensures Whole(w.uploads[id], FileOf(w, id), utf8)
  {
    assert OwnRight(w.uploads[id], FileOf(w, id), utf8);
  }

  lemma LinkFailsKeeps(w: World, id: nat, utf8: Utf8)
    requires Right(w, utf8) && In(w, id, Ready)
    ensures Right(To(w, id, Taken), utf8) && Stays(w, To(w, id, Taken))
  {
    WholeBehindForm(w, id, utf8);
    ToKeeps(w, id, Taken, utf8);
  }

  lemma UnlinkKeeps(w: World, w': World, id: nat, removed: bool, utf8: Utf8)
    requires Right(w, utf8) && Next(w, Unlink(id, removed), w', utf8)
    ensures Right(w', utf8) && Stays(w, w')
  {
    WholeBehindForm(w, id, utf8);
    EndingKeeps(w, id, if In(w, id, Linked) then Kept else KeepRefused, removed, utf8);
  }

  lemma DiscardKeeps(w: World, id: nat, removed: bool, utf8: Utf8)
    requires Right(w, utf8) && In(w, id, Ready)
    ensures Right(Ended(w, id, Discarded, removed), utf8) && Stays(w, Ended(w, id, Discarded, removed))
  {
    WholeBehindForm(w, id, utf8);
    EndingKeeps(w, id, Discarded, removed, utf8);
  }

  ghost predicate Publishes(step: Step) {
    step.CleanUp? || step.Link? || step.LinkFails? || step.Unlink? || step.Discard?
  }

  lemma ReceivingKeeps(w: World, step: Step, w': World, utf8: Utf8)
    requires Right(w, utf8) && Next(w, step, w', utf8) && !Publishes(step)
    ensures Right(w', utf8) && Stays(w, w')
  {
    match step
    case Start(id, target, form) => StartKeeps(w, id, target, form, utf8);
    case Field(id) => FieldKeeps(w, id, utf8);
    case Open(id) => OpeningKeeps(w, id, utf8);
    case Write(id) => WritingKeeps(w, id, utf8);
    case Sync(id) => SyncingKeeps(w, id, utf8);
    case FormEnds(id) => FormEndsKeeps(w, id, w'.uploads[id].phase, utf8);
    case Fail(id) => FailingKeeps(w, id, utf8);
  }

  lemma PublishingKeeps(w: World, step: Step, w': World, utf8: Utf8)
    requires Right(w, utf8) && Next(w, step, w', utf8) && Publishes(step)
    ensures Right(w', utf8) && Stays(w, w')
  {
    if step.CleanUp? {
      CleaningKeeps(w, step.id, step.removed, utf8);
    } else if step.Link? {
      LinkingKeeps(w, step.id, utf8);
    } else if step.LinkFails? {
      LinkFailsKeeps(w, step.id, utf8);
    } else if step.Unlink? {
      UnlinkKeeps(w, w', step.id, step.removed, utf8);
    } else {
      DiscardKeeps(w, step.id, step.removed, utf8);
    }
  }

  lemma StepKeeps(w: World, step: Step, w': World, utf8: Utf8)
    requires Right(w, utf8) && Next(w, step, w', utf8)
    ensures Right(w', utf8) && Stays(w, w')
  {
    if Publishes(step) {
      PublishingKeeps(w, step, w', utf8);
    } else {
      ReceivingKeeps(w, step, w', utf8);
    }
  }

  lemma {:induction false} RunKeepsFiles(run: seq<World>, utf8: Utf8)
    requires Run(run, utf8)
    ensures Right(run[|run| - 1], utf8)
  {
    var n := |run| - 1;
    if n > 0 {
      RunKeepsFiles(run[..n], utf8);
      assert Follows(run[n - 1], run[n], utf8);
      var step :| Next(run[n - 1], step, run[n], utf8);
      StepKeeps(run[n - 1], step, run[n], utf8);
    }
  }

  ghost predicate AllStay(run: seq<World>) {
    forall j | 0 < j < |run| :: Stays(run[j - 1], run[j])
  }

  lemma RunStays(run: seq<World>, utf8: Utf8)
    requires Run(run, utf8)
    ensures AllStay(run)
  {
    forall j | 0 < j < |run|
      ensures Stays(run[j - 1], run[j])
    {
      RunKeepsFiles(run[..j], utf8);
      assert Follows(run[j - 1], run[j], utf8);
      var step :| Next(run[j - 1], step, run[j], utf8);
      StepKeeps(run[j - 1], step, run[j], utf8);
    }
  }

  /** Upload `id` is published still, at its place and with its form. */
  ghost predicate SameUpload(w: World, w': World, id: nat) {
    && Published(w, id) && Published(w', id)
    && w'.uploads[id].form == w.uploads[id].form && w'.uploads[id].target == w.uploads[id].target
  }

  lemma StaysSame(first: World, w: World, w': World, id: nat)
    requires SameUpload(first, w, id) && Stays(w, w')
    ensures SameUpload(first, w', id)
  {
  }

  lemma {:induction false} PublishedStays(run: seq<World>, i: nat, j: nat, id: nat)
    requires AllStay(run) && i <= j < |run| && Published(run[i], id)
    ensures SameUpload(run[i], run[j], id)
  {
    if i < j {
      PublishedStays(run, i, j - 1, id);
      StaysSame(run[i], run[j - 1], run[j], id);
    }
  }

  lemma PublishedIsWhole(w: World, id: nat, utf8: Utf8)
    requires Right(w, utf8) && Published(w, id)
    ensures Whole(w.uploads[id], FileOf(w, id), utf8)
    ensures Final(w.uploads[id].target) in w.names && w.names[Final(w.uploads[id].target)] == id
  {
    WholeBehindForm(w, id, utf8);
  }

  lemma NamesPublished(run: seq<World>, i: nat, target: string, utf8: Utf8)
    requires Run(run, utf8) && i < |run| && Final(target) in run[i].names
    ensures Published(run[i], run[i].names[Final(target)])
    ensures run[i].uploads[run[i].names[Final(target)]].target == target
  {
    RunKeepsFiles(run[..i + 1], utf8);
  }

  /**
   Publishing is write-once, and what is published is whole. A place that is published at all is
   published by one upload for it, and from then on names that upload's file; its form was one that
   `Receive` takes, and the file holds exactly the bytes it answers, the whole of the one file part.
   */
  lemma WriteOnce(run: seq<World>, i: nat, j: nat, target: string, utf8: Utf8)
    requires Run(run, utf8) && i <= j < |run| && Final(target) in run[i].names
    ensures var id := run[i].names[Final(target)];
            && SameUpload(run[i], run[j], id) && run[j].uploads[id].target == target
            && Final(target) in run[j].names && run[j].names[Final(target)] == id
            && Whole(run[j].uploads[id], FileOf(run[j], id), utf8)
  {
    var id := run[i].names[Final(target)];
    NamesPublished(run, i, target, utf8);
    RunKeepsFiles(run[..j + 1], utf8);
    RunStays(run, utf8);
    PublishedStays(run, i, j, id);
    PublishedIsWhole(run[j], id, utf8);
  }

  /** Linking at a free place publishes the whole file there, and at a place that is taken it changes nothing there. */
  lemma LinkPublishes(w: World, id: nat, w': World, utf8: Utf8)
    requires Right(w, utf8) && Next(w, Link(id), w', utf8)
    ensures var path := Final(w.uploads[id].target);
            && path in w'.names
            && (path !in w.names ==>
                  w'.names[path] == id && Published(w', id) && Whole(w'.uploads[id], FileOf(w', id), utf8))
            && (path in w.names ==> w'.names[path] == w.names[path] && !Published(w', id))
  {
    WholeBehindForm(w, id, utf8);
    StepKeeps(w, Link(id), w', utf8);
    if Published(w', id) {
      PublishedIsWhole(w', id, utf8);
    }
  }

  /** What the upload is told agrees: it is kept exactly if it was published. */
  lemma KeptIfPublished(w: World, id: nat, removed: bool, w': World, utf8: Utf8)
    requires Next(w, Unlink(id, removed), w', utf8)
    ensures In(w', id, Kept) || In(w', id, KeepRefused)
    ensures In(w', id, Kept) <==> Published(w, id)
    ensures w'.data == w.data && forall target | Final(target) in w.names ::
              Final(target) in w'.names && w'.names[Final(target)] == w.names[Final(target)]
  {
  }

  /** Whenever two uploads for one place were both published, they are the same one. */
  lemma OnlyOneKept(run: seq<World>, i: nat, j: nat, a: nat, b: nat, utf8: Utf8)
    requires Run(run, utf8) && i <= j < |run|
    requires Published(run[i], a) && Published(run[j], b) && run[i].uploads[a].target == run[j].uploads[b].target
    ensures a == b
  {
    RunKeepsFiles(run[..j + 1], utf8);
    RunStays(run, utf8);
    PublishedStays(run, i, j, a);
    PublishedIsWhole(run[j], a, utf8);
    PublishedIsWhole(run[j], b, utf8);
  }

  /** An upload that is over has left its hidden file exactly when there was one that could not be removed. */
  lemma HiddenFileLeft(run: seq<World>, id: nat, utf8: Utf8)
    requires Run(run, utf8)
    requires id in run[|run| - 1].uploads && Over(run[|run| - 1].uploads[id].phase)
    ensures Partial(id) in run[|run| - 1].names <==> id in run[|run| - 1].data && run[|run| - 1].uploads[id].stuck
  {
    RunKeepsFiles(run, utf8);
  }

  ghost predicate Removes(step: Step) {
    step.CleanUp? || step.Unlink? || step.Discard? ==> step.removed
  }

  ghost predicate FollowsRemoving(w: World, w': World, utf8: Utf8) {
    exists step :: Next(w, step, w', utf8) && Removes(step)
  }

  ghost predicate NothingStuck(w: World) {
    forall id | id in w.uploads :: !w.uploads[id].stuck
  }

  lemma RemovingSticksNothing(w: World, step: Step, w': World, utf8: Utf8)
    requires NothingStuck(w) && Next(w, step, w', utf8) && Removes(step)
    ensures NothingStuck(w')
  {
    forall id | id in w'.uploads ensures !w'.uploads[id].stuck {
      StuckOnlyIfNotRemoved(w, step, w', id, utf8);
    }
  }

  lemma StuckOnlyIfNotRemoved(w: World, step: Step, w': World, id: nat, utf8: Utf8)
    requires Next(w, step, w', utf8) && Removes(step) && id in w'.uploads
    ensures w'.uploads[id].stuck ==> id in w.uploads && w.uploads[id].stuck
  {
  }

  lemma {:induction false} NothingSticks(run: seq<World>, i: nat, utf8: Utf8)
    requires Run(run, utf8) && i < |run| && forall j | 0 < j < |run| :: FollowsRemoving(run[j - 1], run[j], utf8)
    ensures NothingStuck(run[i])
  {
    if i > 0 {
      NothingSticks(run, i - 1, utf8);
      assert FollowsRemoving(run[i - 1], run[i], utf8);
      var step :| Next(run[i - 1], step, run[i], utf8) && Removes(step);
      RemovingSticksNothing(run[i - 1], step, run[i], utf8);
    }
  }

  /** Where every removal works, no upload that is over has a hidden file. */
  lemma NoHiddenFileIfRemovalsWork(run: seq<World>, id: nat, utf8: Utf8)
    requires Run(run, utf8) && forall j | 0 < j < |run| :: FollowsRemoving(run[j - 1], run[j], utf8)
    requires id in run[|run| - 1].uploads && Over(run[|run| - 1].uploads[id].phase)
    ensures Partial(id) !in run[|run| - 1].names
  {
    NothingSticks(run, |run| - 1, utf8);
    HiddenFileLeft(run, id, utf8);
  }

  // ----- A form that is taken gets through -----

  ghost predicate IsTaken(form: Form, utf8: Utf8) {
    FormFits(form.parts, form.broken, form.limit, form.room, utf8)
  }

  lemma OneFileOnly(form: Form, at: nat, data: Option<seq<Byte>>, fields: seq<(string, seq<Byte>)>, utf8: Utf8)
    requires IsTaken(form, utf8) && at < |form.parts| && IsFile(form.parts[at])
    requires TakenSoFar(form.parts[..at], form.limit, utf8, data, fields)
    ensures data.None?
  {
    OneMorePart(form.parts, at);
  }

  lemma PieceIsTaken(form: Form, at: nat, chunk: nat, utf8: Utf8)
    requires IsTaken(form, utf8) && at < |form.parts| && IsFile(form.parts[at]) && chunk < |form.parts[at].chunks|
    ensures var chunks := form.parts[at].chunks;
            chunks[chunk].Bytes? && |Content(chunks[..chunk])| + |chunks[chunk].bytes| <= form.limit
  {
    var chunks := form.parts[at].chunks;
    assert form.parts[at] in form.parts && chunks[chunk] in chunks;
    ContentGrows(chunks, chunk + 1);
    assert chunks[..chunk + 1][..chunk] == chunks[..chunk];
  }

  lemma FieldGoesOn(w: World, w': World, id: nat, utf8: Utf8)
    requires Next(w, Field(id), w', utf8) && IsTaken(w.uploads[id].form, utf8)
    ensures In(w', id, Reading)
  {
    assert w.uploads[id].form.parts[w.uploads[id].at] in w.uploads[id].form.parts;
  }

  lemma OpenGoesOn(w: World, w': World, id: nat, utf8: Utf8)
    requires Next(w, Open(id), w', utf8) && IsTaken(w.uploads[id].form, utf8)
    requires InForm(w.uploads[id], FileOf(w, id), utf8)
    ensures In(w', id, Writing)
  {
    OneFileOnly(w.uploads[id].form, w.uploads[id].at, FileOf(w, id), w.uploads[id].fields, utf8);
  }

  lemma WriteGoesOn(w: World, w': World, id: nat, utf8: Utf8)
    requires Next(w, Write(id), w', utf8) && IsTaken(w.uploads[id].form, utf8) && InFile(w.uploads[id], w.data[id])
    ensures In(w', id, Writing)
  {
    PieceIsTaken(w.uploads[id].form, w.uploads[id].at, w.uploads[id].chunk, utf8);
  }

  lemma FormEndGoesOn(w: World, w': World, id: nat, utf8: Utf8)
    requires Next(w, FormEnds(id), w', utf8) && IsTaken(w.uploads[id].form, utf8)
    requires InForm(w.uploads[id], FileOf(w, id), utf8)
    ensures In(w', id, Ready)
  {
    var parts := w.uploads[id].form.parts;
    assert parts[..|parts|] == parts;
  }

  lemma OthersLeaveThePhase(w: World, step: Step, w': World, id: nat, utf8: Utf8)
    requires Next(w, step, w', utf8) && step.id != id && id in w.uploads
    ensures id in w'.uploads && w'.uploads[id].phase == w.uploads[id].phase
  {
  }

  lemma ReadingSteps(w: World, step: Step, w': World, utf8: Utf8)
    requires Next(w, step, w', utf8) && (In(w, step.id, Reading) || In(w, step.id, Writing))
    ensures step.Field? || step.Open? || step.Write? || step.Sync? || step.FormEnds? || step.Fail?
    ensures step.Sync? ==> In(w', step.id, Reading)
  {
  }

  lemma OwnStepGoesOn(w: World, step: Step, w': World, utf8: Utf8)
    requires FilesRight(w, utf8) && Next(w, step, w', utf8)
    requires step.Field? || step.Open? || step.Write? || step.FormEnds?
    requires IsTaken(w.uploads[step.id].form, utf8)
    ensures step.id in w'.uploads && w'.uploads[step.id].phase != Failing
  {
    var id := step.id;
    assert OwnRight(w.uploads[id], FileOf(w, id), utf8);
    match step
    case Field(_) => FieldGoesOn(w, w', id, utf8);
    case Open(_) => OpenGoesOn(w, w', id, utf8);
    case Write(_) => WriteGoesOn(w, w', id, utf8);
    case FormEnds(_) => FormEndGoesOn(w, w', id, utf8);
  }

  /** A form that is taken gets through: only an error of the machine makes its upload fail. */
  lemma OnlyErrorsRefuse(w: World, step: Step, w': World, id: nat, utf8: Utf8)
    requires Right(w, utf8) && Next(w, step, w', utf8)
    requires (In(w, id, Reading) || In(w, id, Writing)) && In(w', id, Failing) && IsTaken(w.uploads[id].form, utf8)
    ensures step == Fail(id)
  {
    if step.id != id {
      OthersLeaveThePhase(w, step, w', id, utf8);
    } else {
      ReadingSteps(w, step, w', utf8);
      if step.Field? || step.Open? || step.Write? || step.FormEnds? {
        OwnStepGoesOn(w, step, w', utf8);
      }
    }
  }
}
