/**
  WebP versions of stored images (internal/service/storage.go GetAsWebP, ProcessAsync):
  converted on demand, kept beside the original in the engine that holds it, and
  served from there afterwards.
*/
module WebPCache {
  import opened Engines
  import opened Wrappers
  import opened Text
  import LikePattern

  datatype Meta = Meta(blurhash: string, width: int, height: int)

  datatype FileRecord = FileRecord(filename: string, contentType: string, backend: Backend, meta: Option<Meta>)

  /** The WebP encoder and the image inspector, each of which may give up on its input. */
  datatype Codec = Codec(convert: Bytes -> Option<Bytes>, inspect: Bytes -> Option<Meta>)

  type Key = (Backend, Id)

  /**
    used holds every id an upload was ever given; ids are random and do not come back.
    left remembers, for files on record, the bytes of a WebP file that was begun and could
    be neither finished nor removed.
  */
  datatype State = State(
    deployment: Deployment,
    records: map<Id, FileRecord>,
    blobs: map<Key, Bytes>,
    webps: map<Key, Bytes>,
    used: set<Id>,
    left: map<Id, Bytes>)

  function Start(d: Deployment): State {
    State(d, map[], map[], map[], {}, map[])
  }

  predicate IsImageMime(contentType: string) {
    var ct := ToLower(TrimSpace(contentType));
    ct == "image/png" || ct == "image/jpeg" || ct == "image/jpg" || ct == "image/gif" || ct == "image/webp"
  }

  predicate IsWebP(contentType: string) {
    LikePattern.Contains(ToLower(contentType), "webp")
  }

  /** filepath.Ext: from the last dot of the last path element on. */
  function Ext(path: string): (e: string)
    ensures |e| <= |path| && path[|path| - |e|..] == e
  {
    if path == [] || path[|path| - 1] == '/' then []
    else if path[|path| - 1] == '.' then "."
    else
      var n := |path| - 1;
      var e := Ext(path[..n]);
      if e == [] then [] else e + [path[n]]
  }

  function WebPName(filename: string): string {
    filename[..|filename| - |Ext(filename)|] + ".webp"
  }

  /** The extension of the last path element begins at n: at its last dot, or at the end if it has none. */
  predicate ExtensionAt(path: string, n: nat) {
    && n <= |path|
    && (n < |path| ==> path[n] == '.')
    && (forall i | n < i < |path| :: path[i] != '.' && path[i] != '/')
    && (n == |path| ==> forall i | 0 <= i < |path| && path[i] == '.' :: '/' in path[i..])
  }

  /** Whatever comes before the extension, and ".webp". */
  predicate Renamed(before: string, after: string) {
    && |after| >= 5
    && ExtensionAt(before, |after| - 5)
    && after == before[..|after| - 5] + ".webp"
  }

  lemma NoExtensionGrows(path: string, c: char)
    requires ExtensionAt(path, |path|) && c != '.'
    ensures ExtensionAt(path + [c], |path| + 1)
  {
    var longer := path + [c];
    forall i | 0 <= i < |longer| && longer[i] == '.'
      ensures '/' in longer[i..]
    {
      assert path[i] == '.' && longer[i..] == path[i..] + [c];
    }
  }

  lemma ExtensionGrows(path: string, c: char, n: nat)
    requires ExtensionAt(path, n) && n < |path| && c != '.' && c != '/'
    ensures ExtensionAt(path + [c], n)
  {
    var longer := path + [c];
    assert forall i | 0 <= i < |path| :: longer[i] == path[i];
  }

  lemma {:induction false} ExtIsExtension(path: string)
    ensures ExtensionAt(path, |path| - |Ext(path)|)
    decreases |path|
  {
    if path != [] && path[|path| - 1] != '/' && path[|path| - 1] != '.' {
      var init, c := path[..|path| - 1], path[|path| - 1];
      assert path == init + [c];
      ExtIsExtension(init);
      if Ext(init) == [] {
        NoExtensionGrows(init, c);
      } else {
        ExtensionGrows(init, c, |init| - |Ext(init)|);
      }
    }
  }

  lemma WebPNameRenames(filename: string)
    ensures Renamed(filename, WebPName(filename))
  {
    ExtIsExtension(filename);
  }

  function AsWebP(record: FileRecord): FileRecord {
    record.(contentType := "image/webp", filename := WebPName(record.filename))
  }

  function Home(s: State, id: Id): Key
    requires id in s.records
  {
    (ResolveEngine(s.deployment, s.records[id].backend), id)
  }

  datatype Error = NotFound | UnsupportedFormat | FileMissing | ConversionFailed | Failure

  datatype WebPFile = WebPFile(record: FileRecord, bytes: Bytes)

  /** What a server without the cache answers. */
  function Answer(c: Codec, s: State, id: Id): Result<WebPFile, Error> {
    if id !in s.records then Err(NotFound)
    else
      var record := s.records[id];
      if !IsImageMime(record.contentType) then Err(UnsupportedFormat)
      else if Home(s, id) !in s.blobs then Err(FileMissing)
      else if IsWebP(record.contentType) then Ok(WebPFile(record, s.blobs[Home(s, id)]))
      else
        match c.convert(s.blobs[Home(s, id)])
        case None => Err(ConversionFailed)
        case Some(w) => Ok(WebPFile(AsWebP(record), w))
  }

  // ------------------------------------------------------------ the operations

  /** Writing the WebP file: done, never begun, begun and removed again, or begun and left with some bytes. */
  datatype SaveOutcome = Done | NotBegun | Undone | Partial(bytes: Bytes)

  datatype ReadFaults = ReadFaults(lookup: bool, openWebP: bool, open: bool, read: bool, save: SaveOutcome)

  const NO_FAULTS := ReadFaults(false, false, false, false, Done)

  datatype UploadFaults = UploadFaults(save: bool, leftBehind: bool, create: bool, remove: bool)

  datatype DeleteFaults = DeleteFaults(lookup: bool, row: bool, webp: bool, blob: bool)

  function WithWebP(webps: map<Key, Bytes>, k: Key, w: Bytes, outcome: SaveOutcome): map<Key, Bytes> {
    match outcome
    case Done => webps[k := w]
    case NotBegun => webps
    case Undone => webps - {k}
    case Partial(bytes) => webps[k := bytes]
  }

  function WithLeft(left: map<Id, Bytes>, id: Id, outcome: SaveOutcome): map<Id, Bytes> {
    match outcome
    case Done => left - {id}
    case NotBegun => left
    case Undone => left - {id}
    case Partial(bytes) => left[id := bytes]
  }

  /** What the server with the cache answers: a WebP file it finds is served without a look at the original. */
  function Reply(c: Codec, s: State, id: Id, f: ReadFaults): Result<WebPFile, Error> {
    if f.lookup then Err(Failure)
    else if id !in s.records then Err(NotFound)
    else
      var record, k := s.records[id], Home(s, id);
      if !IsImageMime(record.contentType) then Err(UnsupportedFormat)
      else if k in s.webps && !f.openWebP then Ok(WebPFile(AsWebP(record), s.webps[k]))
      else if f.open then Err(Failure)
      else if k !in s.blobs then Err(FileMissing)
      else if f.read then Err(Failure)
      else if IsWebP(record.contentType) then Ok(WebPFile(record, s.blobs[k]))
      else
        match c.convert(s.blobs[k])
        case None => Err(ConversionFailed)
        case Some(w) => Ok(WebPFile(AsWebP(record), w))
  }

  const IMAGE_TYPES := ["image/png", "image/jpeg", "image/jpg", "image/gif", "image/webp"]

  /** An original that is WebP already comes back as it is; any other comes back renamed and under the type of WebP. */
  predicate Labelled(original: FileRecord, answered: FileRecord) {
    if LikePattern.Contains(ToLower(original.contentType), "webp") then answered == original
    else
      && answered.contentType == "image/webp"
      && Renamed(original.filename, answered.filename)
      && answered.backend == original.backend
      && answered.meta == original.meta
  }

  /**
    The outcome of GetAsWebP, case by case: each refusal exactly when its reason is there,
    and otherwise the original of a WebP image, or the conversion of another.
  */
  predicate ReadOutcome(c: Codec, s: State, id: Id, f: ReadFaults, r: Result<WebPFile, Error>) {
    && (f.lookup ==> r == Err(Failure))
    && (r == Err(NotFound) <==> !f.lookup && id !in s.records)
    && (!f.lookup && id in s.records ==>
          var record := s.records[id];
          var k := (ResolveEngine(s.deployment, record.backend), id);
          var image := ToLower(TrimSpace(record.contentType)) in IMAGE_TYPES;
          var webp := LikePattern.Contains(ToLower(record.contentType), "webp");
          var cached := k in s.webps && !f.openWebP;
          && (r == Err(UnsupportedFormat) <==> !image)
          && (r == Err(FileMissing) <==> image && !f.open && k !in s.blobs)
          && (r == Err(Failure) <==> image && !cached && (f.open || (f.read && k in s.blobs)))
          && (r == Err(ConversionFailed) <==>
                image && !f.open && !f.read && k in s.blobs && !webp && c.convert(s.blobs[k]).None?)
          && (r.Ok? ==>
                && Labelled(record, r.value.record)
                && k in s.blobs
                && (webp ==> r.value.bytes == s.blobs[k])
                && (!webp && (id !in s.left || !cached) ==> c.convert(s.blobs[k]) == Some(r.value.bytes))
                && (!webp && id in s.left && cached ==> r.value.bytes == s.left[id])))
  }

  lemma ReplyOutcome(c: Codec, s: State, id: Id, f: ReadFaults)
    requires Inv(c, s)
    ensures ReadOutcome(c, s, id, f, Reply(c, s, id, f))
  {
    if id in s.records {
      WebPNameRenames(s.records[id].filename);
      assert Home(s, id) in s.webps ==> Derived(c, s, Home(s, id));
    }
  }

  predicate OthersKept(before: map<Key, Bytes>, after: map<Key, Bytes>, id: Id) {
    && (forall k | k in before && k.1 != id :: k in after && after[k] == before[k])
    && (forall k | k in after && k.1 != id :: k in before)
  }

  /** The conversion a GetAsWebP goes on to save, if it comes to one. */
  function ToSave(c: Codec, s: State, id: Id, f: ReadFaults): Option<Bytes> {
    if f.lookup || id !in s.records || !IsImageMime(s.records[id].contentType) then None
    else if Home(s, id) in s.webps && !f.openWebP then None
    else if f.open || f.read || Home(s, id) !in s.blobs || IsWebP(s.records[id].contentType) then None
    else c.convert(s.blobs[Home(s, id)])
  }

  function AfterRead(c: Codec, s: State, id: Id, f: ReadFaults): (s': State)
    ensures s' == s.(webps := s'.webps, left := s'.left)
  {
    match ToSave(c, s, id, f)
    case None => s
    case Some(w) => s.(webps := WithWebP(s.webps, Home(s, id), w, f.save), left := WithLeft(s.left, id, f.save))
  }

  lemma ReadEffect(c: Codec, s: State, id: Id, f: ReadFaults)
    ensures OthersKept(s.webps, AfterRead(c, s, id, f).webps, id)
    ensures Reply(c, s, id, f).Ok? && f.save.Done? && !IsWebP(s.records[id].contentType) ==>
              (ResolveEngine(s.deployment, s.records[id].backend), id) in AfterRead(c, s, id, f).webps
  {}

  function Inspected(c: Codec, s: State, id: Id, updateFails: bool): map<Id, FileRecord>
    requires id in s.records
  {
    var record := s.records[id];
    if updateFails || !IsImageMime(record.contentType) || record.meta.Some? || Home(s, id) !in s.blobs
       || c.inspect(s.blobs[Home(s, id)]).None?
    then s.records
    else s.records[id := record.(meta := c.inspect(s.blobs[Home(s, id)]))]
  }

  /** Of all records only this one's missing image data changes: to what the inspector makes of the stored image. */
  predicate MetaFilled(c: Codec, s: State, id: Id, updateFails: bool, records: map<Id, FileRecord>)
    requires id in s.records
  {
    var was, k := s.records[id], (ResolveEngine(s.deployment, s.records[id].backend), id);
    && id in records
    && records == s.records[id := was.(meta := records[id].meta)]
    && (was.meta.Some? || updateFails ==> records[id].meta == was.meta)
    && (was.meta.None? && !updateFails ==>
          records[id].meta ==
            if ToLower(TrimSpace(was.contentType)) in IMAGE_TYPES && k in s.blobs then c.inspect(s.blobs[k]) else None)
  }

  datatype Op =
    | Upload(id: Id, filename: string, contentType: string, content: Bytes, upload: UploadFaults)
    | Delete(id: Id, delete: DeleteFaults)
    | GetAsWebP(id: Id, read: ReadFaults)
    | ProcessAsync(id: Id, generateWebP: bool, updateFails: bool, read: ReadFaults)
    | Redeploy(d: Deployment)

  function AfterUpload(c: Codec, s: State, id: Id, record: FileRecord, content: Bytes, f: UploadFaults): State {
    var k := (MainEngine(s.deployment), id);
    var s' := s.(used := s.used + {id});
    if f.save then (if f.leftBehind then s'.(blobs := s.blobs[k := content]) else s')
    else if f.create then
      (if f.remove then s'.(blobs := s.blobs[k := content])
       else s'.(blobs := s.blobs - {k}, webps := s.webps - {k}))
    else s'.(blobs := s.blobs[k := content], records := s.records[id := record])
  }

  function NewRecord(c: Codec, s: State, filename: string, contentType: string, content: Bytes): FileRecord {
    FileRecord(filename, contentType, MainEngine(s.deployment),
               if IsImageMime(contentType) then c.inspect(content) else None)
  }

  function AfterDelete(s: State, id: Id, f: DeleteFaults): State {
    if f.row || id !in s.records then s
    else
      var k := if f.lookup then (MainEngine(s.deployment), id) else Home(s, id);
      s.(records := s.records - {id},
         left := s.left - {id},
         webps := if f.webp then s.webps else s.webps - {k},
         blobs := if f.blob then s.blobs else s.blobs - {k})
  }

  function Next(c: Codec, s: State, op: Op): State {
    match op
    case Upload(id, filename, contentType, content, f) =>
      AfterUpload(c, s, id, NewRecord(c, s, filename, contentType, content), content, f)
    case Delete(id, f) => AfterDelete(s, id, f)
    case GetAsWebP(id, f) => AfterRead(c, s, id, f)
    case ProcessAsync(id, generateWebP, updateFails, f) =>
      if f.lookup || id !in s.records then s
      else
        var s' := s.(records := Inspected(c, s, id, updateFails));
        if generateWebP then AfterRead(c, s', id, f) else s'
    case Redeploy(d) => s.(deployment := d)
  }

  predicate Enabled(s: State, op: Op) {
    op.Upload? ==> op.id !in s.used
  }

  class StorageService {
    const codec: Codec
    var deployment: Deployment
    var records: map<Id, FileRecord>
    var blobs: map<Key, Bytes>
    var webps: map<Key, Bytes>
    ghost var used: set<Id>
    ghost var left: map<Id, Bytes>

    constructor (codec: Codec, d: Deployment)
      ensures this.codec == codec && Now() == Start(d)
    {
      this.codec := codec;
      deployment := d;
      records, blobs, webps := map[], map[], map[];
      used, left := {}, map[];
    }

    ghost function Now(): State
      reads this
    {
      State(deployment, records, blobs, webps, used, left)
    }

    /**
      Whatever fails, an answer is the answer of a server without the cache, exactly
      unless bytes left by an unfinished save are served in its place.
    */
    method GetAsWebP(id: Id, f: ReadFaults) returns (r: Result<WebPFile, Error>)
      requires Inv(codec, Now())
      modifies this`webps, this`left
      ensures Now() == Next(codec, old(Now()), Op.GetAsWebP(id, f)) && Inv(codec, Now())
      ensures r == Reply(codec, old(Now()), id, f)
      ensures ReadOutcome(codec, old(Now()), id, f, r)
      ensures r.Ok? && f.save.Done? && !LikePattern.Contains(ToLower(records[id].contentType), "webp") ==>
                (ResolveEngine(deployment, records[id].backend), id) in webps
      ensures OthersKept(old(webps), webps, id)
      ensures Whole(codec, old(Now()), id) && (r.Ok? || f == NO_FAULTS) ==> r == Answer(codec, old(Now()), id)
      ensures f == NO_FAULTS ==> (r == Answer(codec, old(Now()), id) <==> Whole(codec, old(Now()), id))
    {
      ghost var before := Now();
      ReadKeepsInv(codec, before, id, f);
      ReplyIsAnswer(codec, before, id, f);
      ReplyOutcome(codec, before, id, f);
      ReadEffect(codec, before, id, f);
      r := ReadOrConvert(id, f);
    }

    method ReadOrConvert(id: Id, f: ReadFaults) returns (r: Result<WebPFile, Error>)
      modifies this`webps, this`left
      ensures Now() == Next(codec, old(Now()), Op.GetAsWebP(id, f))
      ensures r == Reply(codec, old(Now()), id, f)
    {
      if f.lookup {
        return Err(Failure);
      }
      if id !in records {
        return Err(NotFound);
      }
      var record := records[id];
      if !IsImageMime(record.contentType) {
        return Err(UnsupportedFormat);
      }
      var k := (ResolveEngine(deployment, record.backend), id);
      if k in webps && !f.openWebP {
        return Ok(WebPFile(AsWebP(record), webps[k]));
      }
      if f.open {
        return Err(Failure);
      }
      if k !in blobs {
        return Err(FileMissing);
      }
      if f.read {
        return Err(Failure);
      }
      if IsWebP(record.contentType) {
        return Ok(WebPFile(record, blobs[k]));
      }
      var w := codec.convert(blobs[k]);
      if w.None? {
        return Err(ConversionFailed);
      }
      webps := WithWebP(webps, k, w.value, f.save);
      left := WithLeft(left, id, f.save);
      return Ok(WebPFile(AsWebP(record), w.value));
    }

    method Upload(id: Id, filename: string, contentType: string, content: Bytes, f: UploadFaults) returns (ok: bool)
      requires Inv(codec, Now()) && id !in used
      modifies this
      ensures Now() == Next(codec, old(Now()), Op.Upload(id, filename, contentType, content, f)) && Inv(codec, Now())
      ensures ok <==> id in records
      ensures ok <==> !f.save && !f.create
      ensures ok ==> && records[id].filename == filename && records[id].contentType == contentType
                     && (MainEngine(deployment), id) in blobs && blobs[(MainEngine(deployment), id)] == content
      ensures deployment == old(deployment) && records - {id} == old(records)
      ensures OthersKept(old(blobs), blobs, id)
    {
      UploadKeepsInv(codec, Now(), Op.Upload(id, filename, contentType, content, f));
      ok := StoreUpload(id, filename, contentType, content, f);
    }

    method StoreUpload(id: Id, filename: string, contentType: string, content: Bytes, f: UploadFaults)
      returns (ok: bool)
      requires id !in records
      modifies this
      ensures Now() == Next(codec, old(Now()), Op.Upload(id, filename, contentType, content, f))
      ensures ok <==> id in records
      ensures ok <==> !f.save && !f.create
    {
      var k := (MainEngine(deployment), id);
      used := used + {id};
      if f.save {
        if f.leftBehind {
          blobs := blobs[k := content];
        }
        return false;
      }
      blobs := blobs[k := content];
      var meta: Option<Meta> := None;
      if IsImageMime(contentType) {
        meta := codec.inspect(content);
      }
      var record := FileRecord(filename, contentType, MainEngine(deployment), meta);
      assert record == NewRecord(codec, old(Now()), filename, contentType, content);
      if f.create {
        if !f.remove {
          assert blobs - {k} == old(blobs) - {k};
          blobs, webps := blobs - {k}, webps - {k};
        }
        return false;
      }
      records := records[id := record];
      return true;
    }

    method Delete(id: Id, f: DeleteFaults) returns (ok: bool)
      requires Inv(codec, Now())
      modifies this`records, this`webps, this`blobs, this`left
      ensures Now() == Next(codec, old(Now()), Op.Delete(id, f)) && Inv(codec, Now())
      ensures ok <==> id in old(records) && !f.row && !f.blob
      ensures records == if f.row then old(records) else old(records) - {id}
      ensures f.row ==> blobs == old(blobs) && webps == old(webps)
      ensures !f.row && id in old(records) ==>
                var engine := if f.lookup then MainEngine(deployment)
                              else ResolveEngine(deployment, old(records)[id].backend);
                && blobs == (if f.blob then old(blobs) else old(blobs) - {(engine, id)})
                && webps == (if f.webp then old(webps) else old(webps) - {(engine, id)})
    {
      DeleteKeepsInv(codec, Now(), id, f);
      var target := MainEngine(deployment);
      if !f.lookup && id in records {
        target := ResolveEngine(deployment, records[id].backend);
      }
      if f.row || id !in records {
        return false;
      }
      records := records - {id};
      left := left - {id};
      if !f.webp {
        webps := webps - {(target, id)};
      }
      if f.blob {
        return false;
      }
      blobs := blobs - {(target, id)};
      return true;
    }

    method ProcessAsync(id: Id, generateWebP: bool, updateFails: bool, f: ReadFaults) returns (ok: bool)
      requires Inv(codec, Now())
      modifies this`records, this`webps, this`left
      ensures Now() == Next(codec, old(Now()), Op.ProcessAsync(id, generateWebP, updateFails, f)) && Inv(codec, Now())
      ensures ok <==> !f.lookup && id in old(records)
      ensures !ok ==> records == old(records)
      ensures ok ==> MetaFilled(codec, old(Now()), id, updateFails, records)
    {
      if f.lookup || id !in records {
        return false;
      }
      ghost var before := Now();
      InspectionKeepsInv(codec, before, id, updateFails);
      var image := IsImageMime(records[id].contentType);
      Inspect(id, updateFails);
      if generateWebP && image {
        var _ := GetAsWebP(id, f);
      }
      return true;
    }

    method Inspect(id: Id, updateFails: bool)
      requires id in records
      modifies this`records
      ensures records == Inspected(codec, old(Now()), id, updateFails)
      ensures MetaFilled(codec, old(Now()), id, updateFails, records)
    {
      var record := records[id];
      if IsImageMime(record.contentType) && record.meta.None? {
        var k := (ResolveEngine(deployment, record.backend), id);
        if k in blobs {
          var info := codec.inspect(blobs[k]);
          if info.Some? && !updateFails {
            records := records[id := record.(meta := info)];
          }
        }
      }
    }
  }

  // ------------------------------------------------------------- the invariant

  /**
    A WebP file stands beside its original, an image of another format that converts, and
    is that conversion, or what an unfinished save left of it.
  */
  ghost predicate Derived(c: Codec, s: State, k: Key)
    requires k in s.webps && k.1 in s.records
  {
    && s.records[k.1].backend == k.0 && k in s.blobs
    && IsImageMime(s.records[k.1].contentType) && !IsWebP(s.records[k.1].contentType)
    && c.convert(s.blobs[k]).Some?
    && s.webps[k] == if k.1 in s.left then s.left[k.1] else c.convert(s.blobs[k]).value
  }

  ghost predicate Inv(c: Codec, s: State) {
    && (forall id | id in s.records :: id in s.used)
    && (forall id | id in s.left :: id in s.used && (id in s.records ==> (s.records[id].backend, id) in s.webps))
    && (forall k | k in s.blobs :: k.1 in s.used && (k.1 in s.records ==> s.records[k.1].backend == k.0))
    && (forall k | k in s.webps :: k.1 in s.used && (k.1 in s.records ==> Derived(c, s, k)))
  }

  /** No bytes of an unfinished save are in the way, unless they happen to be the conversion. */
  predicate Whole(c: Codec, s: State, id: Id) {
    id in s.records && id in s.left && Served(s.deployment, s.records[id].backend) ==>
      var k := (s.records[id].backend, id);
      k in s.blobs && c.convert(s.blobs[k]) == Some(s.left[id])
  }

  /** One state: the cache shows in an answer exactly if it is not whole. */
  lemma ReplyIsAnswer(c: Codec, s: State, id: Id, f: ReadFaults)
    requires Inv(c, s)
    ensures Whole(c, s, id) && (Reply(c, s, id, f).Ok? || f == NO_FAULTS) ==> Reply(c, s, id, f) == Answer(c, s, id)
    ensures f == NO_FAULTS ==> (Reply(c, s, id, f) == Answer(c, s, id) <==> Whole(c, s, id))
  {
    if id in s.records {
      ServedIsResolved(s.deployment, s.records[id].backend);
      assert Home(s, id) in s.webps ==> Derived(c, s, Home(s, id));
      assert id in s.left ==> Derived(c, s, (s.records[id].backend, id));
    }
  }

  lemma SaveKeepsInv(c: Codec, s: State, id: Id, outcome: SaveOutcome)
    requires Inv(c, s) && id in s.records && Home(s, id) in s.blobs
    requires IsImageMime(s.records[id].contentType) && !IsWebP(s.records[id].contentType)
    requires c.convert(s.blobs[Home(s, id)]).Some?
    ensures var k := Home(s, id);
            Inv(c, s.(webps := WithWebP(s.webps, k, c.convert(s.blobs[k]).value, outcome),
                      left := WithLeft(s.left, id, outcome)))
  {
    var k := Home(s, id);
    var w := c.convert(s.blobs[k]).value;
    var s' := s.(webps := WithWebP(s.webps, k, w, outcome), left := WithLeft(s.left, id, outcome));
    assert s.records[id].backend == k.0;
    forall j | j in s'.webps
      ensures j.1 in s'.used && (j.1 in s'.records ==> Derived(c, s', j))
    {
      if j != k {
        assert j in s.webps;
        assert j.1 in s.records ==> Derived(c, s, j) && j.1 != id;
      }
    }
  }

  lemma ReadKeepsInv(c: Codec, s: State, id: Id, f: ReadFaults)
    requires Inv(c, s)
    ensures Inv(c, AfterRead(c, s, id, f))
  {
    if ToSave(c, s, id, f).Some? {
      SaveKeepsInv(c, s, id, f.save);
    }
  }

  lemma InspectionKeepsInv(c: Codec, s: State, id: Id, updateFails: bool)
    requires Inv(c, s) && id in s.records
    ensures Inv(c, s.(records := Inspected(c, s, id, updateFails)))
  {}

  lemma FreshIdKeepsInv(c: Codec, s: State, id: Id)
    requires Inv(c, s) && id !in s.used
    ensures Inv(c, s.(used := s.used + {id}))
  {
    forall k | k in s.webps && k.1 in s.records
      ensures Derived(c, s.(used := s.used + {id}), k)
    {
      assert Derived(c, s, k);
    }
  }

  /** A blob that appears under an id without a record disturbs nobody. */
  lemma FreshBlobKeepsInv(c: Codec, s: State, k: Key, content: Bytes)
    requires Inv(c, s) && k.1 in s.used && k.1 !in s.records
    ensures Inv(c, s.(blobs := s.blobs[k := content]))
  {
    var s' := s.(blobs := s.blobs[k := content]);
    forall j | j in s'.webps && j.1 in s'.records
      ensures Derived(c, s', j)
    {
      assert Derived(c, s, j);
    }
  }

  lemma FreshRecordKeepsInv(c: Codec, s: State, id: Id, record: FileRecord)
    requires Inv(c, s) && id in s.used && id !in s.left
    requires forall k | k in s.blobs && k.1 == id :: k.0 == record.backend
    requires forall k | k in s.webps :: k.1 != id
    ensures Inv(c, s.(records := s.records[id := record]))
  {
    var s' := s.(records := s.records[id := record]);
    forall k | k in s'.webps
      ensures k.1 in s'.used && (k.1 in s'.records ==> Derived(c, s', k))
    {
      assert k.1 in s.records ==> Derived(c, s, k);
    }
  }

  lemma UploadKeepsInv(c: Codec, s: State, op: Op)
    requires Inv(c, s) && Enabled(s, op) && op.Upload?
    ensures Inv(c, Next(c, s, op))
  {
    var k := (MainEngine(s.deployment), op.id);
    FreshIdKeepsInv(c, s, op.id);
    FreshBlobKeepsInv(c, s.(used := s.used + {op.id}), k, op.content);
    assert k !in s.blobs && k !in s.webps;
    assert s.blobs - {k} == s.blobs && s.webps - {k} == s.webps;
    var stored := s.(used := s.used + {op.id}, blobs := s.blobs[k := op.content]);
    FreshRecordKeepsInv(c, stored, op.id, NewRecord(c, s, op.filename, op.contentType, op.content));
  }

  lemma DeleteKeepsInv(c: Codec, s: State, id: Id, f: DeleteFaults)
    requires Inv(c, s)
    ensures Inv(c, AfterDelete(s, id, f))
  {}

  lemma OpKeepsInv(c: Codec, s: State, op: Op)
    requires Inv(c, s) && Enabled(s, op)
    ensures Inv(c, Next(c, s, op))
  {
    match op
    case Upload(_, _, _, _, _) => UploadKeepsInv(c, s, op);
    case Delete(id, f) => DeleteKeepsInv(c, s, id, f);
    case GetAsWebP(id, f) => ReadKeepsInv(c, s, id, f);
    case ProcessAsync(id, _, updateFails, f) =>
      if id in s.records {
        InspectionKeepsInv(c, s, id, updateFails);
        ReadKeepsInv(c, s.(records := Inspected(c, s, id, updateFails)), id, f);
      }
    case Redeploy(d) =>
      assert forall k | k in s.webps && k.1 in s.records :: Derived(c, s, k) ==> Derived(c, s.(deployment := d), k);
  }

  // ------------------------------------------------------------ whole runs

  ghost predicate Runs(c: Codec, s: State, ops: seq<Op>)
    decreases |ops|
  {
    ops == [] || (Enabled(s, ops[0]) && Runs(c, Next(c, s, ops[0]), ops[1..]))
  }

  function Reach(c: Codec, s: State, ops: seq<Op>): State
    requires Runs(c, s, ops)
    decreases |ops|
  {
    if ops == [] then s else Reach(c, Next(c, s, ops[0]), ops[1..])
  }

  lemma {:induction false} RunKeepsInv(c: Codec, s: State, ops: seq<Op>)
    requires Inv(c, s) && Runs(c, s, ops)
    ensures Inv(c, Reach(c, s, ops))
    decreases |ops|
  {
    if ops != [] {
      OpKeepsInv(c, s, ops[0]);
      RunKeepsInv(c, Next(c, s, ops[0]), ops[1..]);
    }
  }

  /**
    After any run of uploads, deletes, background jobs, reads and redeployments, with any
    failures: GetAsWebP answers with the record and the bytes that converting the stored
    original gives, and when nothing fails with the same errors, if and only if no bytes
    of an unfinished save are in the way.
  */
  lemma CacheIsTransparentIffWhole(c: Codec, d: Deployment, ops: seq<Op>, id: Id, f: ReadFaults)
    requires Runs(c, Start(d), ops)
    ensures var s := Reach(c, Start(d), ops);
            && (Whole(c, s, id) && (Reply(c, s, id, f).Ok? || f == NO_FAULTS) ==>
                  Reply(c, s, id, f) == Answer(c, s, id))
            && (Reply(c, s, id, NO_FAULTS) == Answer(c, s, id) <==> Whole(c, s, id))
  {
    RunKeepsInv(c, Start(d), ops);
    ReplyIsAnswer(c, Reach(c, Start(d), ops), id, f);
    ReplyIsAnswer(c, Reach(c, Start(d), ops), id, NO_FAULTS);
  }

  /** No save of the operation is left half done. */
  predicate Tidy(op: Op) {
    op.GetAsWebP? || op.ProcessAsync? ==> !op.read.save.Partial?
  }

  lemma {:induction false} TidyRunsLeaveNothing(c: Codec, s: State, ops: seq<Op>)
    requires Runs(c, s, ops) && s.left == map[] && forall op | op in ops :: Tidy(op)
    ensures Reach(c, s, ops).left == map[]
    decreases |ops|
  {
    if ops != [] {
      assert ops[0] in ops;
      TidyRunsLeaveNothing(c, Next(c, s, ops[0]), ops[1..]);
    }
  }

  /** So in a run in which every save is finished, not begun or undone, the cache never shows. */
  lemma CacheIsTransparent(c: Codec, d: Deployment, ops: seq<Op>, id: Id, f: ReadFaults)
    requires Runs(c, Start(d), ops) && forall op | op in ops :: Tidy(op)
    ensures var s := Reach(c, Start(d), ops);
            Reply(c, s, id, f).Ok? || f == NO_FAULTS ==> Reply(c, s, id, f) == Answer(c, s, id)
  {
    TidyRunsLeaveNothing(c, Start(d), ops);
    CacheIsTransparentIffWhole(c, d, ops, id, f);
  }

  /**
    A file on record has a WebP file only if it is an image of another format that
    converts: to the WebP file, unless that was left unfinished.
  */
  lemma OnlyConversionsAreCached(c: Codec, d: Deployment, ops: seq<Op>, k: Key)
    requires Runs(c, Start(d), ops)
    requires var s := Reach(c, Start(d), ops); k in s.webps && k.1 in s.records
    ensures var s := Reach(c, Start(d), ops);
            && IsImageMime(s.records[k.1].contentType) && !IsWebP(s.records[k.1].contentType)
            && k in s.blobs && c.convert(s.blobs[k]).Some?
            && (k.1 !in s.left ==> c.convert(s.blobs[k]) == Some(s.webps[k]))
            && (k.1 in s.left ==> s.webps[k] == s.left[k.1])
  {
    RunKeepsInv(c, Start(d), ops);
    assert Derived(c, Reach(c, Start(d), ops), k);
  }

  /** A save that leaves bytes behind: they are what every undisturbed read serves from then on. */
  lemma PartialIsServed(c: Codec, s: State, id: Id, f: ReadFaults, bytes: Bytes)
    requires Inv(c, s) && ToSave(c, s, id, f).Some? && f.save == Partial(bytes)
    ensures var s' := AfterRead(c, s, id, f);
            && Reply(c, s', id, NO_FAULTS) == Ok(WebPFile(AsWebP(s.records[id]), bytes))
            && Answer(c, s', id) == Ok(WebPFile(AsWebP(s.records[id]), ToSave(c, s, id, f).value))
  {}

  /** Once converted, an image is served again even while its original cannot be opened. */
  lemma SecondReadNeedsNoOriginal(c: Codec, s: State, id: Id, f: ReadFaults)
    requires Inv(c, s) && Whole(c, s, id) && Answer(c, s, id).Ok? && !IsWebP(s.records[id].contentType)
    requires !f.lookup && !f.openWebP
    ensures Reply(c, Next(c, s, Op.GetAsWebP(id, NO_FAULTS)), id, f) == Answer(c, s, id)
  {
    ServedIsResolved(s.deployment, s.records[id].backend);
    if Home(s, id) in s.webps {
      assert Derived(c, s, Home(s, id));
    }
  }

  // -------------------------------------------------- one file, one answer

  /** The file is on record as before, and its original is where and what it was, if it is still there. */
  predicate Kept(s: State, s': State, id: Id) {
    && id in s.records && id in s'.records
    && s'.records[id].(meta := None) == s.records[id].(meta := None)
    && var k := (s.records[id].backend, id);
       k in s'.blobs ==> k in s.blobs && s'.blobs[k] == s.blobs[k]
  }

  lemma OpKeeps(c: Codec, s: State, op: Op, id: Id)
    requires Inv(c, s) && Enabled(s, op) && id in s.records && !(op.Delete? && op.id == id)
    ensures Kept(s, Next(c, s, op), id)
  {}

  lemma {:induction false} RunKeeps(c: Codec, s: State, ops: seq<Op>, id: Id)
    requires Inv(c, s) && Runs(c, s, ops) && id in s.records
    requires forall op | op in ops :: !(op.Delete? && op.id == id)
    ensures Kept(s, Reach(c, s, ops), id)
    decreases |ops|
  {
    if ops != [] {
      assert ops[0] in ops;
      OpKeeps(c, s, ops[0], id);
      OpKeepsInv(c, s, ops[0]);
      RunKeeps(c, Next(c, s, ops[0]), ops[1..], id);
    }
  }

  /**
    Until it is deleted a file has one WebP version: any two answers, at any two moments
    of a run at which it is whole and through any redeployments between, have the same
    bytes, content type and filename.
  */
  lemma SameUntilDeleted(c: Codec, d: Deployment, before: seq<Op>, between: seq<Op>, id: Id,
                         f: ReadFaults, g: ReadFaults)
    requires Runs(c, Start(d), before) && Runs(c, Reach(c, Start(d), before), between)
    requires forall op | op in between :: !(op.Delete? && op.id == id)
    requires var s := Reach(c, Start(d), before);
             && Reply(c, s, id, f).Ok? && Reply(c, Reach(c, s, between), id, g).Ok?
             && Whole(c, s, id) && Whole(c, Reach(c, s, between), id)
    ensures var s := Reach(c, Start(d), before);
            var first, second := Reply(c, s, id, f).value, Reply(c, Reach(c, s, between), id, g).value;
            && first.bytes == second.bytes
            && first.record.(meta := None) == second.record.(meta := None)
  {
    var s := Reach(c, Start(d), before);
    var s' := Reach(c, s, between);
    RunKeepsInv(c, Start(d), before);
    RunKeepsInv(c, s, between);
    ReplyIsAnswer(c, s, id, f);
    ReplyIsAnswer(c, s', id, g);
    RunKeeps(c, s, between, id);
    assert Home(s, id) in s.blobs && Home(s', id) in s'.blobs;
    assert Home(s, id).0 == s.records[id].backend && Home(s', id).0 == s'.records[id].backend;
  }

  lemma {:induction false} GoneStaysGone(c: Codec, s: State, ops: seq<Op>, id: Id)
    requires Runs(c, s, ops) && id in s.used && id !in s.records
    ensures id !in Reach(c, s, ops).records
    decreases |ops|
  {
    if ops != [] {
      GoneStaysGone(c, Next(c, s, ops[0]), ops[1..], id);
    }
  }

  /**
    A file is found exactly until its row is deleted: from then on, whatever else is
    uploaded, converted, deleted or redeployed, and whatever the deletion left in the
    engines, there is no such file.
  */
  lemma DeletedIsNotFound(c: Codec, d: Deployment, before: seq<Op>, after: seq<Op>, id: Id, f: DeleteFaults,
                          g: ReadFaults)
    requires Runs(c, Start(d), before)
    requires var s := Reach(c, Start(d), before);
             id in s.records && Runs(c, s, after) && |after| > 0 && after[0] == Op.Delete(id, f)
    requires forall op | op in after[1..] :: !(op.Delete? && op.id == id)
    ensures var s := Reach(c, Start(d), before);
            Reply(c, Reach(c, s, after), id, g) == Err(NotFound) <==> !f.row && !g.lookup
  {
    var s := Reach(c, Start(d), before);
    RunKeepsInv(c, Start(d), before);
    var s' := Next(c, s, after[0]);
    OpKeepsInv(c, s, after[0]);
    if f.row {
      RunKeeps(c, s', after[1..], id);
    } else {
      GoneStaysGone(c, s', after[1..], id);
    }
  }
}
