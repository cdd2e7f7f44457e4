/**
  The bytes of an upload on their way to the store (internal/service/storage.go
  Upload, internal/storage/storage.go Save): a sniffed head, re-joined with the rest
  of the source, cut one byte above the limit, counted and hashed as it is copied
  into the compressor.
*/
module UploadStream {
  import opened Engines
  import opened Wrappers

  const SNIFF_LENGTH := 512
  const COPY_BUFFER := 32768

  datatype ReadError = NoError | Eof | Failed

  function Flatten(chunks: seq<Bytes>): Bytes {
    if chunks == [] then [] else chunks[0] + Flatten(chunks[1..])
  }

  /** Reads left: one per chunk and per byte bounds them, empty reads included. */
  function Weight(chunks: seq<Bytes>): nat {
    if chunks == [] then 0 else 1 + |chunks[0]| + Weight(chunks[1..])
  }

  /**
    Any finite io.Reader: what its reads would return given room enough, in whatever
    portions, possibly empty ones; then end of file, or an error if fails, in either
    case together with the last portion if eager.
  */
  class Source {
    var chunks: seq<Bytes>
    const eager: bool
    const fails: bool

    constructor (chunks: seq<Bytes>, eager: bool, fails: bool)
      ensures this.chunks == chunks && this.eager == eager && this.fails == fails
    {
      this.chunks := chunks;
      this.eager := eager;
      this.fails := fails;
    }

    ghost function Rest(): Bytes
      reads this
    {
      Flatten(chunks)
    }

    /** The error will come together with the last byte. */
    ghost predicate Cut()
      reads this
    {
      fails && eager && Rest() != [] && chunks[|chunks| - 1] != []
    }

    method Read(room: nat) returns (p: Bytes, err: ReadError)
      requires room > 0
      modifies this
      ensures |p| <= room && p + Rest() == old(Rest())
      ensures err == NoError ==> Weight(chunks) < Weight(old(chunks))
      ensures Weight(chunks) <= Weight(old(chunks))
      ensures err == Eof ==> Rest() == [] && !fails
      ensures err == Failed ==> fails && Rest() == []
      ensures Cut() ==> old(Cut())
      ensures old(Cut()) && err != Failed ==> Cut()
      ensures err == Failed && p != [] ==> old(Cut())
    {
      if chunks == [] {
        return [], if fails then Failed else Eof;
      }
      LastIsPart(chunks);
      var c := chunks[0];
      assert chunks == [c] + chunks[1..];
      if |c| <= room {
        p := c;
        chunks := chunks[1..];
        err := if chunks != [] || !eager then NoError else if fails then Failed else Eof;
      } else {
        p := c[..room];
        ghost var tail := chunks[1..];
        chunks := [c[room..]] + chunks[1..];
        assert chunks[1..] == tail;
        assert c == c[..room] + c[room..];
        err := NoError;
      }
      if chunks != [] {
        LastIsPart(chunks);
      }
    }
  }

  lemma {:induction false} LastIsPart(chunks: seq<Bytes>)
    requires chunks != []
    ensures chunks[|chunks| - 1] != [] ==> Flatten(chunks) != []
    decreases |chunks|
  {
    if |chunks| > 1 {
      LastIsPart(chunks[1..]);
    }
  }

  /**
    io.ReadFull into a buffer of the given size: end of file before the buffer is full
    is no error here, and neither is an error that comes with the bytes that fill it.
  */
  method ReadFull(src: Source, size: nat) returns (head: Bytes, ok: bool)
    modifies src
    ensures head + src.Rest() == old(src.Rest())
    ensures |head| <= size
    ensures size > 0 ==> (ok <==> !src.fails || |old(src.Rest())| >= size)
    ensures src.Cut() <==> old(src.Cut()) && src.Rest() != []
  {
    head := [];
    ok := true;
    while |head| < size
      invariant |head| <= size && head + src.Rest() == old(src.Rest())
      invariant src.Cut() <==> old(src.Cut())
      decreases Weight(src.chunks)
    {
      var p, err := src.Read(size - |head|);
      head := head + p;
      if err == Eof {
        return;
      }
      if err == Failed {
        ok := |head| == size;
        return;
      }
    }
  }

  /** io.MultiReader over the sniffed head and what the source still has. */
  class MultiReader {
    var head: Bytes
    const src: Source

    constructor (head: Bytes, src: Source)
      ensures this.head == head && this.src == src
    {
      this.head := head;
      this.src := src;
    }

    ghost function Rest(): Bytes
      reads this, src
    {
      head + src.Rest()
    }

    ghost function Todo(): nat
      reads this, src
    {
      |head| + Weight(src.chunks)
    }

    method Read(room: nat) returns (p: Bytes, err: ReadError)
      requires room > 0
      modifies this, src
      ensures |p| <= room && p + Rest() == old(Rest())
      ensures err == NoError ==> Todo() < old(Todo())
      ensures err == Eof ==> Rest() == [] && !src.fails
      ensures err == Failed ==> src.fails && Rest() == []
      ensures src.Cut() ==> old(src.Cut())
      ensures old(src.Cut()) && err != Failed ==> src.Cut()
      ensures err == Failed && p != [] ==> old(src.Cut())
    {
      if head != [] {
        var n := if |head| <= room then |head| else room;
        p := head[..n];
        assert head == head[..n] + head[n..];
        head := head[n..];
        err := NoError;
      } else {
        p, err := src.Read(room);
      }
    }
  }

  /** io.LimitReader, or the reader itself when there is no limit. */
  class LimitedReader {
    const inner: MultiReader
    const limited: bool
    var remaining: nat

    constructor (inner: MultiReader, limit: Option<nat>)
      ensures this.inner == inner && limited == limit.Some?
      ensures limit.Some? ==> remaining == limit.value
    {
      this.inner := inner;
      limited := limit.Some?;
      remaining := if limit.Some? then limit.value else 0;
    }

    ghost function Rest(): Bytes
      reads this, inner, inner.src
    {
      var all := inner.Rest();
      if limited && remaining < |all| then all[..remaining] else all
    }

    /** Everything up to the limit has been read, or everything there was, to a proper end. */
    ghost predicate Ended()
      reads this, inner, inner.src
    {
      (limited && remaining == 0) || (inner.Rest() == [] && !inner.src.fails)
    }

    /** What is to be read ends without an error: properly, or at the limit before the error shows. */
    ghost predicate EndsWell()
      reads this, inner, inner.src
    {
      || !inner.src.fails
      || (limited && (|inner.Rest()| > remaining || (|inner.Rest()| == remaining && !inner.src.Cut())))
    }

    method Read(room: nat) returns (p: Bytes, err: ReadError)
      requires room > 0
      modifies this, inner, inner.src
      ensures |p| <= room && p + Rest() == old(Rest())
      ensures limited ==> remaining == old(remaining) - |p|
      ensures p + inner.Rest() == old(inner.Rest())
      ensures err == NoError ==> inner.Todo() < old(inner.Todo())
      ensures err == Eof ==> Rest() == [] && Ended()
      ensures err == Failed ==> inner.src.fails && inner.Rest() == [] && (limited ==> old(remaining) > 0)
      ensures inner.src.Cut() ==> old(inner.src.Cut())
      ensures old(inner.src.Cut()) && err != Failed ==> inner.src.Cut()
      ensures err == Failed && p != [] ==> old(inner.src.Cut())
    {
      if limited && remaining == 0 {
        return [], Eof;
      }
      var room' := if limited && remaining < room then remaining else room;
      p, err := inner.Read(room');
      if limited {
        remaining := remaining - |p|;
      }
    }
  }

  /** countingReader: how many bytes went by, and which ones the hash has seen. */
  class CountingReader {
    const reader: LimitedReader
    var bytesRead: nat
    var hashed: Bytes

    constructor (reader: LimitedReader)
      ensures this.reader == reader && bytesRead == 0 && hashed == []
    {
      this.reader := reader;
      bytesRead := 0;
      hashed := [];
    }

    method Read(room: nat) returns (p: Bytes, err: ReadError)
      requires room > 0
      modifies this, reader, reader.inner, reader.inner.src
      ensures p + reader.Rest() == old(reader.Rest())
      ensures reader.limited ==> reader.remaining == old(reader.remaining) - |p|
      ensures p + reader.inner.Rest() == old(reader.inner.Rest())
      ensures bytesRead == old(bytesRead) + |p| && hashed == old(hashed) + p
      ensures err == NoError ==> reader.inner.Todo() < old(reader.inner.Todo())
      ensures err == Eof ==> reader.Rest() == [] && reader.Ended()
      ensures err == Failed ==>
                && reader.inner.src.fails && reader.inner.Rest() == []
                && (reader.limited ==> old(reader.remaining) > 0)
      ensures reader.inner.src.Cut() ==> old(reader.inner.src.Cut())
      ensures old(reader.inner.src.Cut()) && err != Failed ==> reader.inner.src.Cut()
      ensures err == Failed && p != [] ==> old(reader.inner.src.Cut())
    {
      p, err := reader.Read(room);
      if |p| > 0 {
        bytesRead := bytesRead + |p|;
        hashed := hashed + p;
      }
    }
  }

  /** The readers an upload stacks on its source: the sniffed head again, the limit and one byte more, the counter. */
  method Stack(head: Bytes, src: Source, maxBytes: int) returns (counting: CountingReader)
    ensures fresh(counting) && fresh(counting.reader) && fresh(counting.reader.inner)
    ensures counting.reader.inner.src == src && counting.bytesRead == 0 && counting.hashed == []
    ensures counting.reader.inner.head == head
    ensures counting.reader.limited == (maxBytes > 0)
    ensures maxBytes > 0 ==> counting.reader.remaining == maxBytes + 1
  {
    var joined := new MultiReader(head, src);
    var limit: Option<nat> := if maxBytes > 0 then Some(maxBytes + 1) else None;
    var limitedReader := new LimitedReader(joined, limit);
    counting := new CountingReader(limitedReader);
  }

  /**
    What may go wrong in the file system and the database. The write of the source's byte
    after the first diskRoom ones fails; removeFails is for whatever an upload has to
    remove again.
  */
  datatype Faults = Faults(
    openFails: bool, diskRoom: Option<nat>, closeFails: bool, statFails: bool, removeFails: bool, createFails: bool)

  const NO_FAULTS := Faults(false, None, false, false, false, false)

  predicate Fits(length: nat, diskRoom: Option<nat>) {
    diskRoom.Some? ==> length <= diskRoom.value
  }

  /** A failed Save leaves a file: it was written whole and only the stat failed, or it could not be removed. */
  predicate SaveLeavesFile(f: Faults, copied: bool) {
    !f.openFails && if copied && !f.closeFails then f.statFails else f.removeFails
  }

  /** A refused Upload leaves a file: Save did, or the file of a refusal after it could not be removed. */
  predicate UploadLeavesFile(f: Faults, copied: bool, tooLong: bool) {
    || SaveLeavesFile(f, copied)
    || (!f.openFails && copied && !f.closeFails && f.removeFails && (tooLong || f.createFails))
  }

  function Limit(maxMB: int): int {
    maxMB * 1024 * 1024
  }

  predicate TooLong(source: Bytes, maxMB: int) {
    maxMB > 0 && |source| > Limit(maxMB)
  }

  /** The head can be sniffed: the source does not fail within it. */
  ghost predicate Sniffs(src: Source)
    reads src
  {
    !src.fails || |src.Rest()| >= SNIFF_LENGTH
  }

  /**
    All that is let through reaches the file: it fits on the disk, and the source does
    not fail up to and including the one byte above the limit.
  */
  ghost predicate Copies(src: Source, maxMB: int, diskRoom: Option<nat>)
    reads src
  {
    CopiesOf(|src.Rest()|, src.fails, src.Cut(), maxMB, diskRoom)
  }

  predicate CopiesOf(n: nat, fails: bool, cut: bool, maxMB: int, diskRoom: Option<nat>) {
    && Fits(if maxMB > 0 && n > Limit(maxMB) then Limit(maxMB) + 1 else n, diskRoom)
    && (!fails || (maxMB > 0 && (n > Limit(maxMB) + 1 || (n == Limit(maxMB) + 1 && !cut))))
  }

  /** That is what copying from the stacked readers comes to. */
  lemma StackCopies(r: LimitedReader, source: Bytes, cut: bool, maxMB: int, diskRoom: Option<nat>)
    requires r.inner.Rest() == source && |r.inner.head| <= SNIFF_LENGTH
    requires r.inner.src.Cut() <==> cut && r.inner.src.Rest() != []
    requires r.limited == (maxMB > 0) && (maxMB > 0 ==> r.remaining == Limit(maxMB) + 1)
    ensures Fits(|r.Rest()|, diskRoom) && r.EndsWell() <==> CopiesOf(|source|, r.inner.src.fails, cut, maxMB, diskRoom)
  {}

  /** io.Copy into the compressor; written is what it has been given. */
  method Copy(r: CountingReader, diskRoom: Option<nat>) returns (written: Bytes, ok: bool)
    requires r.bytesRead == 0 && r.hashed == []
    modifies r, r.reader, r.reader.inner, r.reader.inner.src
    ensures ok ==> written == old(r.reader.Rest()) && r.hashed == written && r.bytesRead == |written|
    ensures ok ==> r.reader.Ended() && written + r.reader.inner.Rest() == old(r.reader.inner.Rest())
    ensures ok && r.reader.limited ==> r.reader.remaining == old(r.reader.remaining) - |written|
    ensures ok <==> Fits(|old(r.reader.Rest())|, diskRoom) && old(r.reader.EndsWell())
  {
    ghost var all, whole := r.reader.Rest(), r.reader.inner.Rest();
    written := [];
    while true
      invariant written + r.reader.Rest() == all
      invariant written + r.reader.inner.Rest() == whole
      invariant r.hashed == written && r.bytesRead == |written|
      invariant r.reader.limited ==> r.reader.remaining == old(r.reader.remaining) - |written|
      invariant r.reader.inner.src.Cut() <==> old(r.reader.inner.src.Cut())
      invariant Fits(|written|, diskRoom)
      decreases r.reader.inner.Todo()
    {
      ghost var rest, wholeRest := r.reader.Rest(), r.reader.inner.Rest();
      var p, err := r.Read(COPY_BUFFER);
      Moved(written, p, r.reader.Rest(), rest);
      Moved(written, p, r.reader.inner.Rest(), wholeRest);
      if |p| > 0 && !Fits(|written| + |p|, diskRoom) {
        return written, false;
      }
      written := written + p;
      if err == Eof {
        return written, true;
      }
      if err == Failed {
        return written, false;
      }
    }
  }

  lemma Moved(done: Bytes, p: Bytes, rest: Bytes, before: Bytes)
    requires p + rest == before
    ensures (done + p) + rest == done + before
  {}

  /** What Save measures, and the row keeps. */
  datatype Record = Record(originalSize: nat, compressedSize: nat, hashed: Bytes)

  datatype UploadError = ReadFailed | StoreFailed | FileTooLarge | MetadataFailed

  /** A compressor that can be undone. */
  ghost predicate Inverse(compress: Bytes -> Bytes, decompress: Bytes -> Bytes) {
    forall b :: decompress(compress(b)) == b
  }

  class Store {
    const compress: Bytes -> Bytes
    const decompress: Bytes -> Bytes
    var blobs: map<Id, Bytes>
    var records: map<Id, Record>

    constructor (compress: Bytes -> Bytes, decompress: Bytes -> Bytes)
      ensures this.compress == compress && this.decompress == decompress && blobs == map[] && records == map[]
    {
      this.compress := compress;
      this.decompress := decompress;
      blobs, records := map[], map[];
    }

    /** What reading the file back gives. */
    function Opened(id: Id): Option<Bytes>
      reads this
    {
      if id in blobs then Some(decompress(blobs[id])) else None
    }

    /** A file, or nothing, is all that an operation on id may have changed. */
    ghost predicate OnlyAt(id: Id, before: map<Id, Bytes>)
      reads this
    {
      blobs - {id} == before - {id}
    }

    /** os.Remove of a file that is not wanted after all; what a half-written file holds is open. */
    method Abandon(id: Id, f: Faults)
      requires id !in blobs
      modifies this`blobs
      ensures OnlyAt(id, old(blobs)) && (id in blobs <==> f.removeFails)
    {
      if f.removeFails {
        var partial: Bytes := *;
        blobs := blobs[id := partial];
      }
    }

    method Save(r: CountingReader, id: Id, f: Faults) returns (s: Option<Record>)
      requires r.bytesRead == 0 && r.hashed == [] && id !in blobs
      modifies this`blobs, r, r.reader, r.reader.inner, r.reader.inner.src
      ensures s.Some? ==>
                && s.value.hashed == old(r.reader.Rest()) && s.value.originalSize == |s.value.hashed|
                && blobs == old(blobs)[id := compress(s.value.hashed)]
                && s.value.compressedSize == |blobs[id]|
                && r.reader.Ended()
                && s.value.hashed + r.reader.inner.Rest() == old(r.reader.inner.Rest())
                && (r.reader.limited ==> r.reader.remaining == old(r.reader.remaining) - |s.value.hashed|)
      ensures var copied := Fits(|old(r.reader.Rest())|, f.diskRoom) && old(r.reader.EndsWell());
              && (s.Some? <==> !f.openFails && copied && !f.closeFails && !f.statFails)
              && (s.None? ==> OnlyAt(id, old(blobs)) && (id in blobs <==> SaveLeavesFile(f, copied)))
    {
      if f.openFails {
        return None;
      }
      var written, ok := Copy(r, f.diskRoom);
      if !ok || f.closeFails {
        Abandon(id, f);
        return None;
      }
      blobs := blobs[id := compress(written)];
      if f.statFails {
        return None;
      }
      return Some(Record(r.bytesRead, |blobs[id]|, r.hashed));
    }

    method Delete(id: Id, f: Faults)
      modifies this`blobs
      ensures blobs == if f.removeFails then old(blobs) else old(blobs) - {id}
    {
      if !f.removeFails {
        blobs := blobs - {id};
      }
    }

    /** What follows a successful Save: the size check and the row, each of which may have the file removed again. */
    method Keep(id: Id, record: Record, maxBytes: int, f: Faults) returns (r: Result<Record, UploadError>)
      requires id in blobs && id !in records
      modifies this`blobs, this`records
      ensures r.Ok? <==> !(maxBytes > 0 && record.originalSize > maxBytes) && !f.createFails
      ensures r.Ok? ==> r.value == record && blobs == old(blobs) && records == old(records)[id := record]
      ensures r.Err? ==> records == old(records) && blobs == if f.removeFails then old(blobs) else old(blobs) - {id}
      ensures r == Err(FileTooLarge) <==> maxBytes > 0 && record.originalSize > maxBytes
    {
      if maxBytes > 0 && record.originalSize > maxBytes {
        Delete(id, f);
        return Err(FileTooLarge);
      }
      if f.createFails {
        Delete(id, f);
        return Err(MetadataFailed);
      }
      records := records[id := record];
      return Ok(record);
    }

    /**
      An upload under a fresh id, with a limit in megabytes (none when it is not
      positive). An accepted upload is the whole source and nothing else; a refused one
      leaves no record, and a file exactly as UploadLeavesFile says.
    */
    method Upload(src: Source, id: Id, maxMB: int, f: Faults) returns (r: Result<Record, UploadError>)
      requires id !in blobs && id !in records
      modifies this, src
      ensures r.Ok? ==>
                && !src.fails && !TooLong(old(src.Rest()), maxMB)
                && records == old(records)[id := r.value]
                && blobs == old(blobs)[id := compress(old(src.Rest()))]
                && r.value.originalSize == |old(src.Rest())| && r.value.hashed == old(src.Rest())
                && r.value.compressedSize == |blobs[id]|
      ensures r.Err? ==> records == old(records) && OnlyAt(id, old(blobs))
      ensures var copied, tooLong := old(Copies(src, maxMB, f.diskRoom)), TooLong(old(src.Rest()), maxMB);
              && (r.Ok? <==>
                    && old(Sniffs(src)) && !f.openFails && copied && !f.closeFails && !f.statFails
                    && !tooLong && !f.createFails)
              && (r.Err? && id in blobs <==> old(Sniffs(src)) && UploadLeavesFile(f, copied, tooLong))
      ensures !src.fails && f == NO_FAULTS ==>
                && (r.Ok? <==> maxMB <= 0 || |old(src.Rest())| <= maxMB * 1048576)
                && (r.Err? ==> r.error == FileTooLarge && id !in blobs)
    {
      ghost var source := src.Rest();
      var head, ok := ReadFull(src, SNIFF_LENGTH);
      if !ok {
        return Err(ReadFailed);
      }
      var maxBytes := maxMB * 1024 * 1024;
      var counting := Stack(head, src, maxBytes);
      StackCopies(counting.reader, source, old(src.Cut()), maxMB, f.diskRoom);
      var saved := Save(counting, id, f);
      if saved.None? {
        return Err(StoreFailed);
      }
      assert TooLong(source, maxMB) <==> maxBytes > 0 && saved.value.originalSize > maxBytes;
      assert !TooLong(source, maxMB) ==> saved.value.hashed == source && !src.fails;
      r := Keep(id, saved.value, maxBytes, f);
    }

    /** An accepted upload, opened again, is the source byte for byte, as long as the compressor can be undone. */
    method UploadThenOpen(src: Source, id: Id, maxMB: int, f: Faults)
      returns (r: Result<Record, UploadError>, back: Option<Bytes>)
      requires id !in blobs && id !in records && Inverse(compress, decompress)
      modifies this, src
      ensures r.Ok? ==> back == Some(old(src.Rest()))
      ensures r.Err? ==>
                (back.Some? <==>
                   old(Sniffs(src))
                   && UploadLeavesFile(f, old(Copies(src, maxMB, f.diskRoom)), TooLong(old(src.Rest()), maxMB)))
    {
      r := Upload(src, id, maxMB, f);
      back := Opened(id);
    }
  }
}
