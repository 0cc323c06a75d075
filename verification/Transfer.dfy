/** Downloading one file in any number of attempts: the partial kept between them, the check before it
    becomes the file, and the answers of a node that has the file
    (crates/ac-files/src/blob.rs, crates/ac-files/src/content.rs). */
module Transfer {
  import opened Base
  import opened Wire

  type Path = string

  const BUFFER := 64 * 1024

  /** A content hash as text: the lower-case hex of a digest, hex with a capital in it, or not hex. */
  datatype HashText = Lower(digest: Digest) | Mixed(digest: Digest) | NotHex

  datatype FileRow = FileRow(size: U64, hash: HashText, removed: bool, have: bool)

  /** What one path has on this node: a partial, the file itself, and its row in the index. */
  datatype Place = Place(staged: Option<Bytes>, placed: Option<Bytes>, row: Option<FileRow>) {
    function StagedLen(): nat {
      if staged.Some? then |staged.value| else 0
    }

    /** Whether the index still has a use for the file: listed, not removed, and not here. */
    predicate Unfinished() {
      row.Some? && !row.value.removed && !row.value.have
    }

    function Marked(have: bool): Place {
      if row.Some? then this.(row := Some(row.value.(have := have))) else this
    }
  }

  datatype BlobReply = Sending(size: U64) | Refused

  datatype FetchError = Unavailable | WrongContent | Overlong | Early(got: nat, expected: nat) | BadHash | Stream | Disk

  /** Bytes arriving, and how many of them the disk has room for. */
  datatype Chunk = Chunk(bytes: Bytes, room: nat)

  /** What one attempt meets: what the node finds locally, what the peer replies and sends, and whether
      the stream closes cleanly. */
  datatype Try = Try(found: Option<Bytes>, reply: BlobReply, chunks: seq<Chunk>, closed: bool)

  /** What happens to a path: a download is attempted, or the node starts and sweeps out old partials. */
  datatype Happening = Fetches(t: Try) | Sweeps(idle: bool)

  // ---- the rules, on values ----

  /** The guard against senders: `n` bytes on top of `got`, in saturating u64 arithmetic, exceed `expected`. */
  predicate Overruns(got: nat, n: nat, expected: U64) {
    (if got + n >= U64_LIMIT then U64_LIMIT - 1 else got + n) > expected
  }

  /** The saturating sum decides exactly as the real one does, except that nothing overruns an
      announced size of the largest u64. */
  lemma OverrunsExactly(got: nat, n: nat, expected: U64)
    ensures Overruns(got, n, expected) <==> got + n > expected && expected < U64_LIMIT - 1
  {
  }

  /** A transfer under way: the bytes the hasher was given, the bytes in the staging file, and the
      count of bytes this attempt received. */
  datatype Progress = Progress(hashed: Bytes, file: Bytes, got: nat)

  /** Continue a partial only if it is as long as the request said; otherwise begin again. */
  function Resumed(staged: Option<Bytes>, from: nat): Progress {
    if from > 0 && staged.Some? && |staged.value| == from
    then Progress(staged.value, staged.value, 0) else Progress([], [], 0)
  }

  function Taking(p: Progress, expected: U64, chunk: Chunk): (Progress, Option<FetchError>) {
    var n := |chunk.bytes|;
    if Overruns(p.got, n, expected) then (p, Some(Overlong))
    else if chunk.room < n
    then (Progress(p.hashed + chunk.bytes, p.file + chunk.bytes[..chunk.room], p.got), Some(Disk))
    else (Progress(p.hashed + chunk.bytes, p.file + chunk.bytes, (p.got + n) % U64_LIMIT), None)
  }

  function Receiving(p: Progress, expected: U64, chunks: seq<Chunk>): (Progress, Option<FetchError>)
    decreases |chunks|
  {
    if chunks == [] then (p, None)
    else
      var (next, stopped) := Taking(p, expected, chunks[0]);
      if stopped.Some? then (next, stopped) else Receiving(next, expected, chunks[1..])
  }

  /** The place once the stream has ended: the file committed, or a partial or nothing staged and a reason. */
  function Ended(d: Place, asked: HashText, p: Progress, expected: U64, stopped: Option<FetchError>)
    : (Place, Option<FetchError>)
  {
    if stopped.Some? then (d.(staged := Some(p.file)), stopped)
    else if p.got != expected then (d.(staged := Some(p.file)), Some(Early(p.got, expected)))
    else if Lower(Sha256(p.hashed)) != asked then (d.(staged := None), Some(WrongContent))
    else (Place(None, Some(p.file), d.row).Marked(true), None)
  }

  function Attempt(d: Place, asked: HashText, t: Try): (Place, Option<FetchError>) {
    if t.found.Some? then (d.(placed := t.found).Marked(true), None)
    else if asked.NotHex? then (d, Some(BadHash))
    else
      if t.reply.Refused? then (d, Some(Unavailable))
      else
        var (p, stopped) := Receiving(Resumed(d.staged, d.StagedLen()), t.reply.size, t.chunks);
        Ended(d, asked, p, t.reply.size, if stopped.None? && !t.closed then Some(Stream) else stopped)
  }

  /** A partial nothing has touched for an hour goes, unless the index still has a use for it. */
  function Sweeping(d: Place, idle: bool): Place {
    if idle && !d.Unfinished() then d.(staged := None) else d
  }

  function Happened(d: Place, asked: HashText, h: Happening): Place {
    if h.Fetches? then Attempt(d, asked, h.t).0 else Sweeping(d, h.idle)
  }

  function After(d: Place, asked: HashText, happenings: seq<Happening>): Place
    decreases |happenings|
  {
    if happenings == [] then d else After(Happened(d, asked, happenings[0]), asked, happenings[1..])
  }

  datatype Answer = Send(size: U64, bytes: Bytes) | Decline

  function From(bytes: Bytes, offset: nat): Bytes {
    if offset <= |bytes| then bytes[offset..] else []
  }

  /** The answer to a request, and whether the row says the bytes are here although they are not. */
  function Answered(d: Place, shared: bool, dir: bool, hash: Digest, offset: nat): (Answer, bool) {
    if !shared || d.row.None? || d.row.value.removed || !d.row.value.have then (Decline, false)
    else if d.row.value.hash != Lower(hash) then (Decline, false)
    else if !dir then (Decline, false)
    else if d.placed.None? then (Decline, true)
    else
      var left := if offset <= d.row.value.size then d.row.value.size - offset else 0;
      (Send(left, From(d.placed.value, offset)), false)
  }

  // ---- the running code ----

  class Blobs {
    var staging: map<Path, Bytes>
    var files: map<Path, Bytes>
    var rows: map<Path, FileRow>

    constructor (rows: map<Path, FileRow>)
      ensures staging == map[] && files == map[] && this.rows == rows
    {
      staging, files, this.rows := map[], map[], rows;
    }

    function At(path: Path): Place
      reads this
    {
      Place(
        if path in staging then Some(staging[path]) else None,
        if path in files then Some(files[path]) else None,
        if path in rows then Some(rows[path]) else None)
    }

    twostate predicate OthersUntouched(path: Path)
      reads this
    {
      && staging - {path} == old(staging) - {path}
      && files - {path} == old(files) - {path}
      && rows - {path} == old(rows) - {path}
    }

    method MarkHave(path: Path, have: bool)
      modifies this`rows
      ensures At(path) == old(At(path)).Marked(have) && OthersUntouched(path)
    {
      if path in rows {
        rows := rows[path := rows[path].(have := have)];
      }
    }

    /** The partial and a hash over all of it, if it has the length asked for; otherwise both begin empty. */
    method Resume(path: Path, from: nat) returns (sink: Sink)
      modifies this`staging
      ensures fresh(sink) && sink.blobs == this && sink.path == path
      ensures var p := Resumed(old(At(path)).staged, from);
              && At(path) == old(At(path)).(staged := Some(p.file))
              && sink.hashed == p.hashed && sink.size == |p.file|
      ensures OthersUntouched(path)
    {
      sink := new Sink(this, path);
      if from > 0 && path in staging && |staging[path]| == from {
        var existing := staging[path];
        var read := 0;
        while read < |existing|
          invariant 0 <= read <= |existing|
          invariant sink.hashed == existing[..read] && sink.size == read
          invariant staging == old(staging) && fresh(sink)
        {
          var n := if |existing| - read < BUFFER then |existing| - read else BUFFER;
          assert existing[..read] + existing[read..read + n] == existing[..read + n];
          sink.Hash(existing[read..read + n]);
          read := read + n;
        }
        assert existing[..read] == existing;
      } else {
        staging := staging - {path};
      }
      if sink.size == 0 {
        staging := staging[path := []];
      }
    }

    /** Drop the partials that have been idle and are of no use any more. */
    method SweepStaging(idle: set<Path>) returns (swept: nat)
      modifies this`staging
      ensures forall path :: At(path) == Sweeping(old(At(path)), path in idle)
      ensures swept == |old(staging)| - |staging|
    {
      var left := staging.Keys;
      swept := 0;
      while left != {}
        invariant left <= staging.Keys <= old(staging.Keys) && swept == |old(staging)| - |staging|
        invariant forall path :: path in staging ==> staging[path] == old(staging)[path]
        invariant forall path :: path in old(staging) && path !in left ==>
                    (path in staging <==> !(path in idle && !old(At(path)).Unfinished()))
        decreases |left|
      {
        var path :| path in left;
        left := left - {path};
        if path in idle && !At(path).Unfinished() {
          assert staging == (staging - {path})[path := staging[path]];
          staging := staging - {path};
          swept := swept + 1;
        }
      }
    }

    /** One whole download, as its service drives it: start, reply, chunks until one is refused or the
        stream ends, end. */
    method Fetch(path: Path, asked: HashText, t: Try) returns (failed: Option<FetchError>)
      modifies this
      ensures (At(path), failed) == Attempt(old(At(path)), asked, t)
      ensures OthersUntouched(path)
    {
      if t.found.Some? {
        files := files[path := t.found.value];
        MarkHave(path, true);
        return None;
      }
      if asked.NotHex? {
        return Some(BadHash);
      }
      var resume := if path in staging then |staging[path]| else 0;
      if t.reply.Refused? {
        return Some(Unavailable);
      }
      failed := Receive(path, asked, resume, t.reply.size, t.chunks, t.closed);
    }

    method Receive(path: Path, asked: HashText, resume: nat, expected: U64, chunks: seq<Chunk>, closed: bool)
      returns (failed: Option<FetchError>)
      modifies this
      ensures var (p, stopped) := Receiving(Resumed(old(At(path)).staged, resume), expected, chunks);
              (At(path), failed)
              == Ended(old(At(path)), asked, p, expected, if stopped.None? && !closed then Some(Stream) else stopped)
      ensures OthersUntouched(path)
    {
      var sink := Resume(path, resume);
      var got: nat := 0;
      var stopped: Option<FetchError> := None;
      var i := 0;
      ghost var goal := Receiving(Resumed(old(At(path)).staged, resume), expected, chunks);
      assert chunks[0..] == chunks;
      while i < |chunks| && stopped.None?
        invariant 0 <= i <= |chunks| && sink.blobs == this && sink.path == path && fresh(sink)
        invariant At(path) == old(At(path)).(staged := At(path).staged) && At(path).staged.Some?
        invariant OthersUntouched(path)
        invariant var p := Progress(sink.hashed, At(path).staged.value, got);
                  goal == if stopped.Some? then (p, stopped) else Receiving(p, expected, chunks[i..])
      {
        assert chunks[i..][1..] == chunks[i + 1..];
        var chunk := chunks[i];
        if Overruns(got, |chunk.bytes|, expected) {
          stopped := Some(Overlong);
        } else {
          assert chunk.bytes[..|chunk.bytes|] == chunk.bytes;
          var wrote := sink.Write(chunk);
          if wrote {
            got := (got + |chunk.bytes|) % U64_LIMIT;
          } else {
            stopped := Some(Disk);
          }
        }
        i := i + 1;
      }
      if stopped.None? && !closed {
        stopped := Some(Stream);
      }
      failed := End(path, asked, sink, got, expected, stopped);
    }

    method End(path: Path, asked: HashText, sink: Sink, got: nat, expected: U64, stopped: Option<FetchError>)
      returns (failed: Option<FetchError>)
      requires path in staging
      modifies this
      ensures (At(path), failed)
              == Ended(old(At(path)), asked, Progress(sink.hashed, old(staging[path]), got), expected, stopped)
      ensures OthersUntouched(path)
    {
      if stopped.Some? {
        return stopped;
      }
      if got != expected {
        return Some(Early(got, expected));
      }
      if Lower(Sha256(sink.hashed)) != asked {
        staging := staging - {path};
        return Some(WrongContent);
      }
      files := files[path := staging[path]];
      staging := staging - {path};
      MarkHave(path, true);
      return None;
    }

    /** What this node answers a peer, correcting an index that claims bytes the disk does not have. */
    method Serve(path: Path, shared: bool, dir: bool, hash: Digest, offset: nat) returns (answer: Answer)
      modifies this`rows
      ensures var (said, missing) := Answered(old(At(path)), shared, dir, hash, offset);
              answer == said && At(path) == if missing then old(At(path)).Marked(false) else old(At(path))
      ensures OthersUntouched(path)
    {
      if !shared || path !in rows || rows[path].removed || !rows[path].have {
        return Decline;
      }
      var row := rows[path];
      if row.hash != Lower(hash) || !dir {
        return Decline;
      }
      if path !in files {
        MarkHave(path, false);
        return Decline;
      }
      return Send(if offset <= row.size then row.size - offset else 0, From(files[path], offset));
    }
  }

  /** The writing end of a partial, with the bytes its hasher has been given. */
  class Sink {
    const blobs: Blobs
    const path: Path
    var hashed: Bytes
    var size: nat

    constructor (blobs: Blobs, path: Path)
      ensures this.blobs == blobs && this.path == path && hashed == [] && size == 0
    {
      this.blobs, this.path, hashed, size := blobs, path, [], 0;
    }

    method Hash(bytes: Bytes)
      modifies this
      ensures hashed == old(hashed) + bytes && size == old(size) + |bytes|
    {
      hashed, size := hashed + bytes, size + |bytes|;
    }

    /** Hash the bytes, then write as many of them as there is room for. */
    method Write(chunk: Chunk) returns (wrote: bool)
      requires path in blobs.staging
      modifies this, blobs`staging
      ensures hashed == old(hashed) + chunk.bytes
      ensures wrote <==> |chunk.bytes| <= chunk.room
      ensures blobs.staging
              == old(blobs.staging)[path := old(blobs.staging[path])
                                            + chunk.bytes[..if wrote then |chunk.bytes| else chunk.room]]
    {
      hashed := hashed + chunk.bytes;
      wrote := |chunk.bytes| <= chunk.room;
      var kept := chunk.bytes[..if wrote then |chunk.bytes| else chunk.room];
      blobs.staging := blobs.staging[path := blobs.staging[path] + kept];
      if wrote {
        size := size + |chunk.bytes|;
      }
    }
  }

  // ---- only the right bytes are put in place ----

  /** While nothing fails, the hash is of exactly what is in the file. */
  lemma {:induction false} HashSpansTheFile(p: Progress, expected: U64, chunks: seq<Chunk>)
    requires p.hashed == p.file
    ensures var (after, stopped) := Receiving(p, expected, chunks);
            stopped.None? ==> after.hashed == after.file
    decreases |chunks|
  {
    if chunks != [] {
      var (next, stopped) := Taking(p, expected, chunks[0]);
      if stopped.None? {
        HashSpansTheFile(next, expected, chunks[1..]);
      }
    }
  }

  /** An attempt either puts in place bytes of the hash asked for, marks them held and leaves no
      partial, or fails and leaves the file and its row as they were. */
  lemma CommitsOnlyWhatWasAsked(d: Place, asked: HashText, t: Try)
    requires t.found.None?
    ensures var (after, failed) := Attempt(d, asked, t);
            if failed.None?
            then
              && after.placed.Some? && asked == Lower(Sha256(after.placed.value))
              && after.staged.None? && after.row == d.Marked(true).row
            else after.placed == d.placed && after.row == d.row
  {
    if t.reply.Sending? && !asked.NotHex? {
      var p := Resumed(d.staged, d.StagedLen());
      HashSpansTheFile(p, t.reply.size, t.chunks);
      assert Attempt(d, asked, t).1.None? ==>
          Attempt(d, asked, t).0.placed == Some(Receiving(p, t.reply.size, t.chunks).0.file);
    }
  }

  /** Bytes found on this node are of the hash looked for. */
  predicate LookedUp(asked: HashText, t: Try) {
    t.found.Some? ==> asked == Lower(Sha256(t.found.value))
  }

  /** Over any run of attempts and sweeps, with senders that lie, cut off or send too much, the file is as
      it was or has the hash asked for; and it is newly marked held only if it has. */
  lemma {:induction false} EveryRunCommitsOnlyWhatWasAsked(d: Place, asked: HashText, happenings: seq<Happening>)
    requires forall i :: 0 <= i < |happenings| && happenings[i].Fetches? ==> LookedUp(asked, happenings[i].t)
    ensures var after := After(d, asked, happenings);
            && (|| (after.placed == d.placed && after.row == d.row)
                || (&& after.placed.Some? && asked == Lower(Sha256(after.placed.value))
                    && after.row == d.Marked(true).row))
    decreases |happenings|
  {
    if happenings != [] {
      if happenings[0].Fetches? && happenings[0].t.found.None? {
        CommitsOnlyWhatWasAsked(d, asked, happenings[0].t);
      }
      EveryRunCommitsOnlyWhatWasAsked(Happened(d, asked, happenings[0]), asked, happenings[1..]);
    }
  }

  lemma {:induction false} ReceivingIsBounded(p: Progress, expected: U64, chunks: seq<Chunk>)
    requires p.got <= expected < U64_LIMIT - 1
    ensures |Receiving(p, expected, chunks).0.file| <= |p.file| + expected - p.got
    decreases |chunks|
  {
    if chunks != [] {
      var (next, stopped) := Taking(p, expected, chunks[0]);
      if stopped.None? {
        ReceivingIsBounded(next, expected, chunks[1..]);
      }
    }
  }

  /** However much a sender sends, a partial grows by no more than it announced. */
  lemma SendersCannotOverfill(d: Place, asked: HashText, t: Try)
    requires t.found.None? && t.reply.Sending? && t.reply.size < U64_LIMIT - 1
    ensures Attempt(d, asked, t).0.StagedLen() <= d.StagedLen() + t.reply.size
  {
    ReceivingIsBounded(Resumed(d.staged, d.StagedLen()), t.reply.size, t.chunks);
  }

  // ---- honest senders ----

  function Flat(chunks: seq<Chunk>): Bytes {
    if chunks == [] then [] else chunks[0].bytes + Flat(chunks[1..])
  }

  /** A sender that holds the original: it announces what is left after the offset asked for, and
      sends that, perhaps cut short; or it is busy. */
  ghost predicate Honest(original: Bytes, offset: nat, t: Try) {
    && t.found.None?
    && (t.reply.Sending? ==>
          t.reply.size == |From(original, offset)| && Flat(t.chunks) <= From(original, offset))
  }

  /** Nothing is cut or out of room. */
  ghost predicate Whole(original: Bytes, offset: nat, t: Try) {
    && Honest(original, offset, t) && t.reply.Sending? && t.closed
    && Flat(t.chunks) == From(original, offset)
    && forall i :: 0 <= i < |t.chunks| ==> |t.chunks[i].bytes| <= t.chunks[i].room
  }

  lemma {:induction false} ReceivingHonestly(p: Progress, expected: U64, chunks: seq<Chunk>)
    requires p.got + |Flat(chunks)| <= expected
    ensures var (after, stopped) := Receiving(p, expected, chunks);
            && p.file <= after.file <= p.file + Flat(chunks)
            && stopped != Some(Overlong)
            && (stopped.None? ==>
                  && after.file == p.file + Flat(chunks)
                  && after.hashed == p.hashed + Flat(chunks)
                  && after.got == p.got + |Flat(chunks)|)
            && ((forall i :: 0 <= i < |chunks| ==> |chunks[i].bytes| <= chunks[i].room) ==> stopped.None?)
    decreases |chunks|
  {
    if chunks != [] {
      var (next, stopped) := Taking(p, expected, chunks[0]);
      if stopped.None? {
        ReceivingHonestly(next, expected, chunks[1..]);
        assert next.file + Flat(chunks[1..]) == p.file + Flat(chunks);
        assert next.hashed + Flat(chunks[1..]) == p.hashed + Flat(chunks);
      }
    }
  }

  /** The partial is the beginning of the original. */
  ghost predicate Begun(original: Bytes, d: Place) {
    d.staged.Some? ==> d.staged.value <= original
  }

  /** An honest attempt on an honest partial puts the original in place, as it must if nothing was cut
      short, or leaves a partial that is no shorter and still the beginning of the original. */
  lemma HonestAttempt(d: Place, original: Bytes, t: Try)
    requires |original| < U64_LIMIT && Begun(original, d) && Honest(original, d.StagedLen(), t)
    ensures var (after, failed) := Attempt(d, Lower(Sha256(original)), t);
            && (failed.None? ==> after == Place(None, Some(original), d.Marked(true).row))
            && (failed.Some? ==>
                  && Begun(original, after) && after.StagedLen() >= d.StagedLen()
                  && after.placed == d.placed && after.row == d.row)
            && (Whole(original, d.StagedLen(), t) ==> failed.None?)
  {
    if t.reply.Sending? {
      var p := Resumed(d.staged, d.StagedLen());
      assert p.file + From(original, d.StagedLen()) == original;
      ReceivingHonestly(p, t.reply.size, t.chunks);
      HashSpansTheFile(p, t.reply.size, t.chunks);
      var (after, stopped) := Receiving(p, t.reply.size, t.chunks);
      assert p.file + Flat(t.chunks) <= original;
      if stopped.None? && after.got == t.reply.size {
        assert after.file == original;
      }
    }
  }

  ghost predicate HonestThroughout(d: Place, original: Bytes, happenings: seq<Happening>)
    decreases |happenings|
  {
    happenings == []
    || (&& (happenings[0].Fetches? ==> Honest(original, d.StagedLen(), happenings[0].t))
        && HonestThroughout(Happened(d, Lower(Sha256(original)), happenings[0]), original, happenings[1..]))
  }

  /** However honest transfers are cut and whenever the node sweeps, what is staged is always the beginning
      of the original, what is in place is what was there or the whole original, and as long as the index
      has a use for the file nothing staged is lost. */
  lemma {:induction false} HonestRun(d: Place, original: Bytes, happenings: seq<Happening>)
    requires |original| < U64_LIMIT && Begun(original, d) && HonestThroughout(d, original, happenings)
    ensures var after := After(d, Lower(Sha256(original)), happenings);
            && Begun(original, after) && (after.placed == d.placed || after.placed == Some(original))
            && (after.Unfinished() ==> d.Unfinished() && after.StagedLen() >= d.StagedLen())
    decreases |happenings|
  {
    if happenings != [] {
      if happenings[0].Fetches? {
        HonestAttempt(d, original, happenings[0].t);
      }
      HonestRun(Happened(d, Lower(Sha256(original)), happenings[0]), original, happenings[1..]);
    }
  }

  // ---- how an attempt ends ----

  /** A partial is gone on from, with a hash over all of it, exactly if it is as long as it was when it was
      asked for; any other is started over. */
  lemma ResumesOnlyWhatWasAskedFor(staged: Option<Bytes>, from: nat)
    ensures var p := Resumed(staged, from);
            && p.hashed == p.file && p.got == 0
            && p.file == if staged.Some? && |staged.value| == from then staged.value else []
  {
  }

  /** There was room for every byte of these. */
  predicate Fits(chunks: seq<Chunk>) {
    forall i :: 0 <= i < |chunks| ==> |chunks[i].bytes| <= chunks[i].room
  }

  lemma {:induction false} ReceivedWholeExactly(p: Progress, expected: U64, chunks: seq<Chunk>)
    requires p.got <= expected < U64_LIMIT - 1
    ensures Receiving(p, expected, chunks).1.None? <==> Fits(chunks) && p.got + |Flat(chunks)| <= expected
    decreases |chunks|
  {
    if chunks != [] {
      assert chunks == [chunks[0]] + chunks[1..];
      var (next, stopped) := Taking(p, expected, chunks[0]);
      if stopped.None? {
        ReceivedWholeExactly(next, expected, chunks[1..]);
      }
    }
  }

  /** The bytes that an attempt goes on from. */
  function Continued(d: Place): Bytes {
    if d.staged.Some? then d.staged.value else []
  }

  /** The stream was closed after bytes for all of which there was room. */
  predicate Clean(t: Try) {
    Fits(t.chunks) && t.closed
  }

  /** A transfer succeeds exactly if the stream is clean, carries just what was announced, and makes the
      partial into bytes of the hash asked for; it is found to be of wrong content exactly if only the last
      is amiss, and to be short exactly if it was clean and carried less. */
  lemma AttemptsEndExactly(d: Place, h: Digest, t: Try)
    requires t.found.None? && t.reply.Sending? && t.reply.size < U64_LIMIT - 1
    ensures var (after, failed) := Attempt(d, Lower(h), t);
            var sent := Flat(t.chunks);
            var all := Continued(d) + sent;
            && (failed.None? <==> Clean(t) && |sent| == t.reply.size && Sha256(all) == h)
            && (failed == Some(WrongContent) <==> Clean(t) && |sent| == t.reply.size && Sha256(all) != h)
            && (forall got :: failed == Some(Early(got, t.reply.size)) <==>
                  Clean(t) && got == |sent| < t.reply.size)
            && (failed.None? ==> after == Place(None, Some(all), d.Marked(true).row))
  {
    var p := Resumed(d.staged, d.StagedLen());
    assert p.file == p.hashed == Continued(d);
    ReceivedWholeExactly(p, t.reply.size, t.chunks);
    ErrorsWhileReceiving(p, t.reply.size, t.chunks);
    if |Flat(t.chunks)| <= t.reply.size {
      ReceivingHonestly(p, t.reply.size, t.chunks);
    }
  }

  /** The transfer with these bytes more. */
  function Grown(p: Progress, bytes: Bytes): Progress {
    Progress(p.hashed + bytes, p.file + bytes, p.got + |bytes|)
  }

  lemma GrownTwice(p: Progress, a: Bytes, b: Bytes)
    ensures Grown(Grown(p, a), b) == Grown(p, a + b) && Grown(p, []) == p
  {
    assert p.hashed + a + b == p.hashed + (a + b) && p.file + a + b == p.file + (a + b);
    assert p.hashed + [] == p.hashed && p.file + [] == p.file;
  }

  lemma {:induction false} ReceivingOn(p: Progress, expected: U64, chunks: seq<Chunk>, i: nat)
    requires i <= |chunks| && Fits(chunks[..i]) && p.got + |Flat(chunks[..i])| <= expected < U64_LIMIT - 1
    ensures Receiving(p, expected, chunks) == Receiving(Grown(p, Flat(chunks[..i])), expected, chunks[i..])
    decreases i
  {
    if i == 0 {
      assert chunks[..0] == [] && chunks[0..] == chunks;
      GrownTwice(p, [], []);
    } else {
      var front := chunks[1..][..i - 1];
      FrontOf(chunks, i);
      assert Taking(p, expected, chunks[0]) == (Grown(p, chunks[0].bytes), None);
      ReceivingOn(Grown(p, chunks[0].bytes), expected, chunks[1..], i - 1);
      GrownTwice(p, chunks[0].bytes, Flat(front));
    }
  }

  lemma FrontOf(chunks: seq<Chunk>, i: nat)
    requires 0 < i <= |chunks|
    ensures var front := chunks[1..][..i - 1];
            && Flat(chunks[..i]) == chunks[0].bytes + Flat(front)
            && (Fits(chunks[..i]) ==> |chunks[0].bytes| <= chunks[0].room && Fits(front))
            && chunks[1..][i - 1..] == chunks[i..]
  {
    var front, all := chunks[1..][..i - 1], chunks[..i];
    assert all[0] == chunks[0] && all[1..] == front;
    assert forall k :: 0 <= k < |front| ==> front[k] == all[k + 1];
  }

  /** What a stopped transfer leaves, and why it stopped, if there was room for all of the first `i` chunks and
      they did not exceed what was announced: those bytes behind what it went on from, and of a chunk for which
      there was too little room as many bytes as fit. */
  lemma StoppedTransfersKeepWhatArrived(d: Place, h: Digest, t: Try, i: nat)
    requires t.found.None? && t.reply.Sending? && i <= |t.chunks|
    requires Fits(t.chunks[..i]) && |Flat(t.chunks[..i])| <= t.reply.size < U64_LIMIT - 1
    ensures var r := Attempt(d, Lower(h), t);
            var kept := Continued(d) + Flat(t.chunks[..i]);
            var stopsHere := i < |t.chunks|;
            var tooMuch := stopsHere && |Flat(t.chunks[..i])| + |t.chunks[i].bytes| > t.reply.size;
            && (tooMuch ==> r == (d.(staged := Some(kept)), Some(Overlong)))
            && (stopsHere && !tooMuch && t.chunks[i].room < |t.chunks[i].bytes| ==>
                  r == (d.(staged := Some(kept + t.chunks[i].bytes[..t.chunks[i].room])), Some(Disk)))
            && (!stopsHere && !t.closed ==> r == (d.(staged := Some(kept)), Some(Stream)))
            && (!stopsHere && t.closed && |Flat(t.chunks)| < t.reply.size ==> r.0 == d.(staged := Some(kept)))
  {
    var p := Resumed(d.staged, d.StagedLen());
    assert p.file == p.hashed == Continued(d);
    ReceivingOn(p, t.reply.size, t.chunks, i);
    assert i < |t.chunks| ==> t.chunks[i..][0] == t.chunks[i];
    assert t.chunks[..|t.chunks|] == t.chunks;
  }

  /** A copy found on this node is put in place without asking anybody; nothing is kept of a peer that
      refuses, or of a request for what is not a hash. */
  lemma AttemptsWithoutATransfer(d: Place, asked: HashText, t: Try)
    ensures var (after, failed) := Attempt(d, asked, t);
            && (t.found.Some? ==> failed.None? && after == Place(d.staged, t.found, d.Marked(true).row))
            && (t.found.None? && asked.NotHex? ==> after == d && failed == Some(BadHash))
            && (t.found.None? && !asked.NotHex? && t.reply.Refused? ==> after == d && failed == Some(Unavailable))
  {
  }

  /** A sweep takes a partial exactly if it has been idle and the index does not list its file as wanted. */
  lemma SweepsTakeExactlyTheAbandoned(d: Place, idle: bool)
    requires d.staged.Some?
    ensures var after := Sweeping(d, idle);
            && after.placed == d.placed && after.row == d.row
            && (after.staged.None? <==> idle && !(d.row.Some? && !d.row.value.removed && !d.row.value.have))
            && (after.staged.Some? ==> after == d)
  {
  }

  // ---- partials that are not what they should be ----

  /** Whoever sends, the staging file is gone exactly when a transfer ran to its announced end. */
  lemma CompletedTransferEmptiesStaging(d: Place, asked: HashText, t: Try)
    requires t.found.None? && !asked.NotHex? && t.reply.Sending?
    ensures var (after, failed) := Attempt(d, asked, t);
            after.staged.None? <==> failed.None? || failed.value.WrongContent?
    ensures var (p, stopped) := Receiving(Resumed(d.staged, d.StagedLen()), t.reply.size, t.chunks);
            Attempt(d, asked, t).0.staged.None? <==> stopped.None? && t.closed && p.got == t.reply.size
  {
    ErrorsWhileReceiving(Resumed(d.staged, d.StagedLen()), t.reply.size, t.chunks);
  }

  lemma {:induction false} ErrorsWhileReceiving(p: Progress, expected: U64, chunks: seq<Chunk>)
    ensures var stopped := Receiving(p, expected, chunks).1;
            stopped.Some? ==> stopped.value.Overlong? || stopped.value.Disk?
    decreases |chunks|
  {
    if chunks != [] {
      var (next, stopped) := Taking(p, expected, chunks[0]);
      if stopped.None? {
        ErrorsWhileReceiving(next, expected, chunks[1..]);
      }
    }
  }

  /** Whatever is staged, a whole honest transfer puts the original in place exactly when the partial
      is the beginning of it, and otherwise throws the partial away. */
  lemma WholeTransferSettles(d: Place, original: Bytes, t: Try)
    requires |original| < U64_LIMIT && Whole(original, d.StagedLen(), t)
    ensures var (after, failed) := Attempt(d, Lower(Sha256(original)), t);
            && after.staged.None?
            && (failed.None? <==> Begun(original, d))
            && (failed.None? ==> after.placed == Some(original))
            && (failed.Some? ==> after == d.(staged := None))
  {
    var p := Resumed(d.staged, d.StagedLen());
    ReceivingHonestly(p, t.reply.size, t.chunks);
    var (after, stopped) := Receiving(p, t.reply.size, t.chunks);
    assert after.file == p.file + From(original, d.StagedLen());
    if Begun(original, d) {
      assert after.file == original;
    } else {
      assert p.file == d.staged.value && p.file <= after.file;
    }
  }

  /** So from any partial whatever, two whole honest transfers are enough. */
  lemma TwoHonestTransfersSuffice(d: Place, original: Bytes, first: Try, second: Try)
    requires |original| < U64_LIMIT && Whole(original, d.StagedLen(), first)
    requires var mid := Attempt(d, Lower(Sha256(original)), first).0;
             Whole(original, mid.StagedLen(), second)
    ensures var asked := Lower(Sha256(original));
            var (mid, failed) := Attempt(d, asked, first);
            var after := if failed.None? then mid else Attempt(mid, asked, second).0;
            after.placed == Some(original) && after.staged.None?
  {
    WholeTransferSettles(d, original, first);
    var (mid, failed) := Attempt(d, Lower(Sha256(original)), first);
    if failed.Some? {
      WholeTransferSettles(mid, original, second);
    }
  }

  // ---- holders ----

  /** The node has the original in place and its index says so. */
  ghost predicate Holds(d: Place, original: Bytes) {
    d.placed == Some(original) && |original| < U64_LIMIT
    && d.row == Some(FileRow(|original|, Lower(Sha256(original)), false, true))
  }

  /** A request is answered with bytes exactly if the group is shared with the peer, the file is listed with that
      hash, here and not removed, and its bytes are in place: those from the offset on, announced as what the
      row leaves after it. Only if nothing but the bytes is missing is the row corrected. */
  lemma AnswersExactly(d: Place, shared: bool, dir: bool, hash: Digest, offset: nat)
    ensures var (answer, missing) := Answered(d, shared, dir, hash, offset);
            var listed := && shared && dir && d.row.Some? && d.row.value.have && !d.row.value.removed
                          && d.row.value.hash == Lower(hash);
            && (answer.Send? <==> listed && d.placed.Some?) && (missing <==> listed && d.placed.None?)
            && (answer.Send? ==>
                  && answer.bytes == (if offset <= |d.placed.value| then d.placed.value[offset..] else [])
                  && answer.size == (if offset <= d.row.value.size then d.row.value.size - offset else 0))
  {
  }

  /** A holder answers with the original's size and bytes from the offset on: it is an honest sender. */
  lemma HoldersAreHonest(d: Place, original: Bytes, offset: nat, t: Try)
    requires Holds(d, original) && t.found.None?
    requires var answer := Answered(d, true, true, Sha256(original), offset).0;
             if answer.Decline? then t.reply == Refused
             else t.reply == Sending(answer.size) && Flat(t.chunks) <= answer.bytes
    ensures Honest(original, offset, t) && t.reply.Sending?
  {
  }

  /** Having downloaded a file from a holder, a node is a holder. */
  lemma DownloadersBecomeHolders(d: Place, original: Bytes, t: Try)
    requires |original| < U64_LIMIT && Begun(original, d) && Whole(original, d.StagedLen(), t)
    requires d.row.Some? && d.row.value == FileRow(|original|, Lower(Sha256(original)), false, d.row.value.have)
    ensures Holds(Attempt(d, Lower(Sha256(original)), t).0, original)
  {
    HonestAttempt(d, original, t);
  }
}
