/** The adapters a download is written through: progress over limit over digest over a file, none of which
    may count a byte the one below has not accepted. */
module IoAdapters {
  import opened Wrappers
  import opened Bytes

  /** What writing `bytes` at `at` makes of a file. */
  function Overwritten(contents: seq<Byte>, at: nat, bytes: seq<Byte>): seq<Byte>
    requires at <= |contents|
  {
    contents[..at] + bytes + (if at + |bytes| <= |contents| then contents[at + |bytes|..] else [])
  }

  class File {
    var contents: seq<Byte>
    var cursor: nat
    /** Whether a read or a write has failed, or a write has accepted nothing of what it was given. */
    var failed: bool

    ghost predicate Valid()
      reads this
    {
      cursor <= |contents|
    }

    constructor (contents: seq<Byte>)
      ensures Valid() && this.contents == contents && cursor == 0 && !failed
    {
      this.contents, cursor, failed := contents, 0, false;
    }

    /** Writes as much of the buffer as the file system likes, at the cursor, or fails. */
    method Write(buf: seq<Byte>) returns (written: Option<nat>)
      requires Valid()
      modifies this
      ensures Valid()
      ensures written.None? ==> contents == old(contents) && cursor == old(cursor)
      ensures written.Some? ==>
        && written.value <= |buf| && cursor == old(cursor) + written.value
        && contents == Overwritten(old(contents), old(cursor), buf[..written.value])
      ensures failed <==> old(failed) || written.None? || (written.value == 0 && buf != [])
    {
      if * {
        failed := true;
        return None;
      }
      var n: nat :| n <= |buf|;
      contents, cursor := Overwritten(contents, cursor, buf[..n]), cursor + n;
      failed := failed || (n == 0 && buf != []);
      written := Some(n);
    }

    /** Reads some bytes from the cursor, none only at the end of the file. */
    method Read(space: nat) returns (got: Option<seq<Byte>>)
      requires Valid()
      modifies this`cursor, this`failed
      ensures Valid()
      ensures failed <==> old(failed) || got.None?
      ensures got.None? ==> cursor == old(cursor)
      ensures got.Some? ==>
        && |got.value| <= space && cursor == old(cursor) + |got.value|
        && got.value == contents[old(cursor)..cursor]
        && (got.value == [] <==> space == 0 || old(cursor) == |contents|)
    {
      if * {
        failed := true;
        return None;
      }
      var most := if space < |contents| - cursor then space else |contents| - cursor;
      var n: nat :| n <= most && (n == 0 ==> most == 0);
      got := Some(contents[cursor..cursor + n]);
      cursor := cursor + n;
    }
  }

  /** The digest context is the bytes it has absorbed. */
  class Digest {
    const inner: File
    var absorbed: seq<Byte>

    constructor (inner: File)
      ensures this.inner == inner && absorbed == []
    {
      this.inner, absorbed := inner, [];
    }

    /** Absorbs what the file already has, `seek` bytes or else up to its end, and leaves the cursor behind it. */
    static method FromRead(inner: File, seek: nat, space: nat) returns (digest: Option<Digest>)
      requires inner.Valid() && space > 0 && !inner.failed
      modifies inner`cursor, inner`failed
      ensures inner.Valid() && (digest.Some? <==> !inner.failed)
      ensures digest.Some? ==>
        && fresh(digest.value) && digest.value.inner == inner
        && old(inner.cursor) <= inner.cursor
        && digest.value.absorbed == inner.contents[old(inner.cursor)..inner.cursor]
        && (inner.cursor == old(inner.cursor) + seek ||
            (inner.cursor < old(inner.cursor) + seek && inner.cursor == |inner.contents|))
    {
      var d := new Digest(inner);
      if seek == 0 {
        return Some(d);
      }
      var left := seek;
      while true
        invariant 0 <= left && inner.Valid() && !inner.failed && d.inner == inner && fresh(d)
        invariant old(inner.cursor) <= inner.cursor && inner.cursor - old(inner.cursor) == seek - left
        invariant d.absorbed == inner.contents[old(inner.cursor)..inner.cursor]
        decreases |inner.contents| - inner.cursor
      {
        var got := inner.Read(if space < left then space else left);
        if got.None? {
          return None;
        }
        if got.value == [] {
          break;
        }
        d.absorbed := d.absorbed + got.value;
        left := left - |got.value|;
      }
      digest := Some(d);
    }

    /** Absorbs exactly what the file has accepted. */
    method Write(buf: seq<Byte>) returns (written: Option<nat>)
      requires inner.Valid()
      modifies this, inner
      ensures inner.Valid()
      ensures inner.failed <==> old(inner.failed) || written.None? || (written.value == 0 && buf != [])
      ensures written.None? ==>
        inner.contents == old(inner.contents) && inner.cursor == old(inner.cursor) && absorbed == old(absorbed)
      ensures written.Some? ==>
        && written.value <= |buf| && inner.cursor == old(inner.cursor) + written.value
        && inner.contents == Overwritten(old(inner.contents), old(inner.cursor), buf[..written.value])
        && absorbed == old(absorbed) + buf[..written.value]
    {
      written := inner.Write(buf);
      if written.Some? {
        absorbed := absorbed + buf[..written.value];
      }
    }
  }

  class Limit {
    const inner: Digest
    var remaining: U64

    constructor (inner: Digest, total: U64)
      ensures this.inner == inner && remaining == total
    {
      this.inner, remaining := inner, total;
    }

    /** Refuses a buffer that does not fit as a whole; counts what was accepted. */
    method Write(buf: seq<Byte>) returns (written: Option<nat>)
      requires inner.inner.Valid() && !inner.inner.failed
      modifies this, inner, inner.inner
      ensures inner.inner.Valid()
      ensures |buf| > old(remaining) ==> written.None? && !inner.inner.failed
      ensures |buf| <= old(remaining) ==>
        (inner.inner.failed <==> written.None? || (written.value == 0 && buf != []))
      ensures written.None? ==>
        && inner.inner.contents == old(inner.inner.contents) && inner.inner.cursor == old(inner.inner.cursor)
        && inner.absorbed == old(inner.absorbed) && remaining == old(remaining)
      ensures written.Some? ==>
        && written.value <= |buf| && inner.inner.cursor == old(inner.inner.cursor) + written.value
        && inner.inner.contents == Overwritten(old(inner.inner.contents), old(inner.inner.cursor), buf[..written.value])
        && inner.absorbed == old(inner.absorbed) + buf[..written.value]
        && remaining == old(remaining) - written.value
    {
      if remaining < |buf| {
        return None;
      }
      written := inner.Write(buf);
      if written.Some? {
        remaining := remaining - written.value;
      }
    }
  }

  /** The handle of the progress is told the total after each write, as long as it listens. */
  class Progress {
    const inner: Limit
    /** After how many updates the handle is gone, if ever. */
    const listens: Option<nat>
    var total: U64
    var updates: seq<U64>
    ghost const limit: U64

    constructor (inner: Limit, listens: Option<nat>)
      ensures this.inner == inner && this.listens == listens
      ensures total == 0 && updates == [] && limit == inner.remaining
    {
      this.inner, this.listens, total, updates := inner, listens, 0, [];
      limit := inner.remaining;
    }

    ghost predicate Valid()
      reads this, inner, inner.inner, inner.inner.inner
    {
      inner.inner.inner.Valid() && total + inner.remaining == limit
    }

    predicate Gone()
      reads this`updates
    {
      listens.Some? && |updates| >= listens.value
    }

    /** `accepted` bytes of the buffer have gone all the way down, and all the counters agree on that; after
        an error of the progress handle too, although the writer is told nothing was written. */
    method Write(buf: seq<Byte>) returns (written: Option<nat>, ghost accepted: nat)
      requires Valid() && !inner.inner.inner.failed
      modifies this, inner, inner.inner, inner.inner.inner
      ensures Valid() && accepted <= |buf|
      ensures written.None? || (written.value == 0 && buf != []) <==>
              inner.inner.inner.failed || |buf| > old(inner.remaining) || old(Gone())
      ensures var file := inner.inner.inner;
        && file.contents == Overwritten(old(file.contents), old(file.cursor), buf[..accepted])
        && file.cursor == old(file.cursor) + accepted
      ensures inner.inner.absorbed == old(inner.inner.absorbed) + buf[..accepted]
      ensures total == old(total) + accepted
      ensures written.Some? ==> written.value == accepted
      ensures |buf| > old(inner.remaining) ==> written.None? && accepted == 0
      ensures updates == old(updates) || updates == old(updates) + [total]
      ensures written.Some? ==> updates == old(updates) + [total]
    {
      ghost var file := inner.inner.inner;
      accepted := 0;
      written := inner.Write(buf);
      if written.None? {
        assert file.contents == Overwritten(file.contents, file.cursor, []);
        return;
      }
      accepted := written.value;
      if total + written.value >= U64_LIMIT {
        // The sum never exceeds the limit.
        assert false;
      }
      total := total + written.value;
      if Gone() {
        return None, accepted;
      }
      updates := updates + [total];
    }

    /** A whole buffer, in as many writes as it takes. */
    method WriteAll(buf: seq<Byte>) returns (ok: bool, ghost accepted: nat)
      requires Valid() && !inner.inner.inner.failed
      modifies this, inner, inner.inner, inner.inner.inner
      ensures Valid() && accepted <= |buf| && (ok ==> accepted == |buf|)
      ensures !ok ==> inner.inner.inner.failed || |buf| > old(inner.remaining) || Gone()
      ensures ok ==> !inner.inner.inner.failed
      ensures var file := inner.inner.inner;
        && file.contents == Overwritten(old(file.contents), old(file.cursor), buf[..accepted])
        && file.cursor == old(file.cursor) + accepted
      ensures inner.inner.absorbed == old(inner.inner.absorbed) + buf[..accepted]
      ensures total == old(total) + accepted
    {
      hide Overwritten;
      ghost var file := inner.inner.inner;
      ghost var contents, from := file.contents, file.cursor;
      NothingWritten(contents, from);
      assert buf[..0] == [];
      accepted := 0;
      var sent := 0;
      while sent < |buf|
        invariant 0 <= sent == accepted <= |buf|
        invariant Valid() && !file.failed && total == old(total) + sent
        invariant file.contents == Overwritten(contents, from, buf[..sent]) && file.cursor == from + sent
        invariant inner.inner.absorbed == old(inner.inner.absorbed) + buf[..sent]
      {
        var written, n := Write(buf[sent..]);
        OneMorePiece(contents, from, buf, sent, n);
        accepted := sent + n;
        if written.None? || written.value == 0 {
          return false, accepted;
        }
        sent := sent + written.value;
      }
      ok := true;
    }

    /** The chunks of a response, one after the other; `accepted` is what of them has been written. */
    method WriteChunks(chunks: seq<seq<Byte>>) returns (ok: bool, ghost accepted: seq<Byte>)
      requires Valid() && !inner.inner.inner.failed && total == 0
      modifies this, inner, inner.inner, inner.inner.inner
      ensures Valid() && total == |accepted| && (ok ==> accepted == Flatten(chunks))
      ensures ok ==> !inner.inner.inner.failed && |Flatten(chunks)| <= limit
      ensures !ok ==> inner.inner.inner.failed || |Flatten(chunks)| > limit || Gone()
      ensures inner.inner.inner.contents
           == Overwritten(old(inner.inner.inner.contents), old(inner.inner.inner.cursor), accepted)
      ensures inner.inner.absorbed == old(inner.inner.absorbed) + accepted
    {
      ghost var file := inner.inner.inner;
      ghost var contents, from := file.contents, file.cursor;
      assert contents == Overwritten(contents, from, []);
      hide Overwritten;
      accepted := [];
      for i := 0 to |chunks|
        invariant Valid() && !file.failed
        invariant accepted == Flatten(chunks[..i]) && total == |accepted|
        invariant file.contents == Overwritten(contents, from, accepted) && file.cursor == from + |accepted|
        invariant inner.inner.absorbed == old(inner.inner.absorbed) + accepted
      {
        assert chunks[..i + 1][..i] == chunks[..i];
        NotLonger(chunks, i + 1);
        ghost var n;
        ok, n := WriteAll(chunks[i]);
        OverwrittenTwice(contents, from, accepted, chunks[i][..n]);
        accepted := accepted + chunks[i][..n];
        if !ok {
          return;
        }
      }
      assert chunks[..|chunks|] == chunks;
      ok := true;
    }
  }

  lemma NothingWritten(contents: seq<Byte>, at: nat)
    requires at <= |contents|
    ensures Overwritten(contents, at, []) == contents
  {
  }

  /** Two writes, one after the other, are one write of both. */
  lemma OverwrittenTwice(contents: seq<Byte>, at: nat, a: seq<Byte>, b: seq<Byte>)
    requires at <= |contents|
    ensures at + |a| <= |Overwritten(contents, at, a)|
    ensures Overwritten(Overwritten(contents, at, a), at + |a|, b) == Overwritten(contents, at, a + b)
  {
  }

  lemma OneMorePiece(contents: seq<Byte>, at: nat, buf: seq<Byte>, sent: nat, n: nat)
    requires at <= |contents| && sent + n <= |buf|
    ensures buf[..sent] + buf[sent..][..n] == buf[..sent + n]
    ensures at + sent <= |Overwritten(contents, at, buf[..sent])|
    ensures Overwritten(Overwritten(contents, at, buf[..sent]), at + sent, buf[sent..][..n])
         == Overwritten(contents, at, buf[..sent + n])
  {
    OverwrittenTwice(contents, at, buf[..sent], buf[sent..][..n]);
    assert buf[..sent] + buf[sent..][..n] == buf[..sent + n];
  }

  datatype Outcome = Aborted | DigestMismatch | Complete

  /** A download into a file that may already hold a part of it: it goes on at `start`, or at the end of a file that
      is shorter, and the digest is that of what the file has up to there and what was accepted. */
  method DownloadToFile(file: File, start: nat, limit: U64, chunks: seq<seq<Byte>>, expected: seq<Byte>, space: nat,
                        listens: Option<nat>)
    returns (outcome: Outcome, ghost accepted: seq<Byte>)
    requires file.Valid() && file.cursor == 0 && !file.failed && space > 0
    modifies file
    ensures file.Valid() && |accepted| <= limit
    ensures start <= |old(file.contents)| ==>
      && start + |accepted| <= |file.contents| && file.contents[..start] == old(file.contents)[..start]
      && file.contents[start..start + |accepted|] == accepted
      && file.contents[start + |accepted|..] ==
         (if start + |accepted| <= |old(file.contents)| then old(file.contents)[start + |accepted|..] else [])
    ensures start > |old(file.contents)| ==> file.contents == old(file.contents) + accepted
    ensures outcome != Aborted ==> accepted == Flatten(chunks)
    ensures outcome != Aborted ==>
      (outcome.Complete? <==>
        expected == (if start <= |old(file.contents)| then old(file.contents)[..start] else old(file.contents))
                    + accepted)
    ensures |Flatten(chunks)| > limit || file.failed ==> outcome == Aborted
    ensures outcome == Aborted ==> |Flatten(chunks)| > limit || file.failed || listens.Some?
  {
    accepted := [];
    var hashed := Digest.FromRead(file, start, space);
    if hashed.None? {
      return Aborted, accepted;
    }
    var digest := hashed.value;
    var limiter := new Limit(digest, limit);
    var writer := new Progress(limiter, listens);
    var ok;
    ok, accepted := writer.WriteChunks(chunks);
    if !ok {
      return Aborted, accepted;
    }
    outcome := if digest.absorbed == expected then Complete else DigestMismatch;
  }

  /** The digest that is checked is that of the file as it is left, if and only if what was written reaches
      the end of what was there before; otherwise a part of the old contents follows it. */
  lemma DigestCoversTheFile(contents: seq<Byte>, from: nat, accepted: seq<Byte>)
    requires from <= |contents|
    ensures (Overwritten(contents, from, accepted) == contents[..from] + accepted) <==>
            (from + |accepted| >= |contents|)
    ensures contents[..from] + accepted <= Overwritten(contents, from, accepted)
  {
    assert |Overwritten(contents, from, accepted)| ==
      if from + |accepted| <= |contents| then |contents| else from + |accepted|;
  }
}
