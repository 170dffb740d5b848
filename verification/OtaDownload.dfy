/** The image download: one HTTP transfer with throttled progress, and the five attempts around it. */
module OtaDownload {
  import opened Wrappers
  import opened Bytes
  import opened OtaStatuses

  /** One item of the response body: bytes, of which the file accepts that many, or a broken transfer. */
  datatype Chunk = Received(data: seq<Byte>, accepted: nat) | Broken {
    predicate Writable() {
      Received? && accepted >= |data|
    }

    function Data(): seq<Byte> {
      if Received? then data else []
    }

    /** What is in the file of a chunk that aborts the transfer. */
    function Remnant(): seq<Byte> {
      if Received? && accepted < |data| then data[..accepted] else []
    }
  }

  datatype Response = Response(contentLength: Option<nat>, creatable: bool, chunks: seq<Chunk>)

  /** Everything the environment decides during one attempt. */
  datatype Attempt = Attempt(staleFile: bool, removable: bool, response: Option<Response>)

  // ----- One transfer -----

  /** A chunk after which the transfer goes on: an empty one is skipped without being written. */
  predicate Usable(c: Chunk) {
    c.Writable()
  }

  /** How many chunks are consumed before the first one that aborts the transfer. */
  function UsablePrefix(chunks: seq<Chunk>): (n: nat)
    ensures n <= |chunks|
    ensures forall i :: 0 <= i < n ==> Usable(chunks[i])
    ensures n < |chunks| ==> !Usable(chunks[n])
  {
    if chunks == [] || !Usable(chunks[0]) then 0 else 1 + UsablePrefix(chunks[1..])
  }

  function Contents(chunks: seq<Chunk>): (data: seq<seq<Byte>>)
    ensures |data| == |chunks|
    ensures forall i | 0 <= i < |chunks| :: data[i] == chunks[i].Data()
  {
    seq(|chunks|, i requires 0 <= i < |chunks| => chunks[i].Data())
  }

  /** The bytes of the body, in their order. */
  function Body(chunks: seq<Chunk>): seq<Byte> {
    Flatten(Contents(chunks))
  }

  lemma BodyUnfolds(chunks: seq<Chunk>)
    requires chunks != []
    ensures Body(chunks) == Body(chunks[..|chunks| - 1]) + chunks[|chunks| - 1].Data()
  {
    assert Contents(chunks)[..|chunks| - 1] == Contents(chunks[..|chunks| - 1]);
  }

  /** Floored percentage, and its saturating conversion to 32 bits. */
  function Percent(downloaded: nat, total: nat): nat
    requires total > 0
  {
    downloaded * 100 / total
  }

  function Saturated(p: nat): I32 {
    if p < 0x8000_0000 then p else 0x7fff_ffff
  }

  /** The byte count of the last update and the byte counts of all updates so far. */
  datatype Meter = Meter(last: nat, updates: seq<nat>)

  /** An update goes out at the end of the file, or when at least ten points were gained. */
  function Advance(m: Meter, downloaded: nat, total: nat): Meter {
    if downloaded == total || (downloaded - m.last) * 10 >= total
    then Meter(downloaded, m.updates + [downloaded])
    else m
  }

  function MeterAfter(chunks: seq<Chunk>, total: nat): Meter {
    if chunks == [] then Meter(0, [])
    else
      var m := MeterAfter(chunks[..|chunks| - 1], total);
      var c := chunks[|chunks| - 1];
      if c.Broken? || c.data == [] then m else Advance(m, |Body(chunks)|, total)
  }

  function Reports(id: OtaId, updates: seq<nat>, total: nat): seq<OtaStatus>
    requires total > 0
  {
    seq(|updates|, i requires 0 <= i < |updates| => Downloading(id, Saturated(Percent(updates[i], total))))
  }

  /** Why an attempt fails, if it does. */
  function Fault(url: string, a: Attempt): Option<OtaError> {
    if a.staleFile && !a.removable then Some(Internal(RemoveOldFile))
    else if a.response.None? then Some(Network(DownloadFailed))
    else
      var r := a.response.value;
      if r.contentLength.None? || r.contentLength.value == 0 then
        Some(Network(NoContentLength(url)))
      else if !r.creatable then Some(Io(CreateFile))
      else
        var n := UsablePrefix(r.chunks);
        if n < |r.chunks| then
          Some(if r.chunks[n].Broken? then Network(ParseResponse)
               else Io(WriteChunk))
        else if |Body(r.chunks)| != r.contentLength.value then Some(Network(Incomplete))
        else None
  }

  predicate Transfers(a: Attempt) {
    && (!a.staleFile || a.removable)
    && a.response.Some?
    && a.response.value.contentLength.Some?
    && a.response.value.contentLength.value > 0
    && a.response.value.creatable
  }

  function Published(id: OtaId, a: Attempt): seq<OtaStatus> {
    if !Transfers(a) then []
    else
      var total := a.response.value.contentLength.value;
      var chunks := a.response.value.chunks;
      Reports(id, MeterAfter(chunks[..UsablePrefix(chunks)], total).updates, total)
  }

  lemma OneMoreReport(id: OtaId, updates: seq<nat>, downloaded: nat, total: nat)
    requires total > 0
    ensures Reports(id, updates + [downloaded], total) ==
      Reports(id, updates, total) + [Downloading(id, Saturated(Percent(downloaded, total)))]
  {
    hide Percent, Saturated;
  }

  lemma MeterUnfolds(chunks: seq<Chunk>, i: nat, total: nat)
    requires i < |chunks|
    ensures Body(chunks[..i + 1]) == Body(chunks[..i]) + chunks[i].Data()
    ensures var m, after := MeterAfter(chunks[..i], total), MeterAfter(chunks[..i + 1], total);
      after == if chunks[i].Data() == [] then m else Advance(m, |Body(chunks[..i + 1])|, total)
  {
    BodyUnfolds(chunks[..i + 1]);
    assert chunks[..i + 1][..i] == chunks[..i];
  }

  lemma NothingYet(id: OtaId, chunks: seq<Chunk>, total: nat)
    requires total > 0
    ensures Body(chunks[..0]) == [] && MeterAfter(chunks[..0], total) == Meter(0, []) && Reports(id, [], total) == []
  {
  }

  /** Writes a chunk, as far as the file accepts it. */
  method CopyChunk(chunk: Chunk) returns (written: seq<Byte>, failed: Option<OtaError>)
    ensures failed.None? <==> Usable(chunk)
    ensures written == if Usable(chunk) then chunk.Data() else chunk.Remnant()
    ensures failed.Some? ==> failed.value == if chunk.Broken? then Network(ParseResponse) else Io(WriteChunk)
  {
    if chunk.Broken? {
      return [], Some(Network(ParseResponse));
    }
    if chunk.accepted < |chunk.data| {
      return chunk.data[..chunk.accepted], Some(Io(WriteChunk));
    }
    written, failed := chunk.data, None;
  }

  /** Reports the progress, if enough was gained. */
  method Track(id: OtaId, downloaded: nat, last: nat, total: nat, ghost updates: seq<nat>)
    returns (reported: nat, report: seq<OtaStatus>, ghost more: seq<nat>)
    requires total > 0
    ensures Meter(reported, more) == Advance(Meter(last, updates), downloaded, total)
    ensures Reports(id, more, total) == Reports(id, updates, total) + report
  {
    if downloaded == total || (downloaded - last) * 10 >= total {
      OneMoreReport(id, updates, downloaded, total);
      return downloaded, [Downloading(id, Saturated(Percent(downloaded, total)))], updates + [downloaded];
    }
    reported, report, more := last, [], updates;
  }

  /** Writes the body chunk by chunk, up to the first one that fails, and reports the progress. */
  method WriteBody(id: OtaId, chunks: seq<Chunk>, total: nat)
    returns (file: seq<Byte>, published: seq<OtaStatus>, failed: Option<OtaError>)
    requires total > 0
    ensures var n := UsablePrefix(chunks);
      && file == Body(chunks[..n]) + (if n == |chunks| then [] else chunks[n].Remnant())
      && published == Reports(id, MeterAfter(chunks[..n], total).updates, total)
      && failed == if n == |chunks| then None
                   else Some(if chunks[n].Broken? then Network(ParseResponse) else Io(WriteChunk))
  {
    hide *;
    NothingYet(id, chunks, total);
    file, published, failed := [], [], None;
    var downloaded: nat, last: nat, i := 0, 0, 0;
    ghost var updates: seq<nat> := [];
    while i < |chunks|
      invariant i <= UsablePrefix(chunks) && failed.None?
      invariant file == Body(chunks[..i]) && downloaded == |file|
      invariant MeterAfter(chunks[..i], total) == Meter(last, updates)
      invariant published == Reports(id, updates, total)
    {
      MeterUnfolds(chunks, i, total);
      var written;
      written, failed := CopyChunk(chunks[i]);
      file := file + written;
      if failed.Some? {
        return;
      }
      if written != [] {
        downloaded := downloaded + |written|;
        var report;
        last, report, updates := Track(id, downloaded, last, total, updates);
        published := published + report;
      }
      i := i + 1;
    }
    assert chunks[..i] == chunks && file == file + [];
  }

  /** One download attempt. `file` is what was written, `published` what was sent to the publisher. */
  method Wget(id: OtaId, a: Attempt)
    returns (file: seq<Byte>, published: seq<OtaStatus>, result: Result<(), OtaError>)
    ensures published == Published(id, a)
    ensures result == match Fault(id.url, a) case None => Ok(()) case Some(e) => Err(e)
    ensures result.Ok? ==> file == Body(a.response.value.chunks)
    ensures forall s <- published :: ShowsProgress(s, id, a)
  {
    PublishedShowsProgress(id, a);
    hide UsablePrefix, MeterAfter, Reports, Flatten, ShowsProgress;
    file, published := [], [];
    if a.staleFile && !a.removable {
      return file, published, Err(Internal(RemoveOldFile));
    }
    if a.response.None? {
      return file, published, Err(Network(DownloadFailed));
    }
    var response := a.response.value;
    if response.contentLength.None? || response.contentLength.value == 0 {
      return file, published, Err(Network(NoContentLength(id.url)));
    }
    var total := response.contentLength.value;
    if !response.creatable {
      return file, published, Err(Io(CreateFile));
    }
    var failed;
    file, published, failed := WriteBody(id, response.chunks, total);
    if failed.Some? {
      return file, published, Err(failed.value);
    }
    assert response.chunks[..|response.chunks|] == response.chunks;
    if |file| == total {
      result := Ok(());
    } else {
      result := Err(Network(Incomplete));
    }
  }

  /** How many bytes the chunks carry. */
  function TotalLength(chunks: seq<Chunk>): nat {
    if chunks == [] then 0
    else
      var last := chunks[|chunks| - 1];
      TotalLength(chunks[..|chunks| - 1]) + if last.Received? then |last.data| else 0
  }

  lemma {:induction false} LengthOfBody(chunks: seq<Chunk>)
    ensures |Body(chunks)| == TotalLength(chunks)
  {
    if chunks != [] {
      BodyUnfolds(chunks);
      LengthOfBody(chunks[..|chunks| - 1]);
    }
  }

  /** The whole image arrives: there is room for it, its length is announced, no chunk is broken or refused by
      the file, and together they have that length. */
  predicate Delivers(a: Attempt) {
    && (a.staleFile ==> a.removable)
    && a.response.Some? && a.response.value.creatable
    && a.response.value.contentLength.Some? && a.response.value.contentLength.value > 0
    && (forall c <- a.response.value.chunks :: c.Received? && c.accepted >= |c.data|)
    && TotalLength(a.response.value.chunks) == a.response.value.contentLength.value
  }

  /** A download succeeds exactly when nothing failed and the chunk lengths sum to the total. */
  lemma SucceedsExactlyWhenComplete(url: string, a: Attempt)
    ensures Fault(url, a).None? <==> Delivers(a)
    ensures Delivers(a) <==>
      && Transfers(a)
      && (forall c <- a.response.value.chunks :: Usable(c))
      && |Body(a.response.value.chunks)| == a.response.value.contentLength.value
  {
    if Transfers(a) {
      var chunks := a.response.value.chunks;
      LengthOfBody(chunks);
      assert UsablePrefix(chunks) < |chunks| ==> chunks[UsablePrefix(chunks)] in chunks;
    }
  }

  lemma TenCover(k: nat, last: nat, total: nat)
    requires last < total && k * total <= 10 * last
    ensures k < 10 && (k + 1) * total == k * total + total
  {
    assert k >= 10 ==> k * total >= 10 * total;
  }

  /** What holds of a meter that has seen so many bytes. */
  predicate WithinBudget(m: Meter, downloaded: nat, total: nat) {
    && m.last <= downloaded
    && |m.updates| <= 10
    && (m.last < total ==> |m.updates| * total <= 10 * m.last)
    && (m.updates == [] ==> m.last == 0)
    && (m.updates != [] ==> m.updates[|m.updates| - 1] == m.last)
    && (downloaded == total ==> m.last == total)
  }

  lemma AdvanceKeepsBudget(m: Meter, before: nat, downloaded: nat, total: nat)
    requires WithinBudget(m, before, total) && before < downloaded <= total
    ensures WithinBudget(Advance(m, downloaded, total), downloaded, total)
  {
    assert m.last < total;
    TenCover(|m.updates|, m.last, total);
  }

  /** Ten times the bytes reported so far cover the total once per update. */
  lemma {:induction false} MeterBudget(chunks: seq<Chunk>, total: nat)
    requires 0 < total && |Body(chunks)| <= total
    ensures WithinBudget(MeterAfter(chunks, total), |Body(chunks)|, total)
  {
    if chunks != [] {
      var prefix, last := chunks[..|chunks| - 1], chunks[|chunks| - 1];
      BodyUnfolds(chunks);
      MeterBudget(prefix, total);
      hide Body, WithinBudget, Advance;
      if last.Data() != [] {
        AdvanceKeepsBudget(MeterAfter(prefix, total), |Body(prefix)|, |Body(chunks)|, total);
      }
    }
  }

  predicate Growing(u: seq<nat>, total: nat) {
    && (forall i | 0 <= i < |u| :: 0 < u[i] <= total)
    && (forall i | 0 < i < |u| :: u[i - 1] < u[i] && (u[i] == total || (u[i] - u[i - 1]) * 10 >= total))
  }

  /** Updates carry strictly growing byte counts, at least a tenth of the file apart until the end. */
  lemma {:induction false} MeterGrows(chunks: seq<Chunk>, total: nat)
    requires 0 < total && |Body(chunks)| <= total
    ensures Growing(MeterAfter(chunks, total).updates, total)
  {
    if chunks != [] {
      var prefix, last := chunks[..|chunks| - 1], chunks[|chunks| - 1];
      BodyUnfolds(chunks);
      MeterGrows(prefix, total);
      MeterBudget(prefix, total);
      hide Body, Advance;
      if last.Data() != [] {
        AdvanceGrows(MeterAfter(prefix, total), |Body(prefix)|, |Body(chunks)|, total);
      }
    }
  }

  lemma AdvanceGrows(m: Meter, before: nat, downloaded: nat, total: nat)
    requires WithinBudget(m, before, total) && before < downloaded <= total && Growing(m.updates, total)
    ensures Growing(Advance(m, downloaded, total).updates, total)
  {
  }

  lemma QuotientBelow(x: nat, q: nat, t: nat)
    requires x < q * t && 0 < t
    ensures x / t < q
  {
    var d := x / t;
    assert d * t <= x;
    assert q <= d ==> q * t <= d * t;
  }

  lemma QuotientAtLeast(x: nat, q: nat, t: nat)
    requires q * t <= x && 0 < t
    ensures q <= x / t
  {
    var d := x / t;
    assert x < (d + 1) * t;
    assert d + 1 <= q ==> (d + 1) * t <= q * t;
  }

  lemma PercentOfPart(a: nat, total: nat)
    requires a <= total && 0 < total
    ensures Percent(a, total) <= 100 && (Percent(a, total) == 100 <==> a == total)
  {
    if a == total {
      QuotientAtLeast(a * 100, 100, total);
      QuotientBelow(a * 100, 101, total);
    } else {
      QuotientBelow(a * 100, 100, total);
    }
  }

  lemma PercentGrows(a: nat, b: nat, total: nat)
    requires a < b <= total && 0 < total
    requires b == total || (b - a) * 10 >= total
    ensures Percent(a, total) < Percent(b, total)
  {
    PercentOfPart(a, total);
    PercentOfPart(b, total);
    if b < total {
      var p := a * 100 / total;
      assert p * total <= a * 100;
      assert (p + 1) * total == p * total + total;
      QuotientAtLeast(b * 100, p + 1, total);
    }
  }

  /** What the server sees of one transfer that does not exceed its announced length: at most ten
      updates, percentages strictly increasing within 1..100, and 100 at the end if and only if the
      whole file arrived. */
  lemma ProgressIsThrottled(chunks: seq<Chunk>, total: nat)
    requires 0 < total && |Body(chunks)| <= total
    ensures var u := MeterAfter(chunks, total).updates;
      && |u| <= 10
      && (forall i, j | 0 <= i < j < |u| :: Percent(u[i], total) < Percent(u[j], total))
      && (forall i | 0 <= i < |u| :: Percent(u[i], total) <= 100)
      && (|Body(chunks)| == total <==> u != [] && Percent(u[|u| - 1], total) == 100)
  {
    var u := MeterAfter(chunks, total).updates;
    MeterBudget(chunks, total);
    MeterGrows(chunks, total);
    forall i, j | 0 <= i < j < |u|
      ensures Percent(u[i], total) < Percent(u[j], total)
    {
      UpdatesSorted(u, total, i, j);
      PercentGrows(u[i], u[j], total);
    }
    forall i | 0 <= i < |u|
      ensures Percent(u[i], total) <= 100 && (Percent(u[i], total) == 100 <==> u[i] == total)
    {
      PercentOfPart(u[i], total);
    }
  }

  lemma {:induction false} UpdatesSorted(u: seq<nat>, total: nat, i: nat, j: nat)
    requires i < j < |u| && forall k | 0 <= k < |u| :: u[k] <= total
    requires forall k | 0 < k < |u| :: u[k - 1] < u[k] && (u[k] == total || (u[k] - u[k - 1]) * 10 >= total)
    ensures u[i] < u[j] && (u[j] == total || (u[j] - u[i]) * 10 >= total)
    decreases j
  {
    if i < j - 1 {
      UpdatesSorted(u, total, i, j - 1);
    }
  }

  /** The percentage is that of so many bytes, rounded down; one that does not fit in 32 bits is the largest that
      does. */
  predicate Shows(percentage: int, done: nat, total: nat) {
    if 100 * done < 0x8000_0000 * total then percentage * total <= 100 * done < (percentage + 1) * total
    else percentage == 0x7fff_ffff
  }

  /** The status tells the share of the announced length that had arrived with one of the chunks. */
  ghost predicate ShowsProgress(s: OtaStatus, id: OtaId, a: Attempt) {
    s.Downloading? && s.id == id && Transfers(a) &&
    exists k: nat | 0 < k <= |a.response.value.chunks| ::
      Shows(s.percentage, TotalLength(a.response.value.chunks[..k]), a.response.value.contentLength.value)
  }

  lemma SaturatedShows(done: nat, total: nat)
    requires total > 0
    ensures Shows(Saturated(Percent(done, total)), done, total)
  {
    var p := Percent(done, total);
    assert p * total <= 100 * done < (p + 1) * total;
    if 100 * done < 0x8000_0000 * total {
      QuotientBelow(done * 100, 0x8000_0000, total);
    } else {
      QuotientAtLeast(done * 100, 0x8000_0000, total);
    }
  }

  /** Each update carries the length of the chunks so far. */
  lemma {:induction false} UpdatesAreLengths(chunks: seq<Chunk>, total: nat)
    ensures forall u <- MeterAfter(chunks, total).updates ::
              exists k: nat | 0 < k <= |chunks| :: u == TotalLength(chunks[..k])
  {
    if chunks != [] {
      var n := |chunks| - 1;
      UpdatesAreLengths(chunks[..n], total);
      LengthOfBody(chunks);
      forall u <- MeterAfter(chunks, total).updates
        ensures exists k: nat | 0 < k <= |chunks| :: u == TotalLength(chunks[..k])
      {
        if u in MeterAfter(chunks[..n], total).updates {
          var k: nat :| 0 < k <= n && u == TotalLength(chunks[..n][..k]);
          assert chunks[..n][..k] == chunks[..k];
        } else {
          assert chunks[..|chunks|] == chunks;
        }
      }
    }
  }

  /** The server is never a tenth of the file behind: what has arrived since the last update is less than that. */
  lemma {:induction false} NeverATenthBehind(chunks: seq<Chunk>, total: nat)
    requires total > 0
    ensures var u := MeterAfter(chunks, total).updates;
      var reported := if u == [] then 0 else u[|u| - 1];
      reported <= TotalLength(chunks) && (TotalLength(chunks) - reported) * 10 < total
    ensures var m := MeterAfter(chunks, total); m.last == if m.updates == [] then 0 else m.updates[|m.updates| - 1]
  {
    LengthOfBody(chunks);
    if chunks != [] {
      NeverATenthBehind(chunks[..|chunks| - 1], total);
    }
  }

  /** Every status of an attempt tells the progress as it was after some chunk. */
  lemma PublishedShowsProgress(id: OtaId, a: Attempt)
    ensures forall s <- Published(id, a) :: ShowsProgress(s, id, a)
  {
    if Transfers(a) {
      var total, chunks := a.response.value.contentLength.value, a.response.value.chunks;
      var usable := chunks[..UsablePrefix(chunks)];
      UpdatesAreLengths(usable, total);
      var updates := MeterAfter(usable, total).updates;
      hide Percent, Saturated, MeterAfter, TotalLength, UsablePrefix, Shows;
      forall i | 0 <= i < |updates|
        ensures ShowsProgress(Downloading(id, Saturated(Percent(updates[i], total))), id, a)
      {
        assert updates[i] in updates;
        var k: nat :| 0 < k <= |usable| && updates[i] == TotalLength(usable[..k]);
        assert usable[..k] == chunks[..k];
        SaturatedShows(updates[i], total);
      }
    }
  }

  // ----- Five attempts -----

  const ATTEMPTS := 5

  /** How each attempt of one download would go. */
  type Attempts = s: seq<Attempt> | |s| == ATTEMPTS
    witness seq(5, _ => Attempt(false, false, None))

  /** What one attempt publishes, and the error it ends in, if any. */
  datatype Transfer = Transfer(published: seq<OtaStatus>, fault: Option<OtaError>)

  function TransferOf(id: OtaId, a: Attempt): (t: Transfer)
    ensures forall s <- t.published :: s.Downloading? && s.id == id
  {
    Transfer(Published(id, a), Fault(id.url, a))
  }

  function Pow2(i: nat): nat {
    if i == 0 then 1 else 2 * Pow2(i - 1)
  }

  /** The seconds slept after the first `k` failures. */
  function Waited(k: nat): nat {
    if k == 0 then 0 else Waited(k - 1) + Pow2(k)
  }

  /** The first transfer that succeeds, or the number of transfers. */
  function FirstSuccess(transfers: seq<Transfer>): (k: nat)
    ensures k <= |transfers|
    ensures forall i | 0 <= i < k :: transfers[i].fault.Some?
    ensures k < |transfers| ==> transfers[k].fault.None?
  {
    if transfers == [] || transfers[0].fault.None? then 0 else 1 + FirstSuccess(transfers[1..])
  }

  /** The statuses sent while the first `k` transfers fail: their progress, each closed by its error. */
  function FailedReports(id: OtaId, transfers: seq<Transfer>, k: nat): seq<OtaStatus>
    requires k <= |transfers|
    requires forall i | 0 <= i < k :: transfers[i].fault.Some?
  {
    if k == 0 then []
    else
      FailedReports(id, transfers, k - 1) + transfers[k - 1].published
      + [Error(transfers[k - 1].fault.value, id)]
  }

  datatype Retried = Retried(published: seq<OtaStatus>, waited: nat, result: Result<(), OtaError>)

  /** `client` tells whether the HTTP client could be set up. */
  function RetryOutcome(id: OtaId, client: bool, transfers: seq<Transfer>): Retried {
    if !client then Retried([], 0, Err(Internal(ClientSetup)))
    else
      var k := FirstSuccess(transfers);
      var failed := FailedReports(id, transfers, k);
      if k < |transfers| then Retried(failed + transfers[k].published, Waited(k), Ok(()))
      else Retried(failed, Waited(k), Err(Internal(TooManyAttempts)))
  }

  function TransfersOf(id: OtaId, attempts: Attempts): (t: seq<Transfer>)
    ensures |t| == ATTEMPTS
    ensures forall x <- t, s <- x.published :: s.Downloading? && s.id == id
  {
    seq(ATTEMPTS, i requires 0 <= i < ATTEMPTS => TransferOf(id, attempts[i]))
  }

  /** The retries succeed exactly when there is a client and one of the attempts delivers the image. */
  lemma RetriesSucceedExactlyWhenDelivered(id: OtaId, client: bool, attempts: Attempts)
    ensures RetryOutcome(id, client, TransfersOf(id, attempts)).result.Ok? <==>
            client && exists a <- attempts :: Delivers(a)
  {
    var transfers := TransfersOf(id, attempts);
    hide Published, Fault, Delivers, FailedReports, Waited;
    forall i | 0 <= i < ATTEMPTS
      ensures transfers[i].fault.None? <==> Delivers(attempts[i])
    {
      SucceedsExactlyWhenComplete(id.url, attempts[i]);
    }
    var k := FirstSuccess(transfers);
    if k < ATTEMPTS {
      assert attempts[k] in attempts;
    }
  }

  /** Tries the download up to five times, as the environment lets each attempt go; `waited` is the
      number of seconds slept. */
  method RetryDownload(id: OtaId, client: bool, attempts: Attempts)
    returns (published: seq<OtaStatus>, waited: nat, result: Result<(), OtaError>)
    ensures Retried(published, waited, result) == RetryOutcome(id, client, TransfersOf(id, attempts))
  {
    hide Published, Fault;
    published, waited := [], 0;
    if !client {
      return published, waited, Err(Internal(ClientSetup));
    }
    ghost var transfers := TransfersOf(id, attempts);
    assert forall k | 0 <= k < ATTEMPTS :: transfers[k] == TransferOf(id, attempts[k]);
    hide TransfersOf, FirstSuccess, RetryOutcome;
    var i := 1;
    while i <= ATTEMPTS
      invariant 1 <= i <= ATTEMPTS + 1
      invariant i - 1 <= FirstSuccess(transfers)
      invariant published == FailedReports(id, transfers, i - 1)
      invariant waited == Waited(i - 1)
    {
      var _, reports, outcome := Wget(id, attempts[i - 1]);
      published := published + reports;
      RetryReached(id, transfers, i - 1);
      if outcome.Ok? {
        return published, waited, Ok(());
      }
      published := published + [Error(outcome.error, id)];
      waited := waited + Pow2(i);
      i := i + 1;
    }
    RetryReached(id, transfers, ATTEMPTS);
    result := Err(Internal(TooManyAttempts));
  }

  /** The retries get to transfer `k`: it is the first to succeed, or the first is a later one. */
  lemma RetryReached(id: OtaId, transfers: seq<Transfer>, k: nat)
    requires k <= FirstSuccess(transfers)
    ensures k < |transfers| && transfers[k].fault.Some? ==> k < FirstSuccess(transfers)
    ensures k < |transfers| && transfers[k].fault.None? ==>
      RetryOutcome(id, true, transfers) ==
        Retried(FailedReports(id, transfers, k) + transfers[k].published, Waited(k), Ok(()))
    ensures k == |transfers| ==>
      RetryOutcome(id, true, transfers) ==
        Retried(FailedReports(id, transfers, k), Waited(k), Err(Internal(TooManyAttempts)))
  {
    hide FailedReports, Waited;
  }

  function Errors(statuses: seq<OtaStatus>): nat {
    if statuses == [] then 0
    else Errors(statuses[..|statuses| - 1]) + (if statuses[|statuses| - 1].Error? then 1 else 0)
  }

  lemma {:induction false} ErrorsAppend(a: seq<OtaStatus>, b: seq<OtaStatus>)
    ensures Errors(a + b) == Errors(a) + Errors(b)
  {
    if b == [] {
      assert a + b == a;
    } else {
      assert (a + b)[..|a + b| - 1] == a + b[..|b| - 1];
      ErrorsAppend(a, b[..|b| - 1]);
    }
  }

  lemma {:induction false} NoErrors(s: seq<OtaStatus>)
    requires forall x <- s :: !x.Error?
    ensures Errors(s) == 0
  {
    if s != [] {
      NoErrors(s[..|s| - 1]);
    }
  }

  lemma {:induction false} FailedReportsCount(id: OtaId, transfers: seq<Transfer>, k: nat)
    requires k <= |transfers|
    requires forall t <- transfers, s <- t.published :: !s.Error?
    requires forall i | 0 <= i < k :: transfers[i].fault.Some?
    ensures Errors(FailedReports(id, transfers, k)) == k
  {
    if k > 0 {
      FailedReportsCount(id, transfers, k - 1);
      var t := transfers[k - 1];
      var head := FailedReports(id, transfers, k - 1);
      NoErrors(t.published);
      ErrorsAppend(head, t.published);
      ErrorsAppend(head + t.published, [Error(t.fault.value, id)]);
    }
  }

  /** Success comes after exactly as many published errors as attempts failed before it; giving up
      means five errors and 62 seconds of waiting. */
  lemma RetryCounts(id: OtaId, transfers: seq<Transfer>)
    requires |transfers| == ATTEMPTS
    requires forall t <- transfers, s <- t.published :: !s.Error?
    ensures var r := RetryOutcome(id, true, transfers);
      && (forall k | 0 <= k < ATTEMPTS ::
           (r.result.Ok? && Errors(r.published) == k) <==>
           (transfers[k].fault.None? && forall i | 0 <= i < k :: transfers[i].fault.Some?))
      && (r.result.Err? <==> forall t <- transfers :: t.fault.Some?)
      && (r.result.Err? ==> Errors(r.published) == ATTEMPTS && r.waited == 62)
  {
    var k := FirstSuccess(transfers);
    FailedReportsCount(id, transfers, k);
    if k < ATTEMPTS {
      assert transfers[k] in transfers;
      NoErrors(transfers[k].published);
      ErrorsAppend(FailedReports(id, transfers, k), transfers[k].published);
    } else {
      assert Pow2(1) == 2 && Pow2(2) == 4 && Pow2(3) == 8 && Pow2(4) == 16 && Pow2(5) == 32;
      assert Waited(1) == 2 && Waited(2) == 6 && Waited(3) == 14 && Waited(4) == 30;
    }
  }
}
