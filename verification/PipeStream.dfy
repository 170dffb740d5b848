/** Transmissions over a pipe: a header that announces a length, a body, and a footer with a status. The
    header and the footer are CBOR, each framed by its length in four bytes. */
module PipeStream {
  import opened Wrappers
  import opened Bytes
  import opened Cbor

  const OK_STATUS: I32 := 0
  const INVALID_DATA: I32 := 22

  datatype Error = NothingFound | InvalidFrame | LimitNotReached | BadStatus(status: int)

  // ----- What is on the pipe -----

  function Frame(payload: seq<Byte>): (frame: seq<Byte>)
    requires |payload| < Pow256(4)
    ensures |frame| == 4 + |payload|
  {
    BigEndian(|payload|, 4) + payload
  }

  function FramedInteger(v: int): (frame: seq<Byte>)
    requires -U64_LIMIT <= v < U64_LIMIT
    ensures |frame| == 4 + Len(v)
  {
    EncodedIsDecoded(v, []);
    Powers();
    Frame(Encode(v))
  }

  /** What a transmission of `body`, announced to be `length` bytes, leaves on the pipe. */
  function Transmission(length: U64, body: seq<Byte>, status: I32): seq<Byte> {
    FramedInteger(length) + body + FramedInteger(status)
  }

  /** One frame off the stream: its payload, and what is behind it. */
  function ReadFrame(s: seq<Byte>): Result<(seq<Byte>, seq<Byte>), Error> {
    if s == [] then Err(NothingFound)
    else if |s| < 4 || |s| - 4 < Value(s[..4]) then Err(InvalidFrame)
    else Ok((s[4..4 + Value(s[..4])], s[4 + Value(s[..4])..]))
  }

  function ReadInteger(s: seq<Byte>, low: int, high: int): Result<(int, seq<Byte>), Error> {
    match ReadFrame(s)
    case Err(e) => Err(e)
    case Ok(frame) =>
      match Decode(frame.0)
      case Some(v) => if low <= v < high then Ok((v, frame.1)) else Err(InvalidFrame)
      case None => Err(InvalidFrame)
  }

  function ReadLength(s: seq<Byte>): (r: Result<(int, seq<Byte>), Error>)
    ensures r.Ok? ==> 0 <= r.value.0 < U64_LIMIT
  {
    ReadInteger(s, 0, U64_LIMIT)
  }

  function ReadStatus(s: seq<Byte>): (r: Result<(int, seq<Byte>), Error>)
    ensures r.Ok? ==> -0x8000_0000 <= r.value.0 < 0x8000_0000
  {
    ReadInteger(s, -0x8000_0000, 0x8000_0000)
  }

  datatype Received = Received(length: U64, body: seq<Byte>, status: I32, rest: seq<Byte>)

  /** A whole transmission off the stream. If the stream ends before the body does, the footer is refused. */
  function Receive(s: seq<Byte>): Result<Received, Error> {
    match ReadLength(s)
    case Err(e) => Err(e)
    case Ok(header) =>
      if |header.1| < header.0 then Err(LimitNotReached)
      else
        match ReadStatus(header.1[header.0..])
        case Err(e) => Err(e)
        case Ok(footer) => Ok(Received(header.0, header.1[..header.0], footer.0, footer.1))
  }

  /** A frame on the wire: the length of its payload in four bytes, which is at most 10, and the payload. */
  lemma FramedBytes(v: int)
    requires -U64_LIMIT <= v < U64_LIMIT
    ensures FramedInteger(v) == [0, 0, 0, |Encode(v)|] + Encode(v)
  {
    EncodedIsDecoded(v, []);
    Powers();
    FourBytes(|Encode(v)|, BigEndian(|Encode(v)|, 4));
    hide Encode, BigEndian;
  }

  // ----- The round trip -----

  lemma FramedIsReadBack(v: int, low: int, high: int, rest: seq<Byte>)
    requires -U64_LIMIT <= low <= v < high <= U64_LIMIT
    ensures ReadInteger(FramedInteger(v) + rest, low, high) == Ok((v, rest))
  {
    EncodedIsDecoded(v, []);
    Powers();
    ValueOfBigEndian(|Encode(v)|, 4);
    var s := FramedInteger(v) + rest;
    assert s[..4] == BigEndian(|Encode(v)|, 4);
    assert s[4..4 + |Encode(v)|] == Encode(v) && s[4 + |Encode(v)|..] == rest;
    assert Encode(v) + [] == Encode(v);
  }

  /** A transmission whose body is as long as announced is received as it was sent, and nothing behind it
      is touched; one whose body is not is never received as sent. */
  lemma RoundTrip(length: U64, body: seq<Byte>, status: I32, rest: seq<Byte>)
    ensures (Receive(Transmission(length, body, status) + rest) == Ok(Received(length, body, status, rest))) <==>
            (|body| == length)
    ensures |Transmission(length, body, status)| == (4 + Len(length)) + |body| + (4 + Len(status))
  {
    hide ReadInteger, FramedInteger;
    var behind := body + (FramedInteger(status) + rest);
    FramedIsReadBack(length, 0, U64_LIMIT, behind);
    assert Transmission(length, body, status) + rest == FramedInteger(length) + behind;
    if |body| == length {
      assert behind[..length] == body && behind[length..] == FramedInteger(status) + rest;
      FramedIsReadBack(status, -0x8000_0000, 0x8000_0000, rest);
    }
  }

  /** The missing bytes of a body are found in what follows it, and a status is read behind them. */
  predicate FilledUp(missing: nat, tail: seq<Byte>) {
    missing <= |tail| && ReadStatus(tail[missing..]).Ok?
  }

  /** The result of reading a body that is filled up from its tail, or of refusing it because it is not. */
  predicate ReceivedFilled(received: Result<Received, Error>, size: nat, body: seq<Byte>, missing: nat,
                           tail: seq<Byte>) {
    && (received.Ok? <==> FilledUp(missing, tail))
    && (received.Ok? ==> received.value.length == size && received.value.body == body + tail[..missing]
                         && ReadStatus(tail[missing..]) == Ok((received.value.status, received.value.rest)))
  }

  /** A transmission with fewer bytes than announced is refused, unless the missing bytes are found in its own
      footer and in what follows it, and a status is read behind them. */
  lemma ShortIsReceivedExactlyWhenFilled(size: U64, body: seq<Byte>, status: I32, rest: seq<Byte>)
    requires |body| < size
    ensures ReceivedFilled(Receive(Transmission(size, body, status) + rest), size, body, size - |body|,
                           FramedInteger(status) + rest)
  {
    hide ReadInteger, FramedInteger;
    var tail, missing := FramedInteger(status) + rest, size - |body|;
    FramedIsReadBack(size, 0, U64_LIMIT, body + tail);
    assert Transmission(size, body, status) + rest == FramedInteger(size) + (body + tail);
    if missing <= |tail| {
      assert (body + tail)[..size] == body + tail[..missing];
      assert (body + tail)[size..] == tail[missing..];
    }
  }

  /** So one that lost its whole body is accepted in front of another: its footer is taken for the body, and the
      header of the other for its status. */
  lemma ShortIsAccepted()
    ensures var footer, next := FramedInteger(OK_STATUS), Transmission(0, [], OK_STATUS);
      Receive(Transmission(6, [], OK_STATUS) + next) == Ok(Received(6, footer, OK_STATUS, footer))
  {
    var footer, next := FramedInteger(OK_STATUS), Transmission(0, [], OK_STATUS);
    assert |footer| == 6 && next == footer + footer;
    hide *;
    var tail := footer + next;
    assert tail[..6] == footer && tail[6..] == footer + footer;
    FramedIsReadBack(0, -0x8000_0000, 0x8000_0000, footer);
    FillsUp(tail, footer);
    ShortIsReceivedExactlyWhenFilled(6, [], 0, next);
    assert [] + footer == footer;
  }

  lemma FillsUp(tail: seq<Byte>, rest: seq<Byte>)
    requires |tail| >= 6 && ReadInteger(tail[6..], -0x8000_0000, 0x8000_0000) == Ok((0, rest))
    ensures FilledUp(6, tail) && ReadStatus(tail[6..]) == Ok((0, rest)) && OK_STATUS == 0
  {
  }

  lemma IntegerInAnyContext(s: seq<Byte>, low: int, high: int, more: seq<Byte>)
    requires ReadInteger(s, low, high).Ok?
    ensures var (v, rest) := ReadInteger(s, low, high).value;
      ReadInteger(s + more, low, high) == Ok((v, rest + more))
  {
    hide Decode, Value;
    var n := Value(s[..4]);
    assert (s + more)[..4] == s[..4];
    assert (s + more)[4..4 + n] == s[4..4 + n];
    assert (s + more)[4 + n..] == s[4 + n..] + more;
  }

  /** What follows a transmission does not change how it is received. */
  lemma ReceivedInAnyContext(s: seq<Byte>, more: seq<Byte>)
    requires Receive(s).Ok?
    ensures var r := Receive(s).value; Receive(s + more) == Ok(r.(rest := r.rest + more))
  {
    hide ReadInteger;
    IntegerInAnyContext(s, 0, U64_LIMIT, more);
    var (length, behind) := ReadLength(s).value;
    IntegerInAnyContext(behind[length..], -0x8000_0000, 0x8000_0000, more);
    assert (behind + more)[..length] == behind[..length];
    assert (behind + more)[length..] == behind[length..] + more;
  }

  /** A transmission that was cut short, anywhere, is not received. */
  lemma CutIsRefused(body: seq<Byte>, status: I32, cut: nat)
    requires |body| < U64_LIMIT && cut < |Transmission(|body|, body, status)|
    ensures Receive(Transmission(|body|, body, status)[..cut]).Err?
  {
    hide Receive, Transmission;
    var whole := Transmission(|body|, body, status);
    if Receive(whole[..cut]).Ok? {
      ReceivedInAnyContext(whole[..cut], whole[cut..]);
      assert whole[..cut] + whole[cut..] == whole + [];
      RoundTrip(|body|, body, status, []);
      assert false;
    }
  }

  /** No two transmissions can be taken for each other, not even with what follows them. */
  lemma Unambiguous(a: seq<Byte>, s: I32, rest: seq<Byte>, b: seq<Byte>, t: I32, more: seq<Byte>)
    requires |a| < U64_LIMIT && |b| < U64_LIMIT
    requires Transmission(|a|, a, s) + rest == Transmission(|b|, b, t) + more
    ensures a == b && s == t && rest == more
  {
    RoundTrip(|a|, a, s, rest);
    RoundTrip(|b|, b, t, more);
  }

  lemma FramedIsShortest(s: seq<Byte>, low: int, high: int)
    requires -U64_LIMIT <= low <= high <= U64_LIMIT && ReadInteger(s, low, high).Ok?
    ensures var (v, rest) := ReadInteger(s, low, high).value;
      && |FramedInteger(v)| + |rest| <= |s|
      && (|FramedInteger(v)| + |rest| == |s| ==> s == FramedInteger(v) + rest)
  {
    hide Decode, Encode, Value, BigEndian, Len;
    var (payload, rest) := ReadFrame(s).value;
    var v := Decode(payload).value;
    EncodingIsShortest(payload, v);
    EncodedIsDecoded(v, []);
    BigEndianOfValue(s[..4]);
    assert s == s[..4] + payload + rest;
  }

  lemma Regroup(a: seq<Byte>, b: seq<Byte>, c: seq<Byte>, d: seq<Byte>)
    ensures a + (b + (c + d)) == a + b + c + d
  {
  }

  /** Whatever is received, the transmission as it is written here would have been the shortest way to send
      it, and the only one of that length. */
  lemma TransmissionIsShortest(s: seq<Byte>)
    requires Receive(s).Ok?
    ensures var r := Receive(s).value;
      var sent := Transmission(r.length, r.body, r.status);
      && |r.body| == r.length
      && |sent| + |r.rest| <= |s|
      && (|sent| + |r.rest| == |s| ==> s == sent + r.rest)
  {
    hide ReadInteger, FramedInteger;
    var (length, behind) := ReadLength(s).value;
    FramedIsShortest(s, 0, U64_LIMIT);
    FramedIsShortest(behind[length..], -0x8000_0000, 0x8000_0000);
    assert behind == behind[..length] + behind[length..];
    var r := Receive(s).value;
    Regroup(FramedInteger(length), r.body, FramedInteger(r.status), r.rest);
  }

  function CheckStatus(status: I32): Result<(), Error> {
    if status != OK_STATUS then Err(BadStatus(status)) else Ok(())
  }

  // ----- The writer -----

  datatype WriteStep = WriteMetadata(size: U64) | WriteBody(remaining: U64) | Written

  class PipeStreamWriter {
    /** What the pipe has accepted. */
    var pipe: seq<Byte>
    var step: WriteStep
    /** Whether the pipe has failed, or has accepted nothing of what it was given. */
    var broken: bool

    constructor (pipe: seq<Byte>, size: U64)
      ensures this.pipe == pipe && step == WriteMetadata(size) && !broken
    {
      this.pipe, step, broken := pipe, WriteMetadata(size), false;
    }

    /** The pipe accepts as much of the buffer as it likes, or fails. */
    method Accept(buf: seq<Byte>) returns (written: Option<nat>)
      modifies this`pipe, this`broken
      ensures written.Some? ==> written.value <= |buf| && pipe == old(pipe) + buf[..written.value]
      ensures written.None? ==> pipe == old(pipe)
      ensures broken <==> old(broken) || written.None? || (written.value == 0 && buf != [])
    {
      if * {
        broken := true;
        return None;
      }
      var n: nat :| n <= |buf|;
      pipe := pipe + buf[..n];
      broken := broken || (n == 0 && buf != []);
      written := Some(n);
    }

    /** Writes one frame, in as many pieces as the pipe wants; after a failure a part of it is left there. */
    method WriteFrame(v: int) returns (ok: bool)
      requires -U64_LIMIT <= v < U64_LIMIT
      requires !broken
      modifies this`pipe, this`broken
      ensures ok <==> !broken
      ensures ok ==> pipe == old(pipe) + FramedInteger(v)
      ensures !ok ==> exists n | 0 <= n <= |FramedInteger(v)| :: pipe == old(pipe) + FramedInteger(v)[..n]
    {
      hide FramedInteger;
      var frame := FramedInteger(v);
      var sent := 0;
      assert pipe == old(pipe) + frame[..0];
      while sent < |frame|
        invariant 0 <= sent <= |frame| && pipe == old(pipe) + frame[..sent] && !broken
      {
        var written := Accept(frame[sent..]);
        if written.None? || written.value == 0 {
          return false;
        }
        assert frame[..sent] + frame[sent..][..written.value] == frame[..sent + written.value];
        sent := sent + written.value;
      }
      ok := true;
    }

    method WriteHeader() returns (ok: bool)
      requires step.WriteMetadata? && !broken
      modifies this
      ensures ok <==> !broken
      ensures ok ==> pipe == old(pipe) + FramedInteger(old(step.size)) && step == WriteBody(old(step.size))
      ensures !ok ==> exists n | 0 <= n <= |FramedInteger(old(step.size))| ::
        pipe == old(pipe) + FramedInteger(old(step.size))[..n]
    {
      ok := WriteFrame(step.size);
      if ok {
        step := WriteBody(step.size);
      }
    }

    /** One write of the body. What does not fit into the announced length is refused as a whole. */
    method Write(buf: seq<Byte>) returns (written: Option<nat>)
      requires step.WriteBody? && !broken
      modifies this
      ensures written.None? || (written.value == 0 && buf != []) <==> broken || |buf| > old(step.remaining)
      ensures step.WriteBody? && |buf| > old(step.remaining) ==> written.None?
      ensures written.Some? ==>
        && written.value <= |buf| <= old(step.remaining) && pipe == old(pipe) + buf[..written.value]
        && step == WriteBody(old(step.remaining) - written.value)
      ensures written.None? ==> pipe == old(pipe) && step == old(step)
    {
      if step.remaining < |buf| {
        return None;
      }
      written := Accept(buf);
      if written.Some? {
        step := WriteBody(step.remaining - written.value);
      }
    }

    method WriteAll(buf: seq<Byte>) returns (ok: bool)
      requires step.WriteBody? && !broken
      modifies this
      ensures ok <==> !broken && |buf| <= old(step.remaining)
      ensures step.WriteBody?
      ensures ok ==>
        |buf| <= old(step.remaining) && pipe == old(pipe) + buf && step == WriteBody(old(step.remaining) - |buf|)
      ensures |buf| > old(step.remaining) ==> !ok && pipe == old(pipe) && step == old(step)
    {
      var sent := 0;
      while sent < |buf|
        invariant 0 <= sent <= |buf| && pipe == old(pipe) + buf[..sent]
        invariant !broken && step.WriteBody? && step.remaining == old(step.remaining) - sent
        invariant |buf| > old(step.remaining) ==> sent == 0 && step == old(step)
      {
        var written := Write(buf[sent..]);
        if written.None? || written.value == 0 {
          return false;
        }
        assert buf[..sent] + buf[sent..][..written.value] == buf[..sent + written.value];
        sent := sent + written.value;
      }
      ok := true;
    }

    /** The footer is written no matter how much of the body was. */
    method WriteFooter(status: I32) returns (ok: bool)
      requires step.WriteBody? && !broken
      modifies this
      ensures ok <==> !broken
      ensures step == Written
      ensures ok ==> pipe == old(pipe) + FramedInteger(status)
    {
      step := Written;
      ok := WriteFrame(status);
    }

    /** A whole download: the chunks that arrive, announced to be `size` bytes, and then whether their digest
        was the expected one. */
    method Send(chunks: seq<seq<Byte>>, digestMatches: bool) returns (ok: bool)
      requires step.WriteMetadata? && !broken
      modifies this
      ensures ok <==> !broken && |Flatten(chunks)| <= old(step.size)
      ensures ok ==>
        pipe == old(pipe) +
             Transmission(old(step.size), Flatten(chunks), if digestMatches then 0 else 22)
    {
      hide FramedInteger;
      var size := step.size;
      ok := WriteHeader();
      if !ok {
        return;
      }
      for i := 0 to |chunks|
        invariant !broken && step.WriteBody? && step.remaining == size - |Flatten(chunks[..i])|
        invariant pipe == old(pipe) + FramedInteger(size) + Flatten(chunks[..i])
      {
        assert chunks[..i + 1][..i] == chunks[..i];
        ok := WriteAll(chunks[i]);
        if !ok {
          NotLonger(chunks, i + 1);
          return;
        }
      }
      assert chunks[..|chunks|] == chunks;
      ok := WriteFooter(if digestMatches then OK_STATUS else INVALID_DATA);
    }
  }

  // ----- The reader -----

  datatype ReadStep = MissingMetadata | ReadBody(length: U64, limit: nat)

  class PipeStreamReader {
    /** What the pipe will still deliver. */
    var pipe: seq<Byte>
    var step: ReadStep

    constructor (pipe: seq<Byte>)
      ensures this.pipe == pipe && step == MissingMetadata
    {
      this.pipe, step := pipe, MissingMetadata;
    }

    method ReadHeader() returns (r: Result<(), Error>)
      requires step.MissingMetadata?
      modifies this
      ensures match ReadLength(old(pipe))
        case Err(e) => r == Err(e)
        case Ok(header) => r == Ok(()) && pipe == header.1 && step == ReadBody(header.0, header.0)
    {
      match ReadLength(pipe)
      case Err(e) => r := Err(e);
      case Ok(header) =>
        pipe, step := header.1, ReadBody(header.0, header.0);
        r := Ok(());
    }

    /** One read of the body: as much as the pipe happens to have, but never beyond the announced length. */
    method Read(space: nat) returns (got: seq<Byte>)
      requires step.ReadBody?
      modifies this
      ensures old(pipe) == got + pipe && |got| <= space && |got| <= old(step.limit)
      ensures step == ReadBody(old(step.length), old(step.limit) - |got|)
      ensures got == [] <==> space == 0 || old(step.limit) == 0 || old(pipe) == []
    {
      var most := if space < step.limit then space else step.limit;
      if |pipe| < most {
        most := |pipe|;
      }
      var n: nat :| n <= most && (n == 0 ==> most == 0);
      got, pipe, step := pipe[..n], pipe[n..], ReadBody(step.length, step.limit - n);
    }

    /** The footer, but not before the whole body was read. */
    method ExpectFooter() returns (r: Result<I32, Error>)
      requires step.ReadBody?
      modifies this
      ensures step == old(step)
      ensures step.limit > 0 ==> r == Err(LimitNotReached) && pipe == old(pipe)
      ensures step.limit == 0 ==>
        match ReadStatus(old(pipe))
        case Err(e) => r == Err(e)
        case Ok(footer) => r == Ok(footer.0) && pipe == footer.1
    {
      if step.limit > 0 {
        return Err(LimitNotReached);
      }
      match ReadStatus(pipe)
      case Err(e) => r := Err(e);
      case Ok(footer) =>
        pipe := footer.1;
        r := Ok(footer.0);
    }

    /** A whole upload: the body as it is read in pieces, and whether the footer says it is good. */
    method Upload(space: nat) returns (body: seq<Byte>, r: Result<(), Error>)
      requires step.MissingMetadata? && space > 0
      modifies this
      ensures match Receive(old(pipe))
        case Err(e) => r == Err(e)
        case Ok(received) =>
          && r == (if received.status == 0 then Ok(()) else Err(BadStatus(received.status)))
          && body == received.body && pipe == received.rest
    {
      body := [];
      r := ReadHeader();
      if r.Err? {
        return;
      }
      ghost var behind := pipe;
      while true
        invariant step.ReadBody? && step.length == ReadLength(old(pipe)).value.0
        invariant behind == body + pipe && |body| + step.limit == step.length
        decreases |pipe|
      {
        var got := Read(space);
        if got == [] {
          break;
        }
        body := body + got;
      }
      assert |body| == step.length ==> behind[..step.length] == body && behind[step.length..] == pipe;
      var footer := ExpectFooter();
      match footer
      case Err(e) => r := Err(e);
      case Ok(status) => r := CheckStatus(status);
    }
  }

  lemma FooterBytes(status: I32)
    ensures var frame := FramedInteger(status); 6 <= |frame| <= 10 && frame[3] == |frame| - 4 && frame[4] == 0x81
  {
    EncodedIsDecoded(status, []);
    Powers();
    FourBytes(|Encode(status)|, BigEndian(|Encode(status)|, 4));
  }

  /** A status takes two bytes at least, and its frame starts with zeros. */
  lemma FrameOfStatus(s: seq<Byte>)
    ensures ReadStatus(s).Ok? ==> |s| >= 6 && (|s| < 256 ==> s[0] == 0 && s[1] == 0 && s[2] == 0)
  {
    if ReadStatus(s).Ok? {
      var payload := ReadFrame(s).value.0;
      EncodingIsShortest(payload, Decode(payload).value);
      if |s| < 256 {
        hide Decode, Encode;
        FourBytes(|payload|, s[..4]);
      }
    }
  }

  /** What is left of a footer once some of it was read as body is not a footer. */
  lemma TailIsNoStatus(status: I32, k: nat)
    requires 0 < k <= |FramedInteger(status)|
    ensures ReadStatus(FramedInteger(status)[k..]).Err?
  {
    hide ReadStatus, FramedInteger;
    var frame := FramedInteger(status);
    FooterBytes(status);
    FrameOfStatus(frame[k..]);
    if |frame| - k >= 6 {
      assert if k == 4 then frame[k..][0] == frame[4] else frame[k..][3 - k] == frame[3];
    }
  }

  lemma FourBytes(n: nat, bytes: seq<Byte>)
    requires |bytes| == 4 && (Value(bytes) == n || (n < Pow256(4) && bytes == BigEndian(n, 4))) && n < 256
    ensures bytes == [0, 0, 0, n]
  {
    Powers();
    if bytes == BigEndian(n, 4) {
      ValueOfBigEndian(n, 4);
    }
    assert Value(bytes) == 256 * Value(bytes[..3]) + bytes[3];
    assert bytes[..3][..2] == bytes[..2] && bytes[..2][..1] == bytes[..1];
    assert Value(bytes[..3]) == 256 * Value(bytes[..2]) + bytes[2];
    assert Value(bytes[..2]) == 256 * Value(bytes[..1]) + bytes[1];
    assert Value(bytes[..1]) == bytes[0];
  }

  /** What one side sends and closes, the other accepts if and only if all that was announced was sent and
      the digest was the expected one; and then it has the body that was sent. */
  lemma AcceptedExactlyWhenComplete(size: U64, body: seq<Byte>, digestMatches: bool)
    requires |body| <= size
    ensures var received := Receive(Transmission(size, body, if digestMatches then OK_STATUS else INVALID_DATA));
      && (received.Ok? <==> |body| == size)
      && (received.Ok? ==> received.value.body == body && received.value.rest == [])
      && ((received.Ok? && CheckStatus(received.value.status).Ok?) <==> (|body| == size && digestMatches))
  {
    hide ReadInteger, FramedInteger, ReadStatus;
    var status := if digestMatches then OK_STATUS else INVALID_DATA;
    var sent := Transmission(size, body, status);
    RoundTrip(size, body, status, []);
    assert sent + [] == sent;
    if |body| < size {
      var behind := body + FramedInteger(status);
      FramedIsReadBack(size, 0, U64_LIMIT, behind);
      assert sent == FramedInteger(size) + behind;
      if size <= |behind| {
        TailIsNoStatus(status, size - |body|);
        assert behind[size..] == FramedInteger(status)[size - |body|..];
      }
    }
  }
}
