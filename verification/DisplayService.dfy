/** The rendering RPCs (einkgrpc/displayservice.go). */
module DisplayService {
  import opened Wrappers
  import opened Panel
  import opened Device
  import opened Bitmap
  import opened RefreshProtocol

  datatype Status = NotOpened
                  | StreamEnded(end: StreamEnd)
                  | FirstNotHeader
                  | AcquireFailed(fault: Fault)
                  | Rejected(verdict: Verdict)
                  | CommitFailed(fault: Fault)
                  | ReplyFailed

  datatype Event = Message(payload: Payload) | End(end: StreamEnd)

  /** The server's end of a Refresh stream. */
  class RefreshStream {
    const messages: seq<Payload>
    const end: StreamEnd
    var next: nat

    constructor (messages: seq<Payload>, end: StreamEnd)
      ensures this.messages == messages && this.end == end && next == 0
    {
      this.messages := messages;
      this.end := end;
      next := 0;
    }

    method Recv() returns (r: Event)
      requires next <= |messages|
      modifies this
      ensures old(next) < |messages| ==> r == Message(messages[old(next)]) && next == old(next) + 1
      ensures old(next) == |messages| ==> r == End(end) && next == old(next)
    {
      if next == |messages| {
        return End(end);
      }
      r := Message(messages[next]);
      next := next + 1;
    }
  }

  /** Everything one rendering call does: its answer, the bytes it leaves in the device memory,
      what it submits, by how many mappings the count ends up higher, and the error it records. */
  datatype Effect = Effect(answer: Result<(), Status>, data: seq<byte>, submits: Option<(Mapping, Region, int)>,
                           leaks: int, records: Option<Fault>)

  function NoEffect(s: Status): Effect {
    Effect(Failure(s), [], None, 0, None)
  }

  /** The last step of both calls: an accepted submission releases the mapping, a refused one
      keeps it, and no handler cancels the frame then. */
  function Committed(m: Mapping, region: Option<Region>, mode: int, data: seq<byte>, send: bool, reply: bool): Effect {
    if send then
      var window := if region.Some? then region.value else m.info.FullRegion();
      Effect(if reply then Success(()) else Failure(ReplyFailed), data, Some((m, window, mode)), 0, None)
    else
      Effect(Failure(CommitFailed(SendBuffer)), data, None, 1, Some(SendBuffer))
  }

  function RefreshEffect(messages: seq<Payload>, end: StreamEnd, grant: Result<Mapping, Fault>,
                         send: bool, reply: bool): Effect {
    if messages == [] then NoEffect(StreamEnded(end))
    else if !messages[0].HeaderPayload? || messages[0].header.None? then NoEffect(FirstNotHeader)
    else if grant.Failure? then NoEffect(AcquireFailed(grant.error)).(records := Some(grant.error))
    else
      var h, m, body := messages[0].header.value, grant.value, messages[1..];
      var verdict := Judge(body, end, h.total, m.size);
      var data := Received(body, h.total, m.size);
      if verdict != Accept then Effect(Failure(Rejected(verdict)), data, None, 0, None)
      else Committed(m, h.region, TranslateMode(h.mode), data, send, reply)
  }

  function FillEffect(argb: uint32, mode: int, grant: Result<Mapping, Fault>, send: bool): Effect {
    if grant.Failure? then NoEffect(AcquireFailed(grant.error)).(records := Some(grant.error))
    else
      var m := grant.value;
      Committed(m, None, TranslateMode(mode), FillPattern(m.info.color, argb, m.size), send, true)
  }

  class DisplayService {
    const display: Display?
    var lastError: Option<Fault>

    constructor (display: Display?)
      ensures this.display == display && lastError == None
    {
      this.display := display;
      lastError := None;
    }

    ghost function Footprint(): set<object> {
      if display == null then {} else {display.device, display.device.mem}
    }

    /** The new state of the device and of this service, given the old one and an effect. */
    twostate predicate Applied(e: Effect)
      requires display != null
      reads this, Footprint()
    {
      var device := display.device;
      && |e.data| <= device.mem.Length
      && device.mem[..] == Overlay(old(device.mem[..]), e.data)
      && (e.submits.Some? ==> e.submits.value.0.size <= device.mem.Length)
      && device.sends == old(device.sends) +
           (if e.submits.None? then []
            else var (m, region, mode) := e.submits.value;
                 [Submission(m.info, region, mode, Overlay(old(device.mem[..]), e.data)[..m.size])])
      && device.mapped == old(device.mapped) + e.leaks
      && lastError == if e.records.Some? then e.records else old(lastError)
    }

    method RecordErr(f: Fault)
      modifies this
      ensures lastError == Some(f)
    {
      lastError := Some(f);
    }

    method Fill(argb: uint32, mode: int, k: Kernel) returns (r: Result<(), Status>)
      modifies this, Footprint()
      ensures display == null ==> r == Failure(NotOpened) && lastError == old(lastError)
      ensures display != null ==>
                var e := FillEffect(argb, mode, Grant(old(display.Open()), display.device.mem.Length, k),
                                    k.send && old(display.Open()));
                r == e.answer && Applied(e)
      ensures r.Success? <==>
                && display != null && old(display.fd) >= 0 && k.buffer.Some? && k.mmap && k.send
                && 0 < k.buffer.value.FrameByteCount() <= display.device.mem.Length
      ensures r.Failure? && display != null ==> display.device.sends == old(display.device.sends)
      ensures r.Success? ==>
                var device, before, info := display.device, old(display.device.sends), k.buffer.value;
                && |device.sends| == |before| + 1 && device.sends[..|before|] == before
                && device.mapped == old(display.device.mapped)
                && device.sends[|before|] ==
                     Submission(info, Region(0, 0, info.virtualWidth, info.virtualHeight),
                                if 1 <= mode <= 16 then mode - 1 else 7, device.mem[..info.FrameByteCount()])
    {
      if display == null {
        return Failure(NotOpened);
      }
      var acquired := display.AcquireFrame(k);
      if acquired.Failure? {
        RecordErr(acquired.error);
        return Failure(AcquireFailed(acquired.error));
      }
      var frame := acquired.value;
      FillSolid(frame, argb);
      var done := frame.Commit(TranslateMode(mode), None, k.send);
      if done.Failure? {
        RecordErr(done.error);
        return Failure(CommitFailed(done.error));
      }
      return Success(());
    }

    method Refresh(stream: RefreshStream, k: Kernel, reply: bool) returns (r: Result<(), Status>)
      requires stream.next == 0
      modifies this, stream, Footprint()
      ensures display == null ==> r == Failure(NotOpened) && lastError == old(lastError)
      ensures display != null ==>
                var e := RefreshEffect(stream.messages, stream.end,
                                       Grant(old(display.Open()), display.device.mem.Length, k),
                                       k.send && old(display.Open()), reply);
                r == e.answer && Applied(e)
      ensures display != null && display.device.sends != old(display.device.sends) ==>
                var device, before := display.device, old(display.device.sends);
                && k.buffer.Some? && 0 < k.buffer.value.FrameByteCount() <= device.mem.Length
                && stream.messages != [] && stream.messages[0].HeaderPayload? && stream.messages[0].header.Some?
                && |device.sends| == |before| + 1 && device.sends[..|before|] == before
                && var info, h, s := k.buffer.value, stream.messages[0].header.value, device.sends[|before|];
                   && s.info == info && s.pixels == device.mem[..info.FrameByteCount()]
                   && s.mode == (if 1 <= h.mode <= 16 then h.mode - 1 else 7)
                   && (h.region.Some? ==> s.region == h.region.value)
                   && (h.region.None? ==> s.region == Region(0, 0, info.virtualWidth, info.virtualHeight))
                   && AllData(stream.messages[1..]) && Concat(stream.messages[1..]) <= s.pixels
      ensures r.Success? ==> display != null && display.device.sends != old(display.device.sends)
    {
      if display == null {
        return Failure(NotOpened);
      }
      var first := stream.Recv();
      if first.End? {
        return Failure(StreamEnded(first.end));
      }
      if !first.payload.HeaderPayload? || first.payload.header.None? {
        return Failure(FirstNotHeader);
      }
      var header := first.payload.header.value;
      var acquired := display.AcquireFrame(k);
      if acquired.Failure? {
        RecordErr(acquired.error);
        return Failure(AcquireFailed(acquired.error));
      }
      var frame := acquired.value;
      RefreshCommitsIff(stream.messages, stream.end, Mapping(frame.info, frame.size), k.send && display.Open(), reply);
      r := Draw(stream, frame, header, k.send, reply);
    }

    /** Refresh once it holds a frame: fill it from the stream, then commit or cancel it. */
    method Draw(stream: RefreshStream, frame: Frame, header: Header, send: bool, reply: bool)
      returns (r: Result<(), Status>)
      requires stream.next == 1 <= |stream.messages| && stream.messages[0] == HeaderPayload(Some(header))
      requires frame.Valid() && !frame.consumed && frame.display == display
      modifies this, stream, frame, Footprint()
      ensures
        var e := RefreshEffect(stream.messages, stream.end, Success(Mapping(frame.info, frame.size)), send && old(display.Open()), reply);
        r == e.answer && Applied(e.(leaks := e.leaks - 1))
    {
      if header.total < 0 || header.total > frame.size {
        frame.Cancel();
        return Failure(Rejected(OutOfRange(header.total)));
      }
      var verdict := Receive(stream, frame, header.total);
      if verdict != Accept {
        frame.Cancel();
        return Failure(Rejected(verdict));
      }
      var done := frame.Commit(TranslateMode(header.mode), header.region, send);
      if done.Failure? {
        RecordErr(done.error);
        return Failure(CommitFailed(done.error));
      }
      return if reply then Success(()) else Failure(ReplyFailed);
    }

    /** Go's `copy` into pixels[at..], over what was drawn before. */
    static method CopyInto(pixels: array<byte>, at: nat, data: seq<byte>, ghost was: seq<byte>, ghost drawn: seq<byte>)
      requires at == |drawn| && at + |data| <= pixels.Length == |was|
      requires pixels[..] == Overlay(was, drawn)
      modifies pixels
      ensures pixels[..] == Overlay(was, drawn + data)
    {
      forall j | 0 <= j < |data| {
        pixels[at + j] := data[j];
      }
    }

    /** The receive loop of Refresh, writing each chunk into the frame as it arrives. */
    method Receive(stream: RefreshStream, frame: Frame, total: int) returns (v: Verdict)
      requires stream.next == 1 <= |stream.messages|
      requires frame.Valid() && !frame.consumed && 0 <= total <= frame.size
      modifies stream, frame.display.device.mem
      ensures v == Judge(stream.messages[1..], stream.end, total, frame.size)
      ensures frame.display.device.mem[..] ==
              Overlay(old(frame.display.device.mem[..]),
                      Received(stream.messages[1..], total, frame.size))
    {
      var pixels := frame.display.device.mem;
      ghost var was := pixels[..];
      ghost var body := stream.messages[1..];
      var written := 0;
      ghost var taken: seq<byte> := [];
      while true
        invariant 1 <= stream.next <= |stream.messages|
        invariant Fits(body, stream.next - 1, total)
        invariant taken == Concat(body[..stream.next - 1]) && written == |taken|
        invariant pixels[..] == Overlay(was, taken)
        decreases |stream.messages| - stream.next
      {
        ghost var n := stream.next - 1;
        var got := stream.Recv();
        if got.End? {
          JudgedAt(body, stream.end, total, frame.size, n);
          if got.end.Broken? {
            return TransportFailed(got.end.code);
          }
          break;
        }
        if !got.payload.Data? {
          JudgedAt(body, stream.end, total, frame.size, n);
          return NotData;
        }
        var data := got.payload.data;
        ConcatNext(body, n);
        var end := written + |data|;
        if end > total {
          JudgedAt(body, stream.end, total, frame.size, n);
          return Overflow;
        }
        CopyInto(pixels, written, data, was, taken);
        taken := taken + data;
        written := end;
      }
      return if written != total then WrongLength(written, total) else Accept;
    }
  }

  /** Given a frame and a driver that takes it, Refresh commits exactly the well-formed streams:
      a header first, then nothing but data up to the client's end of stream, in the announced
      length, which must fit the frame. It then submits precisely the client's bytes; and however
      the call ends, it leaks a mapping only when the driver refused an otherwise good frame. */
  lemma RefreshCommitsIff(messages: seq<Payload>, end: StreamEnd, m: Mapping, send: bool, reply: bool)
    ensures
      var e := RefreshEffect(messages, end, Success(m), send, reply);
      var good := messages != [] && messages[0].HeaderPayload? && messages[0].header.Some?
                  && AllData(messages[1..]) && end == Eof
                  && |Concat(messages[1..])| == messages[0].header.value.total <= m.size;
      && (e.submits.Some? <==> good && send)
      && (e.leaks == if good && !send then 1 else 0)
      && (e.answer == Success(()) <==> good && send && reply)
      && (good ==> e.data == Concat(messages[1..]))
      && (e.submits.Some? ==>
            var h, (mapping, region, mode) := messages[0].header.value, e.submits.value;
            && mapping == m
            && (h.region.Some? ==> region == h.region.value)
            && (h.region.None? ==> region == Region(0, 0, m.info.virtualWidth, m.info.virtualHeight))
            && mode == if 1 <= h.mode <= 16 then h.mode - 1 else 7)
  {
    if messages != [] && messages[0].HeaderPayload? && messages[0].header.Some? {
      AcceptedIff(messages[1..], end, messages[0].header.value.total, m.size);
    }
  }

  /** And what becomes of every other stream: how each failure is told, and that the frame holds the
      first `n` chunks when the next message, if any, is not one that fits. */
  lemma RefreshAnswers(messages: seq<Payload>, end: StreamEnd, grant: Result<Mapping, Fault>, send: bool,
                       reply: bool, n: nat)
    ensures
      var e := RefreshEffect(messages, end, grant, send, reply);
      if messages == [] then e == Effect(Failure(StreamEnded(end)), [], None, 0, None)
      else if !messages[0].HeaderPayload? || messages[0].header.None? then
        e == Effect(Failure(FirstNotHeader), [], None, 0, None)
      else if grant.Failure? then
        e == Effect(Failure(AcquireFailed(grant.error)), [], None, 0, Some(grant.error))
      else
        var total, body := messages[0].header.value.total, messages[1..];
        if total < 0 || total > grant.value.size then
          e == Effect(Failure(Rejected(OutOfRange(total))), [], None, 0, None)
        else if n <= |body| && AllData(body[..n]) && |Concat(body[..n])| <= total
                && (n < |body| && body[n].Data? ==> |Concat(body[..n])| + |body[n].data| > total) then
          && e.data == Concat(body[..n])
          && e.answer ==
               (if n < |body| && body[n].Data? then Failure(Rejected(Overflow))
                else if n < |body| then Failure(Rejected(NotData))
                else if end.Broken? then Failure(Rejected(TransportFailed(end.code)))
                else if |Concat(body[..n])| != total then Failure(Rejected(WrongLength(|Concat(body[..n])|, total)))
                else if !send then Failure(CommitFailed(SendBuffer))
                else if !reply then Failure(ReplyFailed)
                else Success(()))
        else true
  {
    if messages != [] && messages[0].HeaderPayload? && messages[0].header.Some? && grant.Success? {
      var total, body := messages[0].header.value.total, messages[1..];
      if 0 <= total <= grant.value.size && n <= |body| && Fits(body, n, total) {
        JudgedAt(body, end, total, grant.value.size, n);
      }
    }
  }

  /** How each failure of a Fill is told, and what it submits. */
  lemma FillAnswers(argb: uint32, mode: int, grant: Result<Mapping, Fault>, send: bool)
    ensures
      var e := FillEffect(argb, mode, grant, send);
      if grant.Failure? then e == Effect(Failure(AcquireFailed(grant.error)), [], None, 0, Some(grant.error))
      else if !send then
        && e.answer == Failure(CommitFailed(SendBuffer)) && e.submits.None? && e.leaks == 1
        && e.records == Some(SendBuffer)
      else
        && e.answer == Success(()) && e.leaks == 0 && e.records.None?
        && e.submits == Some((grant.value, Region(0, 0, grant.value.info.virtualWidth, grant.value.info.virtualHeight),
                              if 1 <= mode <= 16 then mode - 1 else 7))
  {
  }

  lemma FillBytes(argb: uint32, mode: int, m: Mapping, send: bool, before: seq<byte>)
    requires m.size <= |before| && |FillPattern(m.info.color, argb, m.size)| == m.size
    ensures
      var shown := Overlay(before, FillEffect(argb, mode, Success(m), send).data);
      var r, g, b := argb / 0x1_0000 % 0x100, argb / 0x100 % 0x100, argb % 0x100;
      forall i | 0 <= i < m.size ::
        shown[i] == if !m.info.color then 17 * ((54 * r + 183 * g + 19 * b) / 0x100 / 16)
                    else if i % 3 == 0 then r
                    else if i % 3 == 1 then g
                    else b
  {
    FillPatternBytes(m.info.color, argb, m.size);
  }

  /** A Fill that is submitted shows its colour and nothing of what the frame held before, on every
      panel that a frame can be acquired from, exactly when its geometry makes sense. It fails to
      release its mapping only when the driver refuses. */
  lemma FillShowsOnlyItsColour(argb: uint32, mode: int, open: bool, k: Kernel, m: Mapping, send: bool, before: seq<byte>)
    requires Grant(open, |before|, k) == Success(m)
    ensures
      var e := FillEffect(argb, mode, Success(m), send);
      && (e.submits.Some? <==> send) && (e.leaks == if send then 0 else 1)
      && |e.data| <= |before|
      && (Overlay(before, e.data)[..m.size] == FillPattern(m.info.color, argb, m.size) <==> m.info.Pixels() >= 0)
    ensures m.info.Pixels() >= 0 ==>
              var shown := Overlay(before, FillEffect(argb, mode, Success(m), send).data);
              var r, g, b := argb / 0x1_0000 % 0x100, argb / 0x100 % 0x100, argb % 0x100;
              forall i | 0 <= i < m.size ::
                shown[i] == if !m.info.color then 17 * ((54 * r + 183 * g + 19 * b) / 0x100 / 16)
                            else if i % 3 == 0 then r
                            else if i % 3 == 1 then g
                            else b
  {
    PositiveSizeExactIff(m.info);
    if m.info.Pixels() >= 0 {
      FillCoversFrame(m.info, argb);
      FillBytes(argb, mode, m, send, before);
    }
  }

  /** One rendering call on an open display, with everything that comes from outside. */
  datatype Call = FillCall(argb: uint32, mode: int, grant: Result<Mapping, Fault>, send: bool)
                | RefreshCall(messages: seq<Payload>, end: StreamEnd, grant: Result<Mapping, Fault>, send: bool, reply: bool)
  {
    function Outcome(): Effect {
      match this
      case FillCall(argb, mode, grant, send) => FillEffect(argb, mode, grant, send)
      case RefreshCall(messages, end, grant, send, reply) => RefreshEffect(messages, end, grant, send, reply)
    }

    /** The device call that failed, as the client was told. */
    function FaultTold(): Option<Fault> {
      match Outcome().answer
      case Failure(AcquireFailed(fault)) => Some(fault)
      case Failure(CommitFailed(fault)) => Some(fault)
      case _ => None
    }
  }

  /** The recorded error after any calls, each applied as Fill and Refresh promise. */
  function Recorded(before: Option<Fault>, calls: seq<Call>): Option<Fault>
    decreases |calls|
  {
    if calls == [] then before
    else
      var records := calls[0].Outcome().records;
      Recorded(if records.Some? then records else before, calls[1..])
  }

  /** Over any Fills and Refreshes the error that Health reports is that of the latest call whose
      client heard of a failed device call: neither a rejected stream nor a success replaces it. */
  lemma {:induction false} RecordedIsLatest(before: Option<Fault>, calls: seq<Call>, k: nat)
    requires k <= |calls| && forall j | k <= j < |calls| :: calls[j].FaultTold().None?
    requires k > 0 ==> calls[k - 1].FaultTold().Some?
    ensures Recorded(before, calls) == if k == 0 then before else calls[k - 1].FaultTold()
    decreases |calls|
  {
    if calls != [] {
      var records := calls[0].Outcome().records;
      assert records == calls[0].FaultTold();
      RecordedIsLatest(if records.Some? then records else before, calls[1..], if k == 0 then 0 else k - 1);
    }
  }
}
