/** The command line's upload loop (tableaux-cli/commands.go) and its meeting with the server. */
module Client {
  import opened Wrappers
  import opened Panel
  import opened Device
  import opened RefreshProtocol
  import opened DisplayService

  /** Where the loop stands: at an offset, or how it ended. A slice with bad bounds panics. */
  datatype Loop = At(off: int) | Finished | SendFailed | Panicked

  function LoopStep(length: nat, chunk: int, fails: bool, s: Loop): Loop {
    if !s.At? then s
    else if s.off >= length then Finished
    else if s.off < 0 || s.off + chunk < s.off then Panicked
    else if fails then SendFailed
    else At(s.off + chunk)
  }

  /** `failAt` is the first send that fails, if any: the connection breaks, or five minutes are over. */
  function LoopAfter(length: nat, chunk: int, failAt: Option<nat>, steps: nat): Loop {
    if steps == 0 then At(0)
    else LoopStep(length, chunk, failAt == Some(steps - 1), LoopAfter(length, chunk, failAt, steps - 1))
  }

  /** Some send fails while there is something to send. */
  predicate Cut(length: nat, chunk: nat, failAt: Option<nat>) {
    failAt.Some? && failAt.value * chunk < length
  }

  lemma Distribute(n: int, chunk: int)
    ensures n * chunk == (n - 1) * chunk + chunk
  {
  }

  lemma Scale(a: nat, b: nat, c: nat)
    requires a <= b
    ensures a * c <= b * c
  {
  }

  lemma ScaleUp(a: nat, c: nat)
    requires 1 <= c
    ensures a <= a * c
  {
  }

  /** With a size of zero the offset never moves. */
  lemma {:induction false} LoopForm(length: nat, chunk: nat, failAt: Option<nat>, steps: nat)
    ensures LoopAfter(length, chunk, failAt, steps) ==
            if Cut(length, chunk, failAt) && failAt.value < steps then SendFailed
            else if steps == 0 || (steps - 1) * chunk < length then At(steps * chunk) else Finished
  {
    if steps > 0 {
      LoopForm(length, chunk, failAt, steps - 1);
      Distribute(steps, chunk);
      Distribute(steps - 1, chunk);
    }
  }

  lemma {:induction false} LoopPanics(length: nat, chunk: int, failAt: Option<nat>, steps: nat)
    requires chunk < 0 && length > 0
    ensures LoopAfter(length, chunk, failAt, steps) == if steps == 0 then At(0) else Panicked
  {
    if steps > 0 {
      LoopPanics(length, chunk, failAt, steps - 1);
    }
  }

  ghost predicate EndsAs(length: nat, chunk: int, failAt: Option<nat>, end: Loop) {
    exists steps: nat :: LoopAfter(length, chunk, failAt, steps) == end
  }

  /** How the loop may end, read off its closed form. */
  lemma EndIsDue(length: nat, chunk: nat, failAt: Option<nat>, steps: nat)
    ensures
      var end := LoopAfter(length, chunk, failAt, steps);
      && end != Panicked
      && (end == SendFailed ==> Cut(length, chunk, failAt))
      && (end == Finished ==> length == 0 || (chunk >= 1 && !Cut(length, chunk, failAt)))
  {
    LoopForm(length, chunk, failAt, steps);
    if Cut(length, chunk, failAt) && 0 < steps <= failAt.value {
      Scale(steps - 1, failAt.value, chunk);
    }
  }

  lemma EndIsReached(length: nat, chunk: nat, failAt: Option<nat>)
    ensures Cut(length, chunk, failAt) ==> EndsAs(length, chunk, failAt, SendFailed)
    ensures length == 0 || (chunk >= 1 && !Cut(length, chunk, failAt)) ==> EndsAs(length, chunk, failAt, Finished)
  {
    if Cut(length, chunk, failAt) {
      LoopForm(length, chunk, failAt, failAt.value + 1);
    } else if length == 0 || chunk >= 1 {
      LoopForm(length, chunk, failAt, length + 1);
      if chunk >= 1 {
        ScaleUp(length, chunk);
      }
    }
  }

  /** `--chunk-bytes` is not validated: the upload finishes exactly when there is nothing to send, or
      the size is positive and no send fails before everything is sent. A size of zero sends empty
      chunks until a send fails; a negative one panics on the first slice. */
  lemma UploadEndsIff(length: nat, chunk: int, failAt: Option<nat>)
    ensures EndsAs(length, chunk, failAt, Finished) <==>
              length == 0 || (chunk >= 1 && (failAt.Some? ==> length <= failAt.value * chunk))
    ensures EndsAs(length, chunk, failAt, SendFailed) <==>
              chunk >= 0 && failAt.Some? && failAt.value * chunk < length
    ensures EndsAs(length, chunk, failAt, Panicked) <==> chunk < 0 && length > 0
  {
    if chunk >= 0 {
      EndIsReached(length, chunk, failAt);
      forall end | EndsAs(length, chunk, failAt, end)
        ensures
          && end != Panicked
          && (end == SendFailed ==> Cut(length, chunk, failAt))
          && (end == Finished ==> length == 0 || (chunk >= 1 && !Cut(length, chunk, failAt)))
      {
        var steps: nat :| LoopAfter(length, chunk, failAt, steps) == end;
        EndIsDue(length, chunk, failAt, steps);
      }
    } else if length > 0 {
      LoopPanics(length, chunk, failAt, 1);
      forall steps: nat ensures LoopAfter(length, chunk, failAt, steps) !in {Finished, SendFailed} {
        LoopPanics(length, chunk, failAt, steps);
      }
    } else {
      NothingToSend(chunk, failAt, 1);
      forall steps: nat ensures LoopAfter(0, chunk, failAt, steps) !in {Panicked, SendFailed} {
        NothingToSend(chunk, failAt, steps);
      }
    }
  }

  lemma {:induction false} NothingToSend(chunk: int, failAt: Option<nat>, steps: nat)
    ensures LoopAfter(0, chunk, failAt, steps) == if steps == 0 then At(0) else Finished
  {
    if steps > 0 {
      NothingToSend(chunk, failAt, steps - 1);
    }
  }

  lemma FewestChunks(length: nat, chunk: nat, failAt: Option<nat>, steps: nat)
    requires steps > 0 && LoopAfter(length, chunk, failAt, steps).At?
    requires LoopAfter(length, chunk, failAt, steps + 1).Finished?
    ensures (steps - 1) * chunk < length <= steps * chunk
  {
    LoopForm(length, chunk, failAt, steps);
  }

  /** One more message, with what comes next of the file. */
  method SendChunk(pixels: seq<byte>, body: seq<Payload>, off: nat, hi: nat) returns (r: seq<Payload>)
    requires off <= hi <= |pixels| && AllData(body) && Concat(body) == pixels[..off]
    ensures r == body + [Data(pixels[off..hi])]
    ensures AllData(r) && Concat(r) == pixels[..hi]
  {
    r := body + [Data(pixels[off..hi])];
    ConcatSnoc(body, pixels[off..hi]);
    assert pixels[..off] + pixels[off..hi] == pixels[..hi];
  }

  /** The messages of one upload after its header that were sent, and how the loop ended. */
  method SendChunks(pixels: seq<byte>, chunk: int, failAt: Option<nat>) returns (body: seq<Payload>, end: Loop)
    requires pixels == [] || chunk != 0 || failAt.Some?
    ensures LoopAfter(|pixels|, chunk, failAt, |body|).At?
    ensures !end.At? && end == LoopAfter(|pixels|, chunk, failAt, |body| + 1)
    ensures AllData(body) && Concat(body) <= pixels
    ensures end.Finished? ==> Concat(body) == pixels && forall i | 0 <= i < |body| :: 0 < |body[i].data| <= chunk
    ensures end.SendFailed? ==> failAt == Some(|body|)
  {
    var off := 0;
    body := [];
    while off < |pixels|
      invariant AllData(body)
      invariant LoopAfter(|pixels|, chunk, failAt, |body|) == At(off)
      invariant 0 <= off
      invariant Concat(body) == pixels[..if off < |pixels| then off else |pixels|]
      invariant chunk < 1 ==> off == 0
      invariant chunk >= 1 ==> forall i | 0 <= i < |body| :: 0 < |body[i].data| <= chunk
      invariant failAt.Some? ==> |body| <= failAt.value
      decreases if chunk >= 1 then |pixels| - off else if failAt.Some? then failAt.value - |body| else 0
    {
      var hi := if off + chunk > |pixels| then |pixels| else off + chunk;
      if hi < off {
        return body, Panicked;
      }
      if failAt == Some(|body|) {
        return body, SendFailed;
      }
      body := SendChunk(pixels, body, off, hi);
      off := off + chunk;
    }
    end := Finished;
  }

  /** A finished upload has sent the whole file in as few chunks as the size allows, none empty. */
  method Upload(pixels: seq<byte>, chunk: int, failAt: Option<nat>) returns (body: seq<Payload>, end: Loop)
    requires pixels == [] || chunk != 0 || failAt.Some?
    ensures !end.At? && end == LoopAfter(|pixels|, chunk, failAt, |body| + 1)
    ensures AllData(body) && Concat(body) <= pixels
    ensures end.Finished? ==> Concat(body) == pixels && forall i | 0 <= i < |body| :: 0 < |body[i].data| <= chunk
    ensures end.Finished? && pixels != [] ==> (|body| - 1) * chunk < |pixels| <= |body| * chunk
    ensures end.SendFailed? ==> failAt == Some(|body|)
  {
    body, end := SendChunks(pixels, chunk, failAt);
    if end.Finished? && pixels != [] {
      FewestChunks(|pixels|, chunk, failAt, |body|);
    }
  }

  lemma ConcatSnoc(body: seq<Payload>, data: seq<byte>)
    requires AllData(body)
    ensures AllData(body + [Data(data)]) && Concat(body + [Data(data)]) == Concat(body) + data
  {
    assert (body + [Data(data)])[..|body|] == body;
  }

  /** Client and server compose to the identity. Whatever way the client cut it, a file reaches the
      driver exactly when it is no larger than the frame, and then the frame starts with the file. */
  lemma UploadRoundTrip(pixels: seq<byte>, body: seq<Payload>, mode: int, m: Mapping)
    requires AllData(body) && Concat(body) == pixels
    ensures
      var e := RefreshEffect([HeaderPayload(Some(Header(mode, None, |pixels|)))] + body, Eof, Success(m), true, true);
      && (e.submits.Some? <==> |pixels| <= m.size)
      && (e.submits.Some? ==> e.answer == Success(()) && e.leaks == 0 && e.data == pixels
                              && e.submits.value.1 == m.info.FullRegion())
      && (e.submits.None? ==> e.data == [])
  {
    var messages := [HeaderPayload(Some(Header(mode, None, |pixels|)))] + body;
    assert messages[1..] == body;
    RefreshCommitsIff(messages, Eof, m, true, true);
  }
}
