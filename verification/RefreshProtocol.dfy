/** The client-streaming Refresh call, as values: what a stream carries and what the server
    must make of it (einkgrpc/displayservice.go, einkproto/display.proto). */
module RefreshProtocol {
  import opened Wrappers
  import opened Panel

  const AUTO := 7

  /** The driver's number for a waveform mode: the wire's minus one, and Auto for any other. */
  function TranslateMode(wire: int): int {
    if 1 <= wire <= 16 then wire - 1 else AUTO
  }

  datatype Header = Header(mode: int, region: Option<Region>, total: int)

  /** One message. A header payload may lack its header, and a message its payload. */
  datatype Payload = HeaderPayload(header: Option<Header>) | Data(data: seq<byte>) | NoPayload

  /** How a stream ends, for good: the client closed it, or the transport failed. */
  datatype StreamEnd = Eof | Broken(code: int)

  /** What became of the messages after the header. */
  datatype Verdict = Accept
                   | OutOfRange(total: int)
                   | TransportFailed(code: int)
                   | NotData
                   | Overflow
                   | WrongLength(got: nat, want: int)

  predicate AllData(body: seq<Payload>) {
    forall i | 0 <= i < |body| :: body[i].Data?
  }

  /** The bytes that a run of data chunks carries. */
  function Concat(body: seq<Payload>): seq<byte>
    requires AllData(body)
  {
    if body == [] then [] else Concat(body[..|body| - 1]) + body[|body| - 1].data
  }

  /** The first `k` messages are data chunks and do not exceed the announced total. */
  predicate Fits(body: seq<Payload>, k: nat, total: int)
    requires k <= |body|
  {
    AllData(body[..k]) && |Concat(body[..k])| <= total
  }

  lemma {:induction false} ConcatPrefix(body: seq<Payload>, j: nat, k: nat)
    requires j <= k <= |body| && AllData(body[..k])
    ensures AllData(body[..j])
    ensures Concat(body[..j]) <= Concat(body[..k])
    decreases k
  {
    assert forall i | 0 <= i < j :: body[..j][i] == body[..k][i];
    if j < k {
      assert body[..k][..k - 1] == body[..k - 1];
      ConcatPrefix(body, j, k - 1);
    }
  }

  lemma ConcatNext(body: seq<Payload>, k: nat)
    requires k < |body| && AllData(body[..k]) && body[k].Data?
    ensures AllData(body[..k + 1])
    ensures Concat(body[..k + 1]) == Concat(body[..k]) + body[k].data
  {
    assert body[..k + 1][..k] == body[..k];
    assert forall i | 0 <= i < k + 1 :: body[..k + 1][i] == if i < k then body[..k][i] else body[k];
  }

  /** How many messages the server takes in: the longest run that fits. */
  function Reach(body: seq<Payload>, total: int, from: nat := 0): (k: nat)
    requires from <= |body| && Fits(body, from, total)
    ensures from <= k <= |body| && Fits(body, k, total)
    ensures k < |body| ==> !Fits(body, k + 1, total)
    decreases |body| - from
  {
    if from < |body| && Fits(body, from + 1, total) then Reach(body, total, from + 1) else from
  }

  /** Being the longest run that fits pins the number down. */
  lemma ReachUnique(body: seq<Payload>, total: int, k: nat)
    requires 0 <= total && k <= |body| && Fits(body, k, total)
    requires k < |body| ==> !Fits(body, k + 1, total)
    ensures k == Reach(body, total)
  {
    var r := Reach(body, total);
    if k < r {
      ConcatPrefix(body, k + 1, r);
    } else if r < k {
      ConcatPrefix(body, r + 1, k);
    }
  }

  /** The data the server leaves in a frame of `size` bytes, accepted or not. */
  function Received(body: seq<Payload>, total: int, size: nat): (d: seq<byte>)
    ensures |d| <= size
  {
    if 0 <= total <= size then Concat(body[..Reach(body, total)]) else []
  }

  function Judge(body: seq<Payload>, end: StreamEnd, total: int, size: nat): Verdict {
    if !(0 <= total <= size) then OutOfRange(total)
    else
      var k := Reach(body, total);
      if k < |body| then (if body[k].Data? then Overflow else NotData)
      else if end.Broken? then TransportFailed(end.code)
      else if |Concat(body[..k])| != total then WrongLength(|Concat(body[..k])|, total)
      else Accept
  }

  /** The verdict, once the first `n` messages fit and the next one, if any, does not. */
  lemma JudgedAt(body: seq<Payload>, end: StreamEnd, total: int, size: nat, n: nat)
    requires 0 <= total <= size && n <= |body| && Fits(body, n, total)
    ensures n == |body| || !body[n].Data? || |Concat(body[..n])| + |body[n].data| > total ==>
              && Received(body, total, size) == Concat(body[..n])
              && Judge(body, end, total, size) ==
                   if n < |body| then (if body[n].Data? then Overflow else NotData)
                   else if end.Broken? then TransportFailed(end.code)
                   else if |Concat(body[..n])| != total then WrongLength(|Concat(body[..n])|, total)
                   else Accept
  {
    if n < |body| && body[n].Data? {
      ConcatNext(body, n);
    } else if n < |body| {
      assert !body[..n + 1][n].Data?;
    }
    if n == |body| || !Fits(body, n + 1, total) {
      ReachUnique(body, total, n);
    }
  }

  /** The whole protocol in one line: a body is taken exactly when it is all data, closed by the
      client, and as long as announced. Refusing an overflow early never costs a good stream. */
  lemma {:induction false} AcceptedIff(body: seq<Payload>, end: StreamEnd, total: int, size: nat)
    ensures Judge(body, end, total, size) == Accept
       <==> AllData(body) && end == Eof && |Concat(body)| == total && total <= size
    ensures Judge(body, end, total, size) == Accept ==> Received(body, total, size) == Concat(body)
  {
    assert body[..|body|] == body;
    if AllData(body) && |Concat(body)| == total {
      ReachUnique(body, total, |body|);
    }
  }

  /** How the bytes are cut into chunks, empty ones included, changes neither the verdict nor, short
      of an overflow, the bytes left in the frame. */
  lemma {:induction false} ChunkingIrrelevant(body: seq<Payload>, other: seq<Payload>, end: StreamEnd, total: int, size: nat)
    requires AllData(body) && AllData(other) && Concat(body) == Concat(other)
    ensures Judge(body, end, total, size) == Judge(other, end, total, size)
    ensures Judge(body, end, total, size) != Overflow ==>
              Received(body, total, size) == Received(other, total, size)
  {
    if 0 <= total <= size {
      ReachesAllIff(body, total);
      ReachesAllIff(other, total);
    }
  }

  lemma ReachesAllIff(body: seq<Payload>, total: int)
    requires AllData(body) && 0 <= total
    ensures Reach(body, total) == |body| <==> |Concat(body)| <= total
    ensures body[..|body|] == body
  {
    assert body[..|body|] == body;
    if |Concat(body)| <= total {
      ReachUnique(body, total, |body|);
    }
  }

  /** Two ways of cutting these bytes leave different data in the frame. */
  ghost predicate CuttingShows(bytes: seq<byte>, total: int, size: nat) {
    exists body: seq<Payload>, other: seq<Payload> ::
      && AllData(body) && AllData(other) && Concat(body) == bytes && Concat(other) == bytes
      && Received(body, total, size) != Received(other, total, size)
  }

  /** The chunking shows exactly in a stream that overflows an announced length which is itself
      possible and not zero: the chunks before the overflow are already in the frame. */
  lemma CuttingShowsIff(bytes: seq<byte>, total: int, size: nat)
    ensures CuttingShows(bytes, total, size) <==> 0 < total <= size && total < |bytes|
  {
    if 0 < total <= size && total < |bytes| {
      CutAtTotal(bytes, total);
      OneChunk(bytes, total);
    } else {
      forall body: seq<Payload>, other: seq<Payload> |
        AllData(body) && AllData(other) && Concat(body) == bytes && Concat(other) == bytes
        ensures Received(body, total, size) == Received(other, total, size)
      {
        if 0 <= total <= size {
          ReachesAllIff(body, total);
          ReachesAllIff(other, total);
        }
      }
    }
  }

  lemma CutAtTotal(bytes: seq<byte>, total: nat)
    requires 0 < total < |bytes|
    ensures
      var body := [Data(bytes[..total]), Data(bytes[total..])];
      AllData(body) && Concat(body) == bytes && Concat(body[..Reach(body, total)]) == bytes[..total]
  {
    var body := [Data(bytes[..total]), Data(bytes[total..])];
    assert Concat(body[..0]) == [];
    ConcatNext(body, 0);
    ConcatNext(body, 1);
    assert body[..2] == body;
    ReachUnique(body, total, 1);
  }

  lemma OneChunk(bytes: seq<byte>, total: nat)
    requires total < |bytes|
    ensures
      var body := [Data(bytes)];
      AllData(body) && Concat(body) == bytes && Concat(body[..Reach(body, total)]) == []
  {
    var body := [Data(bytes)];
    assert Concat(body[..0]) == [];
    ConcatNext(body, 0);
    assert body[..1] == body;
    ReachUnique(body, total, 0);
  }
}
