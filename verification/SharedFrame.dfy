/** Many rendering calls at once. The display's lock covers only the acquire, and every mapping
    aliases the same device memory, so live calls overwrite each other byte by byte. The steps
    below are those of Refresh and Fill (einkgrpc/displayservice.go) over one memory
    (einklib/display_linux.go). */
module SharedFrame {
  import opened Wrappers
  import opened Panel
  import opened Bitmap
  import opened Device
  import opened RefreshProtocol
  import DS = DisplayService

  /** A call that is about to acquire its frame. */
  datatype Request = RefreshRequest(header: Header, body: seq<Payload>, end: StreamEnd)
                   | FillRequest(argb: uint32, mode: int)

  datatype Outcome = Committed | Rejected(verdict: Verdict) | CommitFailed

  /** A live call has taken in `next` chunks up to offset `written`, of which `todo` is still to copy. */
  datatype Phase = Waiting
                 | Refused
                 | Live(m: Mapping, next: nat, written: nat, todo: set<nat>)
                 | Done(m: Mapping, outcome: Outcome)

  datatype Session = Session(request: Request, phase: Phase)

  datatype State = State(mem: seq<byte>, sessions: map<nat, Session>, sends: seq<(nat, seq<byte>)>)

  datatype Action = Acquire(grant: Option<Mapping>) | Copy(at: nat) | Receive | Finish(sent: bool)

  /** What a live call does next, read off the code. */
  datatype Move = CopyOn | TakeChunk(data: seq<byte>) | Cancel(verdict: Verdict) | Submit

  function NextMove(r: Request, p: Phase): Move
    requires p.Live? && (r.RefreshRequest? ==> p.next <= |r.body|)
  {
    if p.todo != {} then CopyOn
    else if r.FillRequest? then Submit
    else
      var total := r.header.total;
      if total < 0 || total > p.m.size then Cancel(OutOfRange(total))
      else if p.next == |r.body| then
        if r.end.Broken? then Cancel(TransportFailed(r.end.code))
        else if p.written != total then Cancel(WrongLength(p.written, total))
        else Submit
      else if !r.body[p.next].Data? then Cancel(NotData)
      else if p.written + |r.body[p.next].data| > total then Cancel(Overflow)
      else TakeChunk(r.body[p.next].data)
  }

  function Range(lo: nat, hi: nat): (r: set<nat>)
    ensures forall i: nat :: i in r <==> lo <= i < hi
    decreases if lo < hi then hi - lo else 0
  {
    if lo < hi then {lo} + Range(lo + 1, hi) else {}
  }

  /** The byte a live call copies to offset `at`. */
  function ByteAt(r: Request, p: Phase, at: nat): byte
    requires p.Live? && at in p.todo && WindowOk(r, p)
  {
    if r.FillRequest? then PatternByte(p.m.info.color, Channels(r.argb), at)
    else var data := r.body[p.next - 1].data; data[at - (p.written - |data|)]
  }

  /** Copies stay inside the chunk taken in last. */
  predicate WindowOk(r: Request, p: Phase)
    requires p.Live?
  {
    match r
    case FillRequest(_, _) => p.next == 0 && p.todo <= Range(0, p.written)
    case RefreshRequest(_, body, _) =>
      && p.next <= |body|
      && (p.todo != {} ==>
            && 0 < p.next && body[p.next - 1].Data? && |body[p.next - 1].data| <= p.written
            && p.todo <= Range(p.written - |body[p.next - 1].data|, p.written))
  }

  predicate Enabled(s: State, id: nat, a: Action) {
    && id in s.sessions
    && var Session(r, p) := s.sessions[id];
       match a
       case Acquire(grant) => p.Waiting? && (grant.Some? ==> 0 < grant.value.size <= |s.mem|)
       case Copy(at) => p.Live? && WindowOk(r, p) && at in p.todo && at < |s.mem|
       case Receive => p.Live? && WindowOk(r, p) && NextMove(r, p).TakeChunk?
       case Finish(_) => p.Live? && WindowOk(r, p) && (NextMove(r, p).Cancel? || NextMove(r, p) == Submit)
                         && 0 < p.m.size <= |s.mem|
  }

  function Advance(s: State, id: nat, p: Phase): State
    requires id in s.sessions
  {
    s.(sessions := s.sessions[id := s.sessions[id].(phase := p)])
  }

  function Apply(s: State, id: nat, a: Action): State
    requires Enabled(s, id, a)
  {
    var Session(r, p) := s.sessions[id];
    match a
    case Acquire(grant) =>
      if grant.None? then Advance(s, id, Refused)
      else
        var n := if r.FillRequest? then Covered(grant.value.info.color, grant.value.size) else 0;
        Advance(s, id, Live(grant.value, 0, n, Range(0, n)))
    case Copy(at) =>
      Advance(s, id, p.(todo := p.todo - {at})).(mem := s.mem[at := ByteAt(r, p, at)])
    case Receive =>
      var end := p.written + |NextMove(r, p).data|;
      Advance(s, id, p.(next := p.next + 1, written := end, todo := Range(p.written, end)))
    case Finish(sent) =>
      var m := NextMove(r, p);
      if m.Cancel? then Advance(s, id, Done(p.m, Rejected(m.verdict)))
      else if !sent then Advance(s, id, Done(p.m, CommitFailed))
      else Advance(s, id, Done(p.m, Committed)).(sends := s.sends + [(id, s.mem[..p.m.size])])
  }

  /** A schedule interleaves the steps of any calls in any order. */
  type Schedule = seq<(nat, Action)>

  predicate Legal(s: State, sched: Schedule)
    decreases |sched|
  {
    sched != [] ==> Enabled(s, sched[0].0, sched[0].1) && Legal(Apply(s, sched[0].0, sched[0].1), sched[1..])
  }

  function Exec(s: State, sched: Schedule): State
    requires Legal(s, sched)
    decreases |sched|
  {
    if sched == [] then s else Exec(Apply(s, sched[0].0, sched[0].1), sched[1..])
  }

  predicate Initial(s: State) {
    s.sends == [] && forall id | id in s.sessions :: s.sessions[id].phase == Waiting
  }

  /** What a call would leave in a frame that nobody else touched, and whether it would commit. */
  function Intended(r: Request, m: Mapping): (data: seq<byte>)
    ensures |data| <= m.size
  {
    match r
    case RefreshRequest(h, body, _) => Received(body, h.total, m.size)
    case FillRequest(argb, _) => FillPattern(m.info.color, argb, m.size)
  }

  function Due(r: Request, m: Mapping): Verdict {
    match r
    case RefreshRequest(h, body, end) => Judge(body, end, h.total, m.size)
    case FillRequest(_, _) => Accept
  }

  /** Both agree with the sequential calls. */
  lemma IntendedIsSequential(r: Request, m: Mapping, sent: bool)
    ensures
      var e := match r
               case FillRequest(argb, mode) => DS.FillEffect(argb, mode, Success(m), sent)
               case RefreshRequest(h, body, end) =>
                 DS.RefreshEffect([HeaderPayload(Some(h))] + body, end, Success(m), sent, true);
      && e.data == Intended(r, m)
      && (e.submits.Some? <==> Due(r, m) == Accept && sent)
      && (Due(r, m) != Accept ==> e.answer == Failure(DS.Rejected(Due(r, m))))
  {
  }

  /** What stays true of one call, whatever the others do. */
  ghost predicate SessionOk(x: Session, memLength: nat) {
    var Session(r, p) := x;
    match p
    case Waiting => true
    case Refused => true
    case Done(m, outcome) =>
      && 0 < m.size <= memLength
      && Due(r, m) == (if outcome.Rejected? then outcome.verdict else Accept)
      && (outcome.Rejected? ==> outcome.verdict != Accept)
    case Live(m, next, written, todo) =>
      && 0 < m.size <= memLength
      && WindowOk(r, p)
      && match r
         case FillRequest(_, _) => written == Covered(m.info.color, m.size)
         case RefreshRequest(h, body, _) =>
           if 0 <= h.total <= m.size
           then Fits(body, next, h.total) && written == |Concat(body[..next])|
           else next == 0 && written == 0
  }

  ghost predicate Offers(s: State, id: nat, i: nat, b: byte) {
    && id in s.sessions
    && var Session(r, p) := s.sessions[id];
       && (p.Live? || p.Done?)
       && i < |Intended(r, p.m)| && Intended(r, p.m)[i] == b
  }

  /** Every byte was there at the start or is what some call meant for exactly that offset. */
  ghost predicate Accounted(init: State, s: State, bytes: seq<byte>)
    requires |bytes| <= |init.mem|
  {
    forall i: nat | i < |bytes| :: bytes[i] == init.mem[i] || exists id :: Offers(s, id, i, bytes[i])
  }

  ghost predicate SendOk(init: State, s: State, sent: (nat, seq<byte>)) {
    && HasCommitted(s, sent.0)
    && |sent.1| <= |init.mem| && Accounted(init, s, sent.1)
  }

  ghost predicate Inv(init: State, s: State) {
    && |s.mem| == |init.mem|
    && s.sessions.Keys == init.sessions.Keys
    && (forall id | id in s.sessions :: SessionOk(s.sessions[id], |s.mem|))
    && Accounted(init, s, s.mem)
    && (forall k | 0 <= k < |s.sends| :: SendOk(init, s, s.sends[k]))
    && (forall j, k | 0 <= j < k < |s.sends| :: s.sends[j].0 != s.sends[k].0)
    && (forall id | id in s.sessions && HasCommitted(s, id) :: Submitted(s, id))
  }

  predicate HasCommitted(s: State, id: nat) {
    id in s.sessions && s.sessions[id].phase.Done? && s.sessions[id].phase.outcome == Committed
  }

  predicate Submitted(s: State, id: nat) {
    exists k :: 0 <= k < |s.sends| && s.sends[k].0 == id
  }

  lemma WithinReach(body: seq<Payload>, k: nat, total: nat)
    requires k <= |body| && Fits(body, k, total)
    ensures k <= Reach(body, total)
    ensures Concat(body[..k]) <= Concat(body[..Reach(body, total)])
  {
    var r := Reach(body, total);
    if k > r {
      ConcatPrefix(body, r + 1, k);
    }
    ConcatPrefix(body, k, r);
  }

  /** Each copied byte is the intended one. */
  lemma CopyIsIntended(x: Session, at: nat, memLength: nat)
    requires SessionOk(x, memLength) && x.phase.Live? && at in x.phase.todo
    ensures at < x.phase.written <= |Intended(x.request, x.phase.m)| <= memLength
    ensures ByteAt(x.request, x.phase, at) == Intended(x.request, x.phase.m)[at]
  {
    var Session(r, p) := x;
    if r.RefreshRequest? {
      WithinReach(r.body, p.next, r.header.total);
      ConcatNext(r.body, p.next - 1);
    }
  }

  /** A call that takes in a chunk, cancels or submits does what its own stream alone demands. */
  lemma MoveIsDue(x: Session, memLength: nat)
    requires SessionOk(x, memLength) && x.phase.Live?
    ensures
      var Session(r, p) := x;
      match NextMove(r, p)
      case CopyOn => true
      case Cancel(v) => v == Due(r, p.m) && v != Accept && p.written == |Intended(r, p.m)|
      case Submit => Due(r, p.m) == Accept && p.written == |Intended(r, p.m)|
      case TakeChunk(data) =>
        && Fits(r.body, p.next + 1, r.header.total)
        && p.written + |data| == |Concat(r.body[..p.next + 1])|
  {
    var Session(r, p) := x;
    if r.RefreshRequest? && p.todo == {} && 0 <= r.header.total <= p.m.size {
      if p.next == |r.body| {
        ReachUnique(r.body, r.header.total, p.next);
      } else if !r.body[p.next].Data? {
        assert !r.body[..p.next + 1][p.next].Data?;
        ReachUnique(r.body, r.header.total, p.next);
      } else {
        ConcatNext(r.body, p.next);
        if p.written + |r.body[p.next].data| > r.header.total {
          ReachUnique(r.body, r.header.total, p.next);
        }
      }
    }
  }

  lemma SessionStep(s: State, id: nat, a: Action)
    requires Enabled(s, id, a) && SessionOk(s.sessions[id], |s.mem|)
    ensures SessionOk(Apply(s, id, a).sessions[id], |s.mem|)
    ensures |Apply(s, id, a).mem| == |s.mem|
  {
    var Session(r, p) := s.sessions[id];
    if p.Live? {
      MoveIsDue(s.sessions[id], |s.mem|);
    }
    if a.Receive? {
      ConcatNext(r.body, p.next);
    }
    if a.Acquire? && r.RefreshRequest? {
      assert r.body[..0] == [];
    }
  }

  lemma OffersStay(s: State, id: nat, a: Action, from: nat, i: nat, b: byte)
    requires Enabled(s, id, a) && Offers(s, from, i, b)
    ensures Offers(Apply(s, id, a), from, i, b)
  {
  }

  lemma AccountedStays(init: State, s: State, id: nat, a: Action, bytes: seq<byte>)
    requires |bytes| <= |init.mem| && Enabled(s, id, a) && Accounted(init, s, bytes)
    ensures Accounted(init, Apply(s, id, a), bytes)
  {
    forall i: nat | i < |bytes| && bytes[i] != init.mem[i]
      ensures exists from :: Offers(Apply(s, id, a), from, i, bytes[i])
    {
      var from :| Offers(s, from, i, bytes[i]);
      OffersStay(s, id, a, from, i, bytes[i]);
    }
  }

  lemma MemoryStep(init: State, s: State, id: nat, a: Action)
    requires |s.mem| == |init.mem| && Enabled(s, id, a) && SessionOk(s.sessions[id], |s.mem|)
    requires Accounted(init, s, s.mem)
    ensures |Apply(s, id, a).mem| == |init.mem|
    ensures Accounted(init, Apply(s, id, a), Apply(s, id, a).mem)
  {
    var t := Apply(s, id, a);
    AccountedStays(init, s, id, a, s.mem);
    if a.Copy? {
      CopyIsIntended(s.sessions[id], a.at, |s.mem|);
      assert Offers(t, id, a.at, t.mem[a.at]);
    }
  }

  lemma SendsStep(init: State, s: State, id: nat, a: Action)
    requires Inv(init, s) && Enabled(s, id, a)
    ensures forall k | 0 <= k < |Apply(s, id, a).sends| :: SendOk(init, Apply(s, id, a), Apply(s, id, a).sends[k])
  {
    var t := Apply(s, id, a);
    forall k | 0 <= k < |t.sends| ensures SendOk(init, t, t.sends[k]) {
      if k < |s.sends| {
        assert SendOk(init, s, s.sends[k]);
        AccountedStays(init, s, id, a, s.sends[k].1);
      } else {
        AccountedStays(init, s, id, a, s.mem);
      }
    }
  }

  lemma SubmittedStays(s: State, id: nat, a: Action, from: nat)
    requires Enabled(s, id, a) && HasCommitted(Apply(s, id, a), from)
    requires HasCommitted(s, from) ==> Submitted(s, from)
    ensures Submitted(Apply(s, id, a), from)
  {
    var t := Apply(s, id, a);
    if HasCommitted(s, from) {
      var k :| 0 <= k < |s.sends| && s.sends[k].0 == from;
      assert t.sends[k].0 == from;
    } else {
      assert t.sends[|s.sends|].0 == from;
    }
  }

  lemma InvStep(init: State, s: State, id: nat, a: Action)
    requires Inv(init, s) && Enabled(s, id, a)
    ensures Inv(init, Apply(s, id, a))
  {
    var t := Apply(s, id, a);
    SessionStep(s, id, a);
    MemoryStep(init, s, id, a);
    SendsStep(init, s, id, a);
    forall j, k | 0 <= j < k < |t.sends| ensures t.sends[j].0 != t.sends[k].0 {
      assert SendOk(init, s, s.sends[j]);
    }
    forall from | from in t.sessions && HasCommitted(t, from) ensures Submitted(t, from) {
      SubmittedStays(s, id, a, from);
    }
  }

  lemma {:induction false} InvExec(init: State, s: State, sched: Schedule)
    requires Inv(init, s) && Legal(s, sched)
    ensures Inv(init, Exec(s, sched))
    decreases |sched|
  {
    if sched != [] {
      InvStep(init, s, sched[0].0, sched[0].1);
      InvExec(init, Apply(s, sched[0].0, sched[0].1), sched[1..]);
    }
  }

  /** In every interleaving of any calls, down to single bytes: each byte of the memory, and of
      every frame the driver ever got, was there at the start or was meant for exactly that place
      by some call; every finished call ended as its own request alone decides, however the others
      interfered; and exactly the committed calls submit, each once. */
  lemma EveryByteAccounted(init: State, sched: Schedule)
    requires Initial(init) && Legal(init, sched)
    ensures
      var s := Exec(init, sched);
      && |s.mem| == |init.mem| && Accounted(init, s, s.mem)
      && (forall k | 0 <= k < |s.sends| :: SendOk(init, s, s.sends[k]))
      && (forall j, k | 0 <= j < k < |s.sends| :: s.sends[j].0 != s.sends[k].0)
      && (forall id | id in s.sessions && HasCommitted(s, id) :: Submitted(s, id))
      && (forall id | id in s.sessions && s.sessions[id].phase.Done? :: SessionOk(s.sessions[id], |init.mem|))
  {
    InvExec(init, init, sched);
  }

  /** No call ever gets stuck: a live one always has a step to take. */
  lemma LiveCallsCanMove(init: State, s: State, id: nat)
    requires Inv(init, s) && id in s.sessions && s.sessions[id].phase.Live?
    ensures exists a :: Enabled(s, id, a)
  {
    var Session(r, p) := s.sessions[id];
    assert SessionOk(s.sessions[id], |s.mem|);
    match NextMove(r, p)
    case CopyOn =>
      var at :| at in p.todo;
      CopyIsIntended(s.sessions[id], at, |s.mem|);
      assert Enabled(s, id, Copy(at));
    case TakeChunk(_) => assert Enabled(s, id, Receive);
    case Cancel(_) => assert Enabled(s, id, Finish(true));
    case Submit => assert Enabled(s, id, Finish(true));
  }

  /** Who copied a byte to offset `i` last, and which. */
  function LastCopy(s: State, sched: Schedule, i: nat, before: Option<(nat, byte)>): Option<(nat, byte)>
    requires Legal(s, sched)
    decreases |sched|
  {
    if sched == [] then before
    else LastCopy(Apply(s, sched[0].0, sched[0].1), sched[1..], i, CopiedBy(s, sched[0].0, sched[0].1, i, before))
  }

  function CopiedBy(s: State, id: nat, a: Action, i: nat, before: Option<(nat, byte)>): Option<(nat, byte)>
    requires Enabled(s, id, a)
  {
    if a == Copy(i) then Some((id, ByteAt(s.sessions[id].request, s.sessions[id].phase, i))) else before
  }

  /** The byte at `i`, `old` to begin with, is the one copied there last; what `id` copied there is
      what it means for it, and it has copied all it is past. */
  ghost predicate Tracks(was: byte, s: State, id: nat, r: Request, m: Mapping, i: nat, last: Option<(nat, byte)>) {
    && id in s.sessions && i < |s.mem| && SessionOk(s.sessions[id], |s.mem|)
    && s.sessions[id].request == r
    && s.mem[i] == (if last.Some? then last.value.1 else was)
    && (last.Some? && last.value.0 == id ==> i < |Intended(r, m)| && last.value.1 == Intended(r, m)[i])
    && var p := s.sessions[id].phase;
       p.Live? ==> p.m == m && (i < p.written && i !in p.todo ==> last.Some?)
  }

  predicate AcquiresOnly(sched: Schedule, id: nat, m: Mapping) {
    forall k | 0 <= k < |sched| && sched[k].0 == id && sched[k].1.Acquire? :: sched[k].1.grant in {None, Some(m)}
  }

  lemma TracksStep(was: byte, s: State, id: nat, r: Request, m: Mapping, i: nat, last: Option<(nat, byte)>,
                   actor: nat, a: Action)
    requires Tracks(was, s, id, r, m, i, last) && Enabled(s, actor, a)
    requires actor == id && a.Acquire? ==> a.grant in {None, Some(m)}
    ensures Tracks(was, Apply(s, actor, a), id, r, m, i, CopiedBy(s, actor, a, i, last))
  {
    if actor == id {
      SessionStep(s, id, a);
      if a.Copy? {
        CopyIsIntended(s.sessions[id], a.at, |s.mem|);
      }
    }
  }

  lemma {:induction false} TracksExec(was: byte, s: State, id: nat, r: Request, m: Mapping, i: nat,
                                      last: Option<(nat, byte)>, sched: Schedule)
    requires Tracks(was, s, id, r, m, i, last) && Legal(s, sched) && AcquiresOnly(sched, id, m)
    ensures Tracks(was, Exec(s, sched), id, r, m, i, LastCopy(s, sched, i, last))
    decreases |sched|
  {
    if sched != [] {
      var (actor, a) := sched[0];
      TracksStep(was, s, id, r, m, i, last, actor, a);
      assert forall k | 0 <= k < |sched[1..]| :: sched[1..][k] == sched[k + 1];
      TracksExec(was, Apply(s, actor, a), id, r, m, i, CopiedBy(s, actor, a, i, last), sched[1..]);
    }
  }

  /** Once it has acquired its frame a call never does so again. */
  lemma {:induction false} NeverWaitsAgain(s: State, sched: Schedule, id: nat)
    requires Legal(s, sched) && id in s.sessions && !s.sessions[id].phase.Waiting?
    ensures forall k | 0 <= k < |sched| && sched[k].0 == id :: !sched[k].1.Acquire?
    ensures |Exec(s, sched).mem| == |s.mem|
    decreases |sched|
  {
    if sched != [] {
      NeverWaitsAgain(Apply(s, sched[0].0, sched[0].1), sched[1..], id);
      assert forall k | 1 <= k < |sched| :: sched[k] == sched[1..][k - 1];
    }
  }

  /** `id` has drawn all it wants and submits next. */
  predicate AtSubmit(s: State, id: nat) {
    Enabled(s, id, Finish(true)) && NextMove(s.sessions[id].request, s.sessions[id].phase) == Submit
  }

  /** What a call would submit with nobody else about. */
  function OwnFrame(s: State, id: nat, m: Mapping): seq<byte>
    requires id in s.sessions && m.size <= |s.mem|
  {
    Overlay(s.mem, Intended(s.sessions[id].request, m))[..m.size]
  }

  /** From its acquire to the point where it submits, whatever anybody does: the frame holds the
      call's own byte at an offset exactly when nobody copied there, or it did so last itself, or
      the other call copied the same byte. All its own copies are in. */
  lemma FrameByteIff(s: State, id: nat, m: Mapping, sched: Schedule, i: nat)
    requires Enabled(s, id, Acquire(Some(m))) && i < m.size
    requires Legal(Apply(s, id, Acquire(Some(m))), sched)
    requires AtSubmit(Exec(Apply(s, id, Acquire(Some(m))), sched), id)
    ensures
      var started := Apply(s, id, Acquire(Some(m)));
      var last := LastCopy(started, sched, i, None);
      && |Exec(started, sched).mem| == |s.mem|
      && Exec(started, sched).sessions[id].phase.m == m
      && Due(s.sessions[id].request, m) == Accept
      && (i < |Intended(s.sessions[id].request, m)| ==> last.Some?)
      && (Exec(started, sched).mem[i] == OwnFrame(s, id, m)[i] <==>
          last.None? || last.value.0 == id || last.value.1 == OwnFrame(s, id, m)[i])
  {
    var r, started := s.sessions[id].request, Apply(s, id, Acquire(Some(m)));
    SessionStep(s, id, Acquire(Some(m)));
    NeverWaitsAgain(started, sched, id);
    TracksExec(s.mem[i], started, id, r, m, i, None, sched);
    MoveIsDue(Exec(started, sched).sessions[id], |s.mem|);
  }

  /** Nobody but `id` copies anything. */
  predicate NoOtherCopies(sched: Schedule, id: nat) {
    forall k | 0 <= k < |sched| && sched[k].1.Copy? :: sched[k].0 == id
  }

  lemma {:induction false} LastCopyBy(s: State, sched: Schedule, i: nat, before: Option<(nat, byte)>) returns (k: nat)
    requires Legal(s, sched)
    ensures var last := LastCopy(s, sched, i, before);
            last == before || (k < |sched| && last.Some? && sched[k] == (last.value.0, Copy(i)))
    decreases |sched|
  {
    k := 0;
    if sched != [] {
      k := LastCopyBy(Apply(s, sched[0].0, sched[0].1), sched[1..], i, CopiedBy(s, sched[0].0, sched[0].1, i, before));
      if LastCopy(s, sched, i, before) == CopiedBy(s, sched[0].0, sched[0].1, i, before) {
        k := 0;
      } else {
        k := k + 1;
      }
    }
  }

  /** A call with nobody else copying between its acquire and its commit submits exactly the memory
      as it was, overlaid with its own data. */
  lemma UndisturbedCommit(s: State, id: nat, m: Mapping, sched: Schedule)
    requires Enabled(s, id, Acquire(Some(m)))
    requires Legal(Apply(s, id, Acquire(Some(m))), sched) && NoOtherCopies(sched, id)
    requires AtSubmit(Exec(Apply(s, id, Acquire(Some(m))), sched), id)
    ensures
      var ready := Exec(Apply(s, id, Acquire(Some(m))), sched);
      Apply(ready, id, Finish(true)).sends == ready.sends + [(id, OwnFrame(s, id, m))]
  {
    var started := Apply(s, id, Acquire(Some(m)));
    var ready := Exec(started, sched);
    FrameByteIff(s, id, m, sched, 0);
    forall i: nat | i < m.size ensures ready.mem[i] == OwnFrame(s, id, m)[i] {
      FrameByteIff(s, id, m, sched, i);
      var k := LastCopyBy(started, sched, i, None);
    }
    assert ready.mem[..m.size] == OwnFrame(s, id, m);
  }

  /** A schedule of two calls, the second of which acquires `m` if anything. */
  predicate OnlyThese(sched: Schedule, a: nat, b: nat, m: Mapping) {
    AcquiresOnly(sched, b, m) && forall k | 0 <= k < |sched| :: sched[k].0 in {a, b}
  }

  /** A way to interleave `a`, which has just acquired its frame, with `b` so that `a` submits a
      frame other than its own. */
  ghost predicate CanTear(s: State, a: nat, b: nat, m0: Mapping, m1: Mapping)
    requires Enabled(s, a, Acquire(Some(m0)))
  {
    exists sched: Schedule ::
      && Legal(Apply(s, a, Acquire(Some(m0))), sched) && OnlyThese(sched, a, b, m1)
      && Torn(s, a, m0, Exec(Apply(s, a, Acquire(Some(m0))), sched))
  }

  ghost predicate Torn(s: State, a: nat, m0: Mapping, ready: State)
    requires Enabled(s, a, Acquire(Some(m0)))
  {
    AtSubmit(ready, a) && Apply(ready, a, Finish(true)).sends != ready.sends + [(a, OwnFrame(s, a, m0))]
  }

  /** What `b` means for some offset of `a`'s frame is not what `a` does. */
  ghost predicate Clash(s: State, a: nat, b: nat, m0: Mapping, m1: Mapping, i: nat)
    requires a in s.sessions && b in s.sessions && m0.size <= |s.mem|
  {
    var other := Intended(s.sessions[b].request, m1);
    i < m0.size && i < |other| && other[i] != OwnFrame(s, a, m0)[i]
  }

  lemma Before(s: State, id: nat, a: Action, rest: Schedule) returns (sched: Schedule)
    requires Enabled(s, id, a) && Legal(Apply(s, id, a), rest)
    ensures sched == [(id, a)] + rest && Legal(s, sched) && Exec(s, sched) == Exec(Apply(s, id, a), rest)
  {
    sched := [(id, a)] + rest;
    assert sched[1..] == rest;
  }

  predicate OnlyMoved(s: State, n: State, id: nat) {
    && n.sessions.Keys == s.sessions.Keys && id in s.sessions && |n.mem| == |s.mem|
    && forall other | other in s.sessions && other != id :: n.sessions[other] == s.sessions[other]
  }

  /** `id` has gone on with its call, and nobody else has. */
  ghost predicate Continued(s: State, n: State, id: nat) {
    && OnlyMoved(s, n, id) && SessionOk(n.sessions[id], |n.mem|)
    && n.sessions[id].request == s.sessions[id].request
    && s.sessions[id].phase.Live? && n.sessions[id].phase.Live? && n.sessions[id].phase.m == s.sessions[id].phase.m
  }

  function Ahead(x: Session): int
    requires x.phase.Live?
  {
    if x.request.RefreshRequest? then |x.request.body| - x.phase.next else 0
  }

  lemma CanContinue(s: State, id: nat) returns (a: Action)
    requires id in s.sessions && s.sessions[id].phase.Live? && SessionOk(s.sessions[id], |s.mem|)
    requires var move := NextMove(s.sessions[id].request, s.sessions[id].phase); move.CopyOn? || move.TakeChunk?
    ensures Enabled(s, id, a) && !a.Acquire? && Continued(s, Apply(s, id, a), id)
    ensures
      var x, y := s.sessions[id], Apply(s, id, a).sessions[id];
      0 <= Ahead(y) < Ahead(x) || (Ahead(y) == Ahead(x) && |y.phase.todo| < |x.phase.todo|)
  {
    var Session(r, p) := s.sessions[id];
    if p.todo != {} {
      var at :| at in p.todo;
      CopyIsIntended(s.sessions[id], at, |s.mem|);
      a := Copy(at);
    } else {
      a := Receive;
    }
    SessionStep(s, id, a);
  }

  lemma ContinuedTwice(s: State, n: State, e: State, id: nat)
    requires Continued(s, n, id) && Continued(n, e, id)
    ensures Continued(s, e, id)
  {
  }

  /** A live call, left to itself, takes in and copies all it ever will. */
  lemma {:induction false} RunAlone(s: State, id: nat) returns (sched: Schedule)
    requires id in s.sessions && s.sessions[id].phase.Live? && SessionOk(s.sessions[id], |s.mem|)
    ensures Legal(s, sched) && Continued(s, Exec(s, sched), id)
    ensures forall k | 0 <= k < |sched| :: sched[k].0 == id && !sched[k].1.Acquire?
    ensures var move := NextMove(s.sessions[id].request, Exec(s, sched).sessions[id].phase); move.Cancel? || move.Submit?
    decreases Ahead(s.sessions[id]), |s.sessions[id].phase.todo|
  {
    var move := NextMove(s.sessions[id].request, s.sessions[id].phase);
    sched := [];
    if move.CopyOn? || move.TakeChunk? {
      var a := CanContinue(s, id);
      var n := Apply(s, id, a);
      sched := RunAlone(n, id);
      ContinuedTwice(s, n, Exec(n, sched), id);
      sched := Before(s, id, a, sched);
    }
  }

  lemma {:induction false} Then(s: State, first: Schedule, second: Schedule)
    requires Legal(s, first) && Legal(Exec(s, first), second)
    ensures Legal(s, first + second) && Exec(s, first + second) == Exec(Exec(s, first), second)
    decreases |first|
  {
    if first == [] {
      assert first + second == second;
    } else {
      Then(Apply(s, first[0].0, first[0].1), first[1..], second);
      assert (first + second)[1..] == first[1..] + second;
    }
  }

  /** A call that has just acquired its frame can be run alone to the point where everything it
      means for the memory is in. */
  lemma DrawAlone(s: State, id: nat, m: Mapping, i: nat) returns (sched: Schedule)
    requires Enabled(s, id, Acquire(Some(m)))
    ensures Legal(Apply(s, id, Acquire(Some(m))), sched)
    ensures forall k | 0 <= k < |sched| :: sched[k].0 == id && !sched[k].1.Acquire?
    ensures
      var r, n := s.sessions[id].request, Exec(Apply(s, id, Acquire(Some(m))), sched);
      && OnlyMoved(s, n, id)
      && n.sessions[id].request == r && n.sessions[id].phase.Live? && n.sessions[id].phase.m == m
      && (i < |Intended(r, m)| ==> n.mem[i] == Intended(r, m)[i])
      && (Due(r, m) == Accept ==> AtSubmit(n, id))
  {
    var r, started := s.sessions[id].request, Apply(s, id, Acquire(Some(m)));
    SessionStep(s, id, Acquire(Some(m)));
    sched := RunAlone(started, id);
    var n := Exec(started, sched);
    MoveIsDue(n.sessions[id], |n.mem|);
    if i < |Intended(r, m)| {
      LeavesIntended(started, id, r, m, i, sched);
    }
  }

  lemma LeavesIntended(s: State, id: nat, r: Request, m: Mapping, i: nat, sched: Schedule)
    requires i < |s.mem| && Tracks(s.mem[i], s, id, r, m, i, None) && Legal(s, sched)
    requires forall k | 0 <= k < |sched| :: sched[k].0 == id && !sched[k].1.Acquire?
    requires
      var n := Exec(s, sched);
      && id in n.sessions && |n.mem| == |s.mem| && i < |Intended(r, m)|
      && n.sessions[id].phase.Live? && n.sessions[id].phase.todo == {} && i < n.sessions[id].phase.written
    ensures Exec(s, sched).mem[i] == Intended(r, m)[i]
  {
    TracksExec(s.mem[i], s, id, r, m, i, None, sched);
    var k := LastCopyBy(s, sched, i, None);
  }

  /** Exactly when another call, good or bad, can tear the frame of a good one: when it means some
      byte of it differently. A call that the server is going to reject tears as well. */
  lemma CanTearIff(s: State, a: nat, b: nat, m0: Mapping, m1: Mapping)
    requires a != b && Enabled(s, a, Acquire(Some(m0))) && Enabled(s, b, Acquire(Some(m1)))
    ensures CanTear(s, a, b, m0, m1)
       <==> Due(s.sessions[a].request, m0) == Accept && exists i :: Clash(s, a, b, m0, m1, i)
  {
    var started := Apply(s, a, Acquire(Some(m0)));
    if sched: Schedule :| Legal(started, sched) && OnlyThese(sched, a, b, m1) && Torn(s, a, m0, Exec(started, sched)) {
      TornClashes(s, a, b, m0, m1, sched);
    }
    if i :| Due(s.sessions[a].request, m0) == Accept && Clash(s, a, b, m0, m1, i) {
      ClashTears(s, a, b, m0, m1, i);
    }
  }

  lemma TornClashes(s: State, a: nat, b: nat, m0: Mapping, m1: Mapping, sched: Schedule)
    requires a != b && Enabled(s, a, Acquire(Some(m0))) && Enabled(s, b, Acquire(Some(m1)))
    requires Legal(Apply(s, a, Acquire(Some(m0))), sched) && OnlyThese(sched, a, b, m1)
    requires Torn(s, a, m0, Exec(Apply(s, a, Acquire(Some(m0))), sched))
    ensures Due(s.sessions[a].request, m0) == Accept && exists i :: Clash(s, a, b, m0, m1, i)
  {
    var started := Apply(s, a, Acquire(Some(m0)));
    var ready := Exec(started, sched);
    FrameByteIff(s, a, m0, sched, 0);
    assert ready.mem[..m0.size] != OwnFrame(s, a, m0);
    var i: nat :| i < m0.size && ready.mem[i] != OwnFrame(s, a, m0)[i];
    FrameByteIff(s, a, m0, sched, i);
    var k := LastCopyBy(started, sched, i, None);
    TracksExec(s.mem[i], started, b, s.sessions[b].request, m1, i, None, sched);
    assert Clash(s, a, b, m0, m1, i);
  }

  lemma TheseToo(first: Schedule, second: Schedule, a: nat, b: nat, m: Mapping)
    requires OnlyThese(first, a, b, m) && OnlyThese(second, a, b, m)
    ensures OnlyThese(first + second, a, b, m)
  {
  }

  lemma ClashTears(s: State, a: nat, b: nat, m0: Mapping, m1: Mapping, i: nat)
    requires a != b && Enabled(s, a, Acquire(Some(m0))) && Enabled(s, b, Acquire(Some(m1)))
    requires Due(s.sessions[a].request, m0) == Accept && Clash(s, a, b, m0, m1, i)
    ensures CanTear(s, a, b, m0, m1)
  {
    var sched := DrawBoth(s, a, b, m0, m1, i);
    SubmitsOther(s, a, m0, Exec(Apply(s, a, Acquire(Some(m0))), sched), i);
  }

  /** The first call draws its frame, the second draws over it, and the first is about to submit. */
  lemma DrawBoth(s: State, a: nat, b: nat, m0: Mapping, m1: Mapping, i: nat) returns (sched: Schedule)
    requires a != b && Enabled(s, a, Acquire(Some(m0))) && Enabled(s, b, Acquire(Some(m1)))
    requires Due(s.sessions[a].request, m0) == Accept && i < |Intended(s.sessions[b].request, m1)|
    ensures Legal(Apply(s, a, Acquire(Some(m0))), sched) && OnlyThese(sched, a, b, m1)
    ensures
      var ready := Exec(Apply(s, a, Acquire(Some(m0))), sched);
      && AtSubmit(ready, a) && ready.sessions[a].phase.m == m0 && |ready.mem| == |s.mem|
      && ready.mem[i] == Intended(s.sessions[b].request, m1)[i]
  {
    var started := Apply(s, a, Acquire(Some(m0)));
    var first := DrawAlone(s, a, m0, i);
    var second := DrawOver(Exec(started, first), a, b, m1, i);
    Then(started, first, second);
    TheseToo(first, second, a, b, m1);
    sched := first + second;
  }

  /** While `a` is about to submit, `b` draws all it means over the frame. */
  lemma DrawOver(s: State, a: nat, b: nat, m: Mapping, i: nat) returns (sched: Schedule)
    requires a != b && AtSubmit(s, a) && Enabled(s, b, Acquire(Some(m))) && i < |Intended(s.sessions[b].request, m)|
    ensures Legal(s, sched) && AcquiresOnly(sched, b, m) && forall k | 0 <= k < |sched| :: sched[k].0 == b
    ensures
      var n := Exec(s, sched);
      && AtSubmit(n, a) && n.sessions[a] == s.sessions[a] && |n.mem| == |s.mem|
      && n.mem[i] == Intended(s.sessions[b].request, m)[i]
  {
    sched := DrawAlone(s, b, m, i);
    sched := Before(s, b, Acquire(Some(m)), sched);
  }

  lemma SubmitsOther(s: State, a: nat, m: Mapping, ready: State, i: nat)
    requires Enabled(s, a, Acquire(Some(m))) && AtSubmit(ready, a) && ready.sessions[a].phase.m == m
    requires i < m.size && ready.mem[i] != OwnFrame(s, a, m)[i]
    ensures Torn(s, a, m, ready)
  {
    var sends := Apply(ready, a, Finish(true)).sends;
    assert sends[|ready.sends|] == (a, ready.mem[..m.size]);
    assert ready.mem[..m.size][i] != OwnFrame(s, a, m)[i];
  }

  function TwoBytes(b: byte): Request {
    RefreshRequest(Header(2, None, 2), [Data([b, b])], Eof)
  }

  const TINY := Mapping(DisplayInfo(2, 2, 2, 2, false), 2)

  function TwoUploads(mem: seq<byte>, first: Phase, second: Phase): State {
    State(mem, map[0 := Session(TwoBytes(1), first), 1 := Session(TwoBytes(2), second)], [])
  }

  const BOTH := Live(TINY, 1, 2, {0, 1})   // its two bytes taken in, not yet copied
  const DRAWN := Live(TINY, 1, 2, {})      // and copied

  lemma TearLastSteps() returns (sched: Schedule)
    ensures var s := TwoUploads([1, 1], DRAWN, BOTH);
            Legal(s, sched) && Exec(s, sched).sends == [(0, [2, 1])]
  {
    var s2 := TwoUploads([1, 1], DRAWN, BOTH);
    var s3 := Apply(s2, 1, Copy(0));
    assert s3.mem == [2, 1] && s3.sessions[0] == Session(TwoBytes(1), DRAWN);
    var last := Apply(s3, 0, Finish(true));
    assert [2, 1][..2] == [2, 1];
    assert last.sends == [(0, [2, 1])];
    sched := Before(s3, 0, Finish(true), []);
    sched := Before(s2, 1, Copy(0), sched);
  }

  lemma TearFirstCopies() returns (sched: Schedule)
    ensures var s := TwoUploads([0, 0], BOTH, BOTH);
            Legal(s, sched) && Exec(s, sched).sends == [(0, [2, 1])]
  {
    var s0 := TwoUploads([0, 0], BOTH, BOTH);
    var s1 := Apply(s0, 0, Copy(0));
    assert BOTH.todo - {0} == {1} && [0, 0][0 := 1] == [1, 0];
    assert s1 == TwoUploads([1, 0], Live(TINY, 1, 2, {1}), BOTH);
    var s2 := Apply(s1, 0, Copy(1));
    assert {1} - {1} == {} && [1, 0][1 := 1] == [1, 1];
    assert s2 == TwoUploads([1, 1], DRAWN, BOTH);
    sched := TearLastSteps();
    sched := Before(s1, 0, Copy(1), sched);
    sched := Before(s0, 0, Copy(0), sched);
  }

  const EMPTY := Live(TINY, 0, 0, {})      // nothing taken in yet

  lemma TearReceives() returns (sched: Schedule)
    ensures var s := TwoUploads([0, 0], EMPTY, EMPTY);
            Legal(s, sched) && Exec(s, sched).sends == [(0, [2, 1])]
  {
    var s0 := TwoUploads([0, 0], EMPTY, EMPTY);
    var s1 := Apply(s0, 0, Receive);
    assert Range(0, 2) == {0, 1};
    assert s1 == TwoUploads([0, 0], BOTH, EMPTY);
    var s2 := Apply(s1, 1, Receive);
    assert s2 == TwoUploads([0, 0], BOTH, BOTH);
    sched := TearFirstCopies();
    sched := Before(s1, 1, Receive, sched);
    sched := Before(s0, 0, Receive, sched);
  }

  /** One such schedule, down to the bytes: of two uploads with good streams one can commit a frame that is neither. */
  lemma InterleavedUploadsTear()
    ensures exists sched: Schedule ::
              var init := TwoUploads([0, 0], Waiting, Waiting);
              Initial(init) && Legal(init, sched) && Exec(init, sched).sends == [(0, [2, 1])]
  {
    var s0 := TwoUploads([0, 0], Waiting, Waiting);
    var s1 := Apply(s0, 0, Acquire(Some(TINY)));
    assert s1 == TwoUploads([0, 0], EMPTY, Waiting);
    var s2 := Apply(s1, 1, Acquire(Some(TINY)));
    assert s2 == TwoUploads([0, 0], EMPTY, EMPTY);
    var sched := TearReceives();
    sched := Before(s1, 1, Acquire(Some(TINY)), sched);
    sched := Before(s0, 0, Acquire(Some(TINY)), sched);
  }
}
