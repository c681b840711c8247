/** The host application's layer (einkapp/app_android.go): which server and which display handle it
    holds. Calls come one at a time, except that an RPC may stop the server behind its back. */
module App {
  import opened Wrappers
  import Srv = Server

  datatype Error = NotInit | NoFilesDir | NewFailed | StartFailed(error: Srv.StartError) | ServiceFailed
                 | NotRunning | RotateFailed

  /** What the outside answers during one Start: opening the device, building the server, starting
      it, and starting the foreground service. */
  datatype Launch = Launch(open: bool, built: bool, boot: Srv.Boot, service: bool)

  /** `server` says whether one is held and running; display handles are numbered in order. */
  datatype State = State(inited: bool, server: Option<bool>, display: Option<nat>, opens: nat, closed: seq<nat>)

  datatype Op = Init(dir: string) | Start(launch: Launch) | Stop | Rotate(rotated: bool, launch: Launch) | RpcStop

  /** A newly built server starts unless the boot itself fails. */
  function Booted(b: Srv.Boot): Result<(), Srv.StartError> {
    Srv.StartAnswer(Srv.INITIAL, true, b)
  }

  function StartStep(s: State, l: Launch): (State, Result<(), Error>) {
    if !s.inited then (s, Failure(NotInit))
    else if s.server.Some? then (s, Success(()))
    else
      var t := if l.open then s.(display := Some(s.opens), opens := s.opens + 1) else s;
      if !l.built then (t, Failure(NewFailed))
      else if Booted(l.boot).Failure? then (t, Failure(StartFailed(Booted(l.boot).error)))
      else if !l.service then (t, Failure(ServiceFailed))
      else (t.(server := Some(true)), Success(()))
  }

  function Step(s: State, op: Op): (State, Result<(), Error>) {
    match op
    case Init(dir) =>
      if s.inited then (s, Success(())) else if dir == "" then (s, Failure(NoFilesDir))
      else (s.(inited := true), Success(()))
    case Start(l) => StartStep(s, l)
    case Stop =>
      (s.(server := None, display := None, closed := Appended(s.closed, s.display)), Success(()))
    case Rotate(rotated, l) =>
      if s.server.None? then (s, Failure(NotRunning))
      else if !rotated then (s, Failure(RotateFailed))
      else StartStep(s.(server := None), l)
    case RpcStop => (if s.server.Some? then s.(server := Some(false)) else s, Success(()))
  }

  function Run(s: State, ops: seq<Op>): State
    decreases |ops|
  {
    if ops == [] then s else Run(Step(s, ops[0]).0, ops[1..])
  }

  predicate IsRunning(s: State) { s.server == Some(true) }

  class App {
    var inited: bool
    var server: Srv.Server?
    var display: Option<nat>
    var opens: nat
    var closed: seq<nat>
    ghost var started: set<Srv.Server>   // every server this app ever started

    constructor ()
      ensures Valid() && Value() == State(false, None, None, 0, [])
    {
      inited, server, display, opens, closed := false, null, None, 0, [];
      started := {};
    }

    /** No server is left running that the app does not hold. */
    ghost predicate Valid()
      reads this, started
    {
      && (server != null ==> server in started)
      && forall x | x in started :: x.running ==> x == server
    }

    function Value(): State
      reads this, server
    {
      State(inited, if server == null then None else Some(server.running), display, opens, closed)
    }

    method DoInit(dir: string) returns (r: Result<(), Error>)
      requires Valid()
      modifies this
      ensures Valid() && started == old(started)
      ensures (Value(), r) == Step(old(Value()), Init(dir)) && server == old(server)
      ensures r == if !old(inited) && dir == "" then Failure(NoFilesDir) else Success(())
      ensures inited <==> old(inited) || dir != ""
    {
      if inited {
        return Success(());
      }
      if dir == "" {
        return Failure(NoFilesDir);
      }
      inited := true;
      return Success(());
    }

    method DoStart(l: Launch) returns (r: Result<(), Error>)
      requires Valid()
      modifies this
      ensures Valid() && old(started) <= started && fresh(started - old(started))
      ensures (Value(), r) == Step(old(Value()), Start(l))
      ensures !old(inited) ==> r == Failure(NotInit) && Value() == old(Value())
      ensures old(inited) && old(server) != null ==> r == Success(()) && server == old(server) && Value() == old(Value())
      ensures old(inited) && old(server) == null ==>
                && (r.Success? <==> l.built && l.boot.keypair && l.boot.clientCert && l.boot.listen.Some? && l.service)
                && (r.Success? ==> server != null && server.running && Some(server.port) == l.boot.listen && fresh(server))
                && (r.Success? ==> server.enableMTLS && server.enableMDNS && server.srv.Some? && server.mdns.Some?)
                && (r.Failure? ==> server == null)
                && (r == Failure(NewFailed) <==> !l.built)
                && (r == Failure(StartFailed(Srv.BadKeypair)) <==> l.built && !l.boot.keypair)
                && (r == Failure(StartFailed(Srv.BadClientCert)) <==> l.built && l.boot.keypair && !l.boot.clientCert)
                && (r == Failure(StartFailed(Srv.Listen)) <==>
                    l.built && l.boot.keypair && l.boot.clientCert && l.boot.listen.None?)
                && (r == Failure(ServiceFailed) <==>
                    l.built && l.boot.keypair && l.boot.clientCert && l.boot.listen.Some? && !l.service)
                && display == (if l.open then Some(old(opens)) else old(display))
                && opens == old(opens) + (if l.open then 1 else 0)
                && closed == old(closed) && inited
    {
      if !inited {
        return Failure(NotInit);
      }
      if server != null {
        return Success(());
      }
      if l.open {
        display := Some(opens);
        opens := opens + 1;
      }
      if !l.built {
        return Failure(NewFailed);
      }
      var srv := new Srv.Server(true, true);
      var booted := srv.Start(l.boot);
      if booted.Failure? {
        return Failure(StartFailed(booted.error));
      }
      started := started + {srv};
      server := srv;
      if !l.service {
        server.Stop();
        server := null;
        return Failure(ServiceFailed);
      }
      return Success(());
    }

    method DoStop()
      requires Valid()
      modifies this, server
      ensures Valid() && started == old(started)
      ensures Value() == Step(old(Value()), Stop).0
      ensures server == null && display.None? && (old(server) != null ==> !old(server).running)
      ensures closed == old(closed) + if old(display).Some? then [old(display).value] else []
      ensures inited == old(inited) && opens == old(opens)
    {
      var srv, d := server, display;
      server, display := null, None;
      if srv != null {
        srv.Stop();
      }
      if d.Some? {
        closed := closed + [d.value];
      }
    }

    method DoRotate(rotated: bool, l: Launch) returns (r: Result<(), Error>)
      requires Valid()
      modifies this, server
      ensures Valid() && old(started) <= started && fresh(started - old(started))
      ensures (Value(), r) == Step(old(Value()), Rotate(rotated, l))
      ensures old(server) == null ==> r == Failure(NotRunning) && Value() == old(Value())
      ensures old(server) != null && !rotated ==> r == Failure(RotateFailed) && Value() == old(Value())
      ensures old(server) != null && rotated ==> !old(server).running && server != old(server)
      ensures old(inited) && old(server) != null && rotated ==>
                && (r.Success? <==> l.built && l.boot.keypair && l.boot.clientCert && l.boot.listen.Some? && l.service)
                && (r.Success? <==> server != null && server.running)
                && display == (if l.open then Some(old(opens)) else old(display))
                && opens == old(opens) + (if l.open then 1 else 0)
                && closed == old(closed)
    {
      var srv := server;
      if srv == null {
        return Failure(NotRunning);
      }
      if !rotated {
        return Failure(RotateFailed);
      }
      srv.Stop();
      server := null;
      r := DoStart(l);
    }

    /** Whether anything the app ever started is running. */
    method DoIsRunning() returns (b: bool)
      requires Valid()
      ensures b == IsRunning(Value())
      ensures b <==> exists x :: x in started && x.running
    {
      b := server != null && server.running;
    }

    /** A client's Rotate or ReissueClientCert call ends in this, past the app's own variables. It
        stops the server it reached, which the app may have let go of by then. */
    method OnRotateRequest(target: Srv.Server)
      requires Valid() && target in started
      modifies target
      ensures Valid() && !target.running && target.rotateReq
      ensures Value() == if target == server then Step(old(Value()), RpcStop).0 else old(Value())
    {
      target.RotateRequest();
    }
  }

  /** How many handles a run drops: opens while one is still held. */
  function Dropped(s: State, ops: seq<Op>): nat
    decreases |ops|
  {
    if ops == [] then 0
    else
      var t := Step(s, ops[0]).0;
      (if t.opens > s.opens && s.display.Some? then 1 else 0) + Dropped(t, ops[1..])
  }

  function Held(s: State): nat { if s.display.Some? then 1 else 0 }

  /** Handles are conserved over every run: those opened are those closed, the one held, and the
      dropped ones. */
  lemma {:induction false} HandlesConserved(s: State, ops: seq<Op>)
    ensures
      var e := Run(s, ops);
      e.opens - |e.closed| - Held(e) == s.opens - |s.closed| - Held(s) + Dropped(s, ops)
    decreases |ops|
  {
    if ops != [] {
      HandlesConserved(Step(s, ops[0]).0, ops[1..]);
    }
  }

  /** No handle is closed twice, and never while it is held. */
  predicate ClosedOnce(s: State) {
    && (s.display.Some? ==> s.display.value < s.opens && s.display.value !in s.closed)
    && (forall k | 0 <= k < |s.closed| :: s.closed[k] < s.opens)
    && (forall j, k | 0 <= j < k < |s.closed| :: s.closed[j] != s.closed[k])
  }

  lemma {:induction false} NoHandleClosedTwice(s: State, ops: seq<Op>)
    requires ClosedOnce(s)
    ensures ClosedOnce(Run(s, ops))
    decreases |ops|
  {
    if ops != [] {
      NoHandleClosedTwice(Step(s, ops[0]).0, ops[1..]);
    }
  }

  /** An operation of a run in which nothing but the device itself fails and nothing is rotated. */
  predicate Plain(op: Op) {
    match op
    case Start(l) => l.built && Booted(l.boot).Success? && l.service
    case Rotate(_, _) => false
    case _ => true
  }

  /** Such runs drop no handle. */
  lemma {:induction false} PlainRunsDropNone(s: State, ops: seq<Op>)
    requires forall op | op in ops :: Plain(op)
    requires s.display.Some? ==> s.server.Some?
    ensures Dropped(s, ops) == 0
    decreases |ops|
  {
    if ops != [] {
      assert Plain(ops[0]);
      PlainRunsDropNone(Step(s, ops[0]).0, ops[1..]);
    }
  }

  lemma {:induction false} RunThenStop(s: State, ops: seq<Op>)
    ensures Run(s, ops + [Stop]).display.None?
    decreases |ops|
  {
    if ops == [] {
      assert [Stop][1..] == [] && ops + [Stop] == [Stop];
      assert Run(s, [Stop]) == Run(Step(s, Stop).0, []);
    } else {
      assert (ops + [Stop])[1..] == ops[1..] + [Stop];
      RunThenStop(Step(s, ops[0]).0, ops[1..]);
    }
  }

  /** After such a run and a final Stop, as many handles are closed as were ever opened, none of
      them twice: every handle exactly once. */
  lemma PlainRunsCloseAll(s: State, ops: seq<Op>)
    requires forall op | op in ops :: Plain(op)
    requires s == State(s.inited, None, None, 0, [])
    ensures
      var e := Run(s, ops + [Stop]);
      |e.closed| == e.opens && ClosedOnce(e) && e.display.None?
  {
    RunThenStop(s, ops);
    PlainRunsDropNone(s, ops + [Stop]);
    HandlesConserved(s, ops + [Stop]);
    NoHandleClosedTwice(s, ops + [Stop]);
  }

  /** A rotation drops a handle exactly when it restarts with a display held and can open it again;
      so does every Start that follows a failed one. */
  lemma DropIff(s: State, op: Op)
    ensures Dropped(s, [op]) == 1 <==>
              s.display.Some? && s.inited &&
              match op
              case Start(l) => s.server.None? && l.open
              case Rotate(rotated, l) => s.server.Some? && rotated && l.open
              case _ => false
  {
  }

  /** Once an RPC has stopped the server, Starts report success and change nothing: the app is not
      running until it stops and starts again, or rotates. */
  lemma {:induction false} RpcStopSticks(s: State, ops: seq<Op>)
    requires s.inited && s.server.Some?
    requires forall op | op in ops :: op.Start? || op.Init? || op.RpcStop?
    ensures
      var stopped := Step(s, RpcStop).0;
      Run(stopped, ops) == stopped && !IsRunning(stopped)
    ensures
      var stopped := Step(s, RpcStop).0;
      && (forall l :: Step(stopped, Start(l)) == (stopped, Success(())))
      && stopped.server == Some(false) && stopped.display == s.display
    decreases |ops|
  {
    if ops != [] {
      var stopped := Step(s, RpcStop).0;
      assert ops[0] in ops;
      assert Step(stopped, ops[0]).0 == stopped;
      RpcStopSticks(s, ops[1..]);
    }
  }

  /** Everything a launch needs but the device goes well. */
  predicate Goes(l: Launch) {
    l.built && Booted(l.boot).Success? && l.service
  }

  predicate GoodStart(op: Op) { op.Start? && Goes(op.launch) }

  predicate GoodRotate(op: Op) { op.Rotate? && op.rotated && Goes(op.launch) }

  /** Whatever the app holds, it lets go of; a rotation does so before it starts again. */
  predicate Clears(op: Op) { op.Stop? || (op.Rotate? && op.rotated && !Goes(op.launch)) }

  predicate Halts(op: Op) { op.RpcStop? || Clears(op) }

  /** Something was cleared, and no Start went through since. */
  predicate Cleared(ops: seq<Op>) {
    exists i :: 0 <= i < |ops| && Clears(ops[i]) && forall k | i < k < |ops| :: !GoodStart(ops[k])
  }

  /** This operation starts a server: a Start where none is held, or a rotation where one is. */
  predicate Revives(ops: seq<Op>, j: nat)
    requires j < |ops|
  {
    if Cleared(ops[..j]) then GoodStart(ops[j]) else GoodRotate(ops[j])
  }

  /** Started at `j` and not halted since. */
  predicate RevivedAt(ops: seq<Op>, j: nat) {
    j < |ops| && Revives(ops, j) && forall k | j < k < |ops| :: !Halts(ops[k])
  }

  predicate Revived(ops: seq<Op>) {
    exists j: nat :: j < |ops| && RevivedAt(ops, j)
  }

  lemma ClearedLast(ops: seq<Op>)
    requires ops != []
    ensures
      var op, before := ops[|ops| - 1], ops[..|ops| - 1];
      Cleared(ops) <==> Clears(op) || (Cleared(before) && !GoodStart(op))
  {
    var op, before := ops[|ops| - 1], ops[..|ops| - 1];
    assert forall i | 0 <= i < |before| :: before[i] == ops[i];
    if Clears(op) {
      assert Clears(ops[|ops| - 1]);
    }
    if Cleared(before) && !GoodStart(op) {
      var i :| 0 <= i < |before| && Clears(before[i]) && forall k | i < k < |before| :: !GoodStart(before[k]);
      assert Clears(ops[i]);
    }
  }

  lemma RevivesEarlier(ops: seq<Op>, before: seq<Op>, j: nat)
    requires j < |before| && before <= ops
    ensures Revives(before, j) <==> Revives(ops, j)
  {
    assert before[..j] == ops[..j];
  }

  lemma RevivedAtLast(ops: seq<Op>, j: nat)
    requires ops != [] && j < |ops| - 1
    ensures RevivedAt(ops, j) <==> RevivedAt(ops[..|ops| - 1], j) && !Halts(ops[|ops| - 1])
  {
    RevivesEarlier(ops, ops[..|ops| - 1], j);
  }

  lemma RevivedLast(ops: seq<Op>)
    requires ops != []
    ensures
      var op, before := ops[|ops| - 1], ops[..|ops| - 1];
      Revived(ops) <==> Revives(ops, |ops| - 1) || (Revived(before) && !Halts(op))
  {
    var op, before := ops[|ops| - 1], ops[..|ops| - 1];
    if Revived(before) && !Halts(op) {
      var j: nat :| j < |before| && RevivedAt(before, j);
      RevivedAtLast(ops, j);
    }
    if Revived(ops) {
      var j: nat :| j < |ops| && RevivedAt(ops, j);
      if j < |before| {
        RevivedAtLast(ops, j);
      }
    }
    assert RevivedAt(ops, |ops| - 1) <==> Revives(ops, |ops| - 1);
  }

  lemma {:induction false} RunLast(s: State, ops: seq<Op>)
    requires ops != []
    ensures Run(s, ops) == Step(Run(s, ops[..|ops| - 1]), ops[|ops| - 1]).0
    decreases |ops|
  {
    if |ops| > 1 {
      RunLast(Step(s, ops[0]).0, ops[1..]);
      assert ops[1..][..|ops| - 2] == ops[..|ops| - 1][1..];
    }
  }

  /** What brings it back, over every run from there: exactly a Start that goes through once a Stop,
      or a rotation that could not start again, has cleared the stopped server; or a rotation that
      goes through before that; with nothing to halt it later. */
  lemma {:induction false} ComesBackIff(s: State, ops: seq<Op>)
    requires s.inited && s.server.Some?
    ensures
      var e := Run(Step(s, RpcStop).0, ops);
      && (IsRunning(e) <==> Revived(ops))
      && (e.server.None? <==> Cleared(ops))
      && e.inited
    decreases |ops|
  {
    if ops != [] {
      ComesBackIff(s, ops[..|ops| - 1]);
      RunLast(Step(s, RpcStop).0, ops);
      ClearedLast(ops);
      RevivedLast(ops);
    }
  }
}
