/** The gRPC server's life, one call at a time (einkgrpc/server.go). */
module Server {
  import opened Wrappers

  datatype StartError = AlreadyRunning | BadKeypair | BadClientCert | Listen

  /** What the outside answers during one Start. */
  datatype Boot = Boot(keypair: bool, clientCert: bool, listen: Option<nat>)

  /** The fields of a server, and which of the gRPC servers and mDNS registrars it ever started
      (numbered from zero) it has stopped. */
  datatype State = State(srv: Option<nat>, mdns: Option<nat>, running: bool, port: nat,
                         created: nat, stops: seq<nat>, registered: nat, unregisters: seq<nat>)

  const INITIAL := State(None, None, false, 0, 0, [], 0, [])

  datatype Op = DoStart(boot: Boot) | DoStop

  function StartAnswer(s: State, mtls: bool, b: Boot): Result<(), StartError> {
    if s.running then Failure(AlreadyRunning)
    else if !b.keypair then Failure(BadKeypair)
    else if mtls && !b.clientCert then Failure(BadClientCert)
    else if b.listen.None? then Failure(Listen)
    else Success(())
  }

  function Step(s: State, mtls: bool, mdns: bool, op: Op): State {
    match op
    case DoStart(b) =>
      if StartAnswer(s, mtls, b).Failure? then s
      else State(Some(s.created), if mdns then Some(s.registered) else s.mdns, true, b.listen.value,
                 s.created + 1, s.stops, if mdns then s.registered + 1 else s.registered, s.unregisters)
    case DoStop =>
      var t := s.(srv := None, mdns := None);
      if !s.running then t
      else t.(running := false, stops := Appended(s.stops, s.srv), unregisters := Appended(s.unregisters, s.mdns))
  }

  function Run(s: State, mtls: bool, mdns: bool, ops: seq<Op>): State
    decreases |ops|
  {
    if ops == [] then s else Run(Step(s, mtls, mdns, ops[0]), mtls, mdns, ops[1..])
  }

  class Server {
    const enableMTLS: bool
    const enableMDNS: bool
    var srv: Option<nat>
    var mdns: Option<nat>
    var running: bool
    var port: nat
    var rotateReq: bool          // the one slot of the channel
    var created: nat
    var stops: seq<nat>
    var registered: nat
    var unregisters: seq<nat>

    constructor (enableMTLS: bool, enableMDNS: bool)
      ensures this.enableMTLS == enableMTLS && this.enableMDNS == enableMDNS && Value() == INITIAL && !rotateReq
    {
      this.enableMTLS, this.enableMDNS := enableMTLS, enableMDNS;
      srv, mdns, running, port, rotateReq := None, None, false, 0, false;
      created, stops, registered, unregisters := 0, [], 0, [];
    }

    function Value(): State
      reads this
    {
      State(srv, mdns, running, port, created, stops, registered, unregisters)
    }

    method Start(b: Boot) returns (r: Result<(), StartError>)
      modifies this
      ensures r == StartAnswer(old(Value()), enableMTLS, b)
      ensures Value() == Step(old(Value()), enableMTLS, enableMDNS, DoStart(b)) && rotateReq == old(rotateReq)
      ensures r.Success? <==> !old(running) && b.keypair && (enableMTLS ==> b.clientCert) && b.listen.Some?
      ensures r.Failure? ==>
                && Value() == old(Value())
                && (r.error == AlreadyRunning <==> old(running))
                && (r.error == BadKeypair <==> !old(running) && !b.keypair)
                && (r.error == BadClientCert <==> !old(running) && b.keypair && enableMTLS && !b.clientCert)
                && (r.error == Listen ==> b.listen.None?)
      ensures r.Success? ==>
                && running && Some(port) == b.listen && srv == Some(old(created)) && created == old(created) + 1
                && stops == old(stops) && unregisters == old(unregisters)
                && (enableMDNS ==> mdns == Some(old(registered)) && registered == old(registered) + 1)
                && (!enableMDNS ==> mdns == old(mdns) && registered == old(registered))
    {
      if running {
        return Failure(AlreadyRunning);
      }
      if !b.keypair {
        return Failure(BadKeypair);
      }
      if enableMTLS && !b.clientCert {
        return Failure(BadClientCert);
      }
      if b.listen.None? {
        return Failure(Listen);
      }
      port := b.listen.value;
      srv := Some(created);
      created := created + 1;
      running := true;
      if enableMDNS {
        mdns := Some(registered);
        registered := registered + 1;
      }
      return Success(());
    }

    method Stop()
      modifies this
      ensures Value() == Step(old(Value()), enableMTLS, enableMDNS, DoStop) && rotateReq == old(rotateReq)
      ensures !running && srv.None? && mdns.None?
      ensures port == old(port) && created == old(created) && registered == old(registered)
      ensures old(running) && old(srv).Some? ==> stops == old(stops) + [old(srv).value]
      ensures old(running) && old(mdns).Some? ==> unregisters == old(unregisters) + [old(mdns).value]
      ensures !old(running) || old(srv).None? ==> stops == old(stops)
      ensures !old(running) || old(mdns).None? ==> unregisters == old(unregisters)
    {
      var s, m := srv, mdns;
      srv, mdns := None, None;
      if !running {
        return;
      }
      running := false;
      if m.Some? {
        unregisters := unregisters + [m.value];
      }
      if s.Some? {
        stops := stops + [s.value];
      }
    }

    /** The callback behind the Rotate and ReissueClientCert calls. Nothing ever reads the channel,
        so what it comes to is a Stop: the server does not come back by itself. */
    method RotateRequest()
      modifies this
      ensures Value() == Step(old(Value()), enableMTLS, enableMDNS, DoStop) && rotateReq
      ensures !running && srv.None? && mdns.None?
    {
      if !rotateReq {
        rotateReq := true;
      }
      Stop();
    }
  }

  /** Of the `n` things ever started, exactly those not still held are stopped, each once. */
  ghost predicate StoppedOnce(n: nat, held: Option<nat>, log: seq<nat>) {
    && (forall k | 0 <= k < |log| :: log[k] < n)
    && (forall j, k | 0 <= j < k < |log| :: log[j] != log[k])
    && (held.Some? ==> held.value < n)
    && (forall id: nat | id < n :: id in log <==> held != Some(id))
  }

  ghost predicate Sound(s: State) {
    && (s.running <==> s.srv.Some?)
    && (s.mdns.Some? ==> s.running)
    && StoppedOnce(s.created, s.srv, s.stops)
    && StoppedOnce(s.registered, s.mdns, s.unregisters)
  }

  lemma StepSound(s: State, mtls: bool, mdns: bool, op: Op)
    requires Sound(s)
    ensures Sound(Step(s, mtls, mdns, op))
  {
  }

  /** Over any run of Starts and Stops, failed ones included: running means having a server; every
      gRPC server and registrar but the current ones has been stopped exactly once; and a Stop
      leaves none. */
  lemma {:induction false} EveryServerStoppedOnce(s: State, mtls: bool, mdns: bool, ops: seq<Op>)
    requires Sound(s)
    ensures Sound(Run(s, mtls, mdns, ops))
    ensures ops != [] && ops[|ops| - 1].DoStop? ==>
              var e := Run(s, mtls, mdns, ops);
              !e.running && StoppedOnce(e.created, None, e.stops) && StoppedOnce(e.registered, None, e.unregisters)
    decreases |ops|
  {
    if ops != [] {
      var t := Step(s, mtls, mdns, ops[0]);
      StepSound(s, mtls, mdns, ops[0]);
      EveryServerStoppedOnce(t, mtls, mdns, ops[1..]);
    }
  }
}
