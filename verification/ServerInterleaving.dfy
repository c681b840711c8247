/** Starts and Stops of one server at the same time (einkgrpc/server.go). Start holds the mutex
    throughout; Stop holds it only to take the server, and reads and clears `running` without it. */
module ServerInterleaving {
  import opened Wrappers
  import Srv = Server

  datatype Phase = Idle
                 | Entered     // Start has the mutex
                 | Checked     // and found nothing running
                 | Assigned    // and stored its new server
                 | Announced   // and set running
                 | Swapped     // Stop has taken what was there
                 | Saw         // and found it running
                 | Cleared     // and cleared running

  /** Things made one after the other, gRPC servers or mDNS registrars: the current one, those that
      Stops took, those they ended, those nobody can end any more, and what each Stop has in hand. */
  datatype Ledger = Ledger(current: Option<nat>, made: nat, taken: seq<nat>, ended: seq<nat>, lost: seq<nat>,
                           held: map<nat, nat>)
  {
    function InHand(t: nat): Option<nat> {
      if t in held then Some(held[t]) else None
    }

    /** A new one takes the place of the current one. */
    function Put(): Ledger {
      this.(current := Some(made), made := made + 1, lost := Appended(lost, current))
    }

    function Take(t: nat): Ledger {
      this.(current := None, taken := Appended(taken, current),
            held := if current.Some? then held[t := current.value] else held)
    }

    function End(t: nat): Ledger {
      this.(ended := Appended(ended, InHand(t)), held := held - {t})
    }

    function Drop(t: nat): Ledger {
      this.(lost := Appended(lost, InHand(t)), held := held - {t})
    }

    predicate Somewhere(id: nat) {
      current == Some(id) || id in ended || id in lost || id in held.Values
    }

    /** Each is taken at most once, ended at most once, and in exactly one place. */
    ghost predicate Balanced() {
      && (current.Some? ==> current.value < made && current.value !in taken && current.value !in lost)
      && (forall k | 0 <= k < |taken| :: taken[k] < made)
      && (forall j, k | 0 <= j < k < |taken| :: taken[j] != taken[k])
      && (forall id | id in ended :: id in taken && id !in lost)
      && (forall j, k | 0 <= j < k < |ended| :: ended[j] != ended[k])
      && (forall id | id in lost :: id < made)
      && (forall t | t in held :: held[t] in taken && held[t] !in ended && held[t] !in lost)
      && (forall t, u | t in held && u in held && t != u :: held[t] != held[u])
      && (forall id: nat | id < made :: Somewhere(id))
    }
  }

  lemma StillSomewhere(l: Ledger, t: nat, id: nat)
    requires id in l.held.Values
    ensures id in (l.held - {t}).Values || l.InHand(t) == Some(id)
  {
    var u :| u in l.held && l.held[u] == id;
    if u != t {
      assert u in l.held - {t} && (l.held - {t})[u] == id;
    }
  }

  lemma PutBalanced(l: Ledger)
    requires l.Balanced()
    ensures l.Put().Balanced()
  {
    forall id: nat | id < l.Put().made ensures l.Put().Somewhere(id) {
      assert id < l.made ==> l.Somewhere(id);
    }
  }

  lemma TakeBalanced(l: Ledger, t: nat)
    requires l.Balanced() && t !in l.held
    ensures l.Take(t).Balanced()
  {
    var n := l.Take(t);
    assert forall u | u in l.held :: u in n.held && n.held[u] == l.held[u];
    assert l.current.Some? ==> t in n.held && n.held[t] == l.current.value;
    forall id: nat | id < n.made ensures n.Somewhere(id) {
      assert l.Somewhere(id);
    }
  }

  lemma EndBalanced(l: Ledger, t: nat)
    requires l.Balanced()
    ensures l.End(t).Balanced()
  {
    var n := l.End(t);
    assert forall u | u in n.held :: u in l.held && n.held[u] == l.held[u] && u != t;
    forall id: nat | id < n.made ensures n.Somewhere(id) {
      assert l.Somewhere(id);
      if id in l.held.Values {
        StillSomewhere(l, t, id);
      }
    }
  }

  lemma DropBalanced(l: Ledger, t: nat)
    requires l.Balanced()
    ensures l.Drop(t).Balanced()
  {
    var n := l.Drop(t);
    assert forall u | u in n.held :: u in l.held && n.held[u] == l.held[u] && u != t;
    forall id: nat | id < n.made ensures n.Somewhere(id) {
      assert l.Somewhere(id);
      if id in l.held.Values {
        StillSomewhere(l, t, id);
      }
    }
  }

  /** With `mdnsOn` every Start registers a new registrar. */
  datatype State = State(lock: Option<nat>, servers: Ledger, registrars: Ledger, running: bool, mdnsOn: bool,
                         threads: map<nat, Phase>)

  datatype Action = Enter | Check | Fail | Assign | Announce | Leave | Swap | Load | Clear | Finish

  /** Every server listens on the same port, and holds it until it is ended; a Start that cannot
      listen fails. */
  predicate PortFree(servers: Ledger) {
    servers.current.None? && servers.held == map[] && servers.lost == []
  }

  predicate Enabled(s: State, t: nat, a: Action) {
    && t in s.threads
    && match a
       case Enter => s.threads[t].Idle? && s.lock.None?
       case Check => s.threads[t].Entered?
       case Fail => s.threads[t].Checked?
       case Assign => s.threads[t].Checked? && PortFree(s.servers)
       case Announce => s.threads[t].Assigned?
       case Leave => s.threads[t].Announced?
       case Swap => s.threads[t].Idle? && s.lock.None?
       case Load => s.threads[t].Swapped?
       case Clear => s.threads[t].Saw?
       case Finish => s.threads[t].Cleared?
  }

  function Move(s: State, t: nat, p: Phase): State {
    s.(threads := s.threads[t := p])
  }

  function Apply(s: State, t: nat, a: Action): State
    requires Enabled(s, t, a)
  {
    match a
    case Enter => Move(s, t, Entered).(lock := Some(t))
    case Check => if s.running then Move(s, t, Idle).(lock := None) else Move(s, t, Checked)
    case Fail => Move(s, t, Idle).(lock := None)
    case Assign => Move(s, t, Assigned).(servers := s.servers.Put())
    case Announce => Move(s, t, Announced).(running := true)
    case Leave =>
      Move(s, t, Idle).(lock := None, registrars := if s.mdnsOn then s.registrars.Put() else s.registrars)
    case Swap => Move(s, t, Swapped).(servers := s.servers.Take(t), registrars := s.registrars.Take(t))
    case Load =>
      if s.running then Move(s, t, Saw)
      else Move(s, t, Idle).(servers := s.servers.Drop(t), registrars := s.registrars.Drop(t))
    case Clear => Move(s, t, Cleared).(running := false)
    case Finish => Move(s, t, Idle).(servers := s.servers.End(t), registrars := s.registrars.End(t))
  }

  type Schedule = seq<(nat, Action)>

  predicate Legal(s: State, sched: Schedule)
    decreases |sched|
  {
    sched != [] ==> Enabled(s, sched[0].0, sched[0].1) && Legal(Apply(s, sched[0].0, sched[0].1), sched[1..])
  }

  function Exec(s: State, sched: Schedule): State
    requires Legal(s, sched)
    decreases |sched|
  {
    if sched == [] then s else Exec(Apply(s, sched[0].0, sched[0].1), sched[1..])
  }

  predicate AtRest(s: State) {
    forall t | t in s.threads :: s.threads[t].Idle?
  }

  predicate Initial(s: State) {
    && s.lock.None? && !s.running && AtRest(s)
    && s.servers == Ledger(None, 0, [], [], [], map[]) && s.registrars == Ledger(None, 0, [], [], [], map[])
  }

  predicate InStart(p: Phase) { p.Entered? || p.Checked? || p.Assigned? || p.Announced? }

  /** A Stop between its swap and the moment it clears `running`. */
  predicate Stopping(p: Phase) { p.Swapped? || p.Saw? }

  ghost predicate LockOk(s: State) {
    && (forall t | t in s.threads :: InStart(s.threads[t]) <==> s.lock == Some(t))
    && (forall t | t in s.threads && (s.threads[t].Assigned? || s.threads[t].Announced?) :: s.servers.current.Some?)
    && (s.running && s.servers.current.None? ==> exists t :: t in s.threads && Stopping(s.threads[t]))
  }

  /** Only a Stop on its way has something in hand. */
  predicate HandsOk(l: Ledger, threads: map<nat, Phase>) {
    forall t | t in l.held :: t in threads && (Stopping(threads[t]) || threads[t].Cleared?)
  }

  /** At most one server is up, and once it is lost none is ever current again. */
  predicate OneUp(l: Ledger, running: bool) {
    && (l.current.Some? ==> l.held == map[] && l.lost == [])
    && (l.lost != [] ==> |l.lost| == 1 && l.held == map[] && !running)
    && (forall t, u | t in l.held && u in l.held :: t == u)
  }

  ghost predicate Inv(s: State) {
    && LockOk(s) && OneUp(s.servers, s.running) && s.servers.Balanced() && s.registrars.Balanced()
    && HandsOk(s.servers, s.threads) && HandsOk(s.registrars, s.threads)
  }

  lemma LockStep(s: State, t: nat, a: Action)
    requires LockOk(s) && Enabled(s, t, a)
    ensures LockOk(Apply(s, t, a))
  {
  }

  lemma BalancedStep(s: State, t: nat, a: Action)
    requires Inv(s) && Enabled(s, t, a)
    ensures Apply(s, t, a).servers.Balanced() && Apply(s, t, a).registrars.Balanced()
  {
    match a
    case Assign => PutBalanced(s.servers);
    case Leave => PutBalanced(s.registrars);
    case Swap =>
      TakeBalanced(s.servers, t);
      TakeBalanced(s.registrars, t);
    case Load =>
      DropBalanced(s.servers, t);
      DropBalanced(s.registrars, t);
    case Finish =>
      EndBalanced(s.servers, t);
      EndBalanced(s.registrars, t);
    case _ =>
  }

  lemma HandsStep(s: State, t: nat, a: Action)
    requires HandsOk(s.servers, s.threads) && HandsOk(s.registrars, s.threads) && Enabled(s, t, a)
    ensures HandsOk(Apply(s, t, a).servers, Apply(s, t, a).threads)
    ensures HandsOk(Apply(s, t, a).registrars, Apply(s, t, a).threads)
  {
  }

  lemma OneUpStep(s: State, t: nat, a: Action)
    requires LockOk(s) && OneUp(s.servers, s.running) && Enabled(s, t, a)
    ensures OneUp(Apply(s, t, a).servers, Apply(s, t, a).running)
  {
    var l, n := s.servers, Apply(s, t, a).servers;
    if a.Load? && !s.running && t in l.held {
      assert n.held == map[];
    }
  }

  lemma InvStep(s: State, t: nat, a: Action)
    requires Inv(s) && Enabled(s, t, a)
    ensures Inv(Apply(s, t, a))
  {
    OneUpStep(s, t, a);
    HandsStep(s, t, a);
    LockStep(s, t, a);
    BalancedStep(s, t, a);
  }

  lemma {:induction false} InvExec(s: State, sched: Schedule)
    requires Inv(s) && Legal(s, sched)
    ensures Inv(Exec(s, sched))
    ensures forall id | id in s.servers.lost :: id in Exec(s, sched).servers.lost
    ensures forall id | id in s.registrars.lost :: id in Exec(s, sched).registrars.lost
    ensures s.servers.lost != [] ==> Exec(s, sched).servers.made == s.servers.made
    decreases |sched|
  {
    if sched != [] {
      InvStep(s, sched[0].0, sched[0].1);
      InvExec(Apply(s, sched[0].0, sched[0].1), sched[1..]);
    }
  }

  lemma UpIsUnique(l: Ledger, running: bool, i: nat, j: nat)
    requires OneUp(l, running) && l.Somewhere(i) && l.Somewhere(j) && i !in l.ended && j !in l.ended
    ensures i == j
  {
    if i in l.held.Values && j in l.held.Values {
      var t, u :| t in l.held && u in l.held && l.held[t] == i && l.held[u] == j;
      assert t == u;
    }
  }

  /** In every interleaving of any Starts and Stops each server and each registrar is taken by at
      most one Stop and is in exactly one place: current, in the hands of one Stop, ended once, or
      lost. At most one server is up. At rest no Stop has anything in hand. `running` without a
      server means that some Stop is on its way to clear it. */
  lemma EachServerTakenOnce(init: State, s: State, sched: Schedule)
    requires Initial(init) && Legal(init, sched) && s == Exec(init, sched)
    ensures s.servers.Balanced() && s.registrars.Balanced()
    ensures forall i: nat, j: nat | i < s.servers.made && j < s.servers.made
              && i !in s.servers.ended && j !in s.servers.ended :: i == j
    ensures AtRest(s) ==> s.servers.held == map[] && s.registrars.held == map[]
    ensures s.running && s.servers.current.None? ==> exists t :: t in s.threads && Stopping(s.threads[t])
  {
    InvExec(init, sched);
    forall i: nat, j: nat | i < s.servers.made && j < s.servers.made && i !in s.servers.ended && j !in s.servers.ended
      ensures i == j
    {
      UpIsUnique(s.servers, s.running, i, j);
    }
  }

  /** A lost server stays up, and a lost registrar registered, for good: no later Stop ends it. The
      lost server keeps the port, so that no Start ever succeeds again. */
  lemma LostForever(s: State, sched: Schedule, id: nat)
    requires Inv(s) && Legal(s, sched)
    ensures id in s.servers.lost ==> id !in Exec(s, sched).servers.ended
    ensures id in s.registrars.lost ==> id !in Exec(s, sched).registrars.ended
    ensures
      var n := Exec(s, sched);
      s.servers.lost != [] ==> n.servers.made == s.servers.made && !n.running && n.servers.current.None?
  {
    InvExec(s, sched);
    assert s.servers.lost != [] ==> s.servers.lost[0] in s.servers.lost;
  }

  predicate NothingLost(s: State) { s.servers.lost == [] && s.registrars.lost == [] }

  /** What a call that nobody overlaps relies on: running is having a server. */
  predicate Consistent(s: State) {
    && (s.running <==> s.servers.current.Some?)
    && (s.registrars.current.Some? ==> s.running)
  }

  /** What the fields look like at each point of a Start that no Stop overlaps. */
  predicate StartAt(s: State, p: Phase) {
    match p
    case Checked => !s.running && s.servers.current.None? && s.registrars.current.None?
    case Assigned => !s.running && s.servers.current.Some? && s.registrars.current.None?
    case Announced => s.running && s.servers.current.Some? && s.registrars.current.None?
    case _ => Consistent(s)
  }

  predicate Solitary(s: State) {
    forall t, u | t in s.threads && u in s.threads && !s.threads[t].Idle? && !s.threads[u].Idle? :: t == u
  }

  predicate AlwaysSolitary(s: State, sched: Schedule)
    requires Legal(s, sched)
    decreases |sched|
  {
    Solitary(s) && (sched != [] ==> AlwaysSolitary(Apply(s, sched[0].0, sched[0].1), sched[1..]))
  }

  /** And at each point of a Stop that runs alone. */
  predicate FieldsAt(s: State, t: nat)
    requires t in s.threads
  {
    if InStart(s.threads[t]) then StartAt(s, s.threads[t])
    else if s.threads[t].Idle? then Consistent(s)
    else
      && s.servers.current.None? && s.registrars.current.None?
      && match s.threads[t]
         case Swapped => (s.running <==> t in s.servers.held) && (t in s.registrars.held ==> s.running)
         case Saw => s.running
         case _ => !s.running
  }

  predicate Orderly(s: State) {
    && NothingLost(s)
    && HandsOk(s.servers, s.threads) && HandsOk(s.registrars, s.threads)
    && (forall t | t in s.threads && !s.threads[t].Idle? :: FieldsAt(s, t))
    && (AtRest(s) ==> Consistent(s))
  }

  lemma OrderlyStep(s: State, t: nat, a: Action)
    requires Enabled(s, t, a) && Solitary(s) && Solitary(Apply(s, t, a)) && Orderly(s)
    ensures Orderly(Apply(s, t, a))
  {
    var n := Apply(s, t, a);
    forall u | u in s.threads && u != t ensures s.threads[u].Idle? && n.threads[u].Idle? {
      assert n.threads[u] == s.threads[u];
      assert !s.threads[t].Idle? || !n.threads[t].Idle?;
    }
    assert s.threads[t].Idle? ==> AtRest(s);
    assert FieldsAt(s, t);
    assert FieldsAt(n, t);
  }

  /** As long as no two calls overlap nothing is ever lost, and at rest running means having a
      server. */
  lemma {:induction false} NoOverlapNoLoss(s: State, sched: Schedule)
    requires Orderly(s) && Legal(s, sched) && AlwaysSolitary(s, sched)
    ensures Orderly(Exec(s, sched))
    decreases |sched|
  {
    if sched != [] {
      OrderlyStep(s, sched[0].0, sched[0].1);
      NoOverlapNoLoss(Apply(s, sched[0].0, sched[0].1), sched[1..]);
    }
  }

  function Count(sched: Schedule, a: Action): nat {
    if sched == [] then 0 else (if sched[0].1 == a then 1 else 0) + Count(sched[1..], a)
  }

  /** At rest with nothing lost and running as having a server. */
  predicate Steady(s: State) {
    && s.lock.None? && AtRest(s) && NothingLost(s) && Consistent(s)
    && s.servers.held == map[] && s.registrars.held == map[]
  }

  /** Nothing lost, and the next Stop will end what is current. */
  predicate Intact(s: State) { NothingLost(s) && (s.running <==> s.servers.current.Some?) }

  /** No Stop is about to clear `running`. */
  predicate Calm(s: State) {
    && NothingLost(s)
    && (forall t | t in s.threads :: !Stopping(s.threads[t]))
    && (forall t | t in s.threads && InStart(s.threads[t]) :: s.lock == Some(t) && StartAt(s, s.threads[t]))
    && ((forall t | t in s.threads :: !InStart(s.threads[t])) ==> Consistent(s))
  }

  lemma CalmStep(s: State, t: nat, a: Action)
    requires Calm(s) && Enabled(s, t, a) && !a.Swap?
    ensures Calm(Apply(s, t, a))
  {
    var n := Apply(s, t, a);
    assert forall u | u in s.threads && u != t :: n.threads[u] == s.threads[u];
    assert InStart(n.threads[t]) ==> StartAt(n, n.threads[t]);
  }

  lemma {:induction false} CalmRun(s: State, sched: Schedule)
    requires Calm(s) && Legal(s, sched) && Count(sched, Swap) == 0
    ensures Calm(Exec(s, sched))
    decreases |sched|
  {
    if sched != [] {
      CalmStep(s, sched[0].0, sched[0].1);
      CalmRun(Apply(s, sched[0].0, sched[0].1), sched[1..]);
    }
  }

  /** The server is up, and only Starts that will find it so are under way, or Stops past clearing. */
  predicate Up(s: State) {
    && NothingLost(s) && s.running && s.servers.current.Some?
    && (forall t | t in s.threads ::
          s.threads[t].Idle? || s.threads[t].Cleared? || (s.threads[t].Entered? && s.lock == Some(t)))
    && (forall t | t in s.servers.held :: t in s.threads && s.threads[t].Cleared?)
  }

  /** One Stop, `u`, has taken the server and not cleared `running` yet. */
  predicate During(s: State, u: nat) {
    && NothingLost(s) && s.running && s.servers.current.None? && s.registrars.current.None?
    && u in s.threads && Stopping(s.threads[u])
    && (forall t | t in s.threads && t != u ::
          s.threads[t].Idle? || s.threads[t].Cleared? || (s.threads[t].Entered? && s.lock == Some(t)))
  }

  lemma DuringStep(s: State, u: nat, t: nat, a: Action)
    requires During(s, u) && Enabled(s, t, a) && !a.Swap?
    ensures if a.Clear? then Calm(Apply(s, t, a)) else During(Apply(s, t, a), u)
  {
    var n := Apply(s, t, a);
    assert forall v | v in s.threads && v != t :: n.threads[v] == s.threads[v];
  }

  lemma {:induction false} DuringRun(s: State, u: nat, sched: Schedule)
    requires During(s, u) && Legal(s, sched) && Count(sched, Swap) == 0
    ensures Calm(Exec(s, sched)) || During(Exec(s, sched), u)
    decreases |sched|
  {
    if sched != [] {
      var n := Apply(s, sched[0].0, sched[0].1);
      DuringStep(s, u, sched[0].0, sched[0].1);
      if sched[0].1.Clear? {
        CalmRun(n, sched[1..]);
      } else {
        DuringRun(n, u, sched[1..]);
      }
    }
  }

  lemma {:induction false} UpRun(s: State, sched: Schedule)
    requires Up(s) && Legal(s, sched) && Count(sched, Swap) <= 1
    ensures AtRest(Exec(s, sched)) ==> Intact(Exec(s, sched))
    decreases |sched|
  {
    if sched != [] {
      var t, n := sched[0].0, Apply(s, sched[0].0, sched[0].1);
      assert forall v | v in s.threads && v != t :: n.threads[v] == s.threads[v];
      if sched[0].1.Swap? {
        DuringRun(n, t, sched[1..]);
      } else {
        UpRun(n, sched[1..]);
      }
    }
  }

  /** The server is down, and only Stops are under way, which find it so. */
  predicate Down(s: State) {
    && NothingLost(s) && !s.running && s.servers.current.None? && s.registrars.current.None?
    && s.servers.held == map[] && s.registrars.held == map[]
    && (forall t | t in s.threads :: s.threads[t].Idle? || s.threads[t].Swapped?)
  }

  lemma {:induction false} DownRun(s: State, sched: Schedule)
    requires Down(s) && Legal(s, sched) && Count(sched, Enter) == 0
    ensures Down(Exec(s, sched))
    decreases |sched|
  {
    if sched != [] {
      DownRun(Apply(s, sched[0].0, sched[0].1), sched[1..]);
    }
  }

  lemma Before(s: State, t: nat, a: Action, rest: Schedule) returns (sched: Schedule)
    requires Enabled(s, t, a) && Legal(Apply(s, t, a), rest)
    ensures sched == [(t, a)] + rest && Legal(s, sched) && Exec(s, sched) == Exec(Apply(s, t, a), rest)
    ensures forall b :: Count(sched, b) == Count(rest, b) + if a == b then 1 else 0
  {
    sched := [(t, a)] + rest;
    assert sched[1..] == rest;
  }

  /** The second half of a Stop that found nothing to take. */
  lemma ClearBefore(s: State, t: nat, rest: Schedule) returns (sched: Schedule)
    requires t in s.threads && s.threads[t].Saw? && t !in s.servers.held && t !in s.registrars.held
    requires Legal(s.(running := false, threads := s.threads[t := Idle]), rest)
    ensures Legal(s, sched) && Exec(s, sched) == Exec(s.(running := false, threads := s.threads[t := Idle]), rest)
    ensures Count(sched, Enter) == Count(rest, Enter) && Count(sched, Swap) == Count(rest, Swap)
  {
    var s1 := Apply(s, t, Clear);
    assert Apply(s1, t, Finish) == s.(running := false, threads := s.threads[t := Idle]) by {
      assert s1.threads[t := Idle] == s.threads[t := Idle];
      assert s.servers.End(t).held == s.servers.held && s.registrars.End(t).held == s.registrars.held;
    }
    sched := Before(s1, t, Finish, rest);
    sched := Before(s, t, Clear, sched);
  }

  /** A Stop with nothing to take, of a server that still says it is running. */
  lemma StopBefore(s: State, t: nat, rest: Schedule) returns (sched: Schedule)
    requires s.lock.None? && s.running && t in s.threads && s.threads[t].Idle?
    requires s.servers.current.None? && s.registrars.current.None? && t !in s.servers.held && t !in s.registrars.held
    requires Legal(s.(running := false), rest)
    ensures Legal(s, sched) && Exec(s, sched) == Exec(s.(running := false), rest)
    ensures Count(sched, Enter) == Count(rest, Enter) && Count(sched, Swap) == Count(rest, Swap) + 1
  {
    var s1 := Apply(s, t, Swap);
    var s2 := Apply(s1, t, Load);
    assert s2.threads[t := Idle] == s.threads;
    sched := ClearBefore(s2, t, rest);
    sched := Before(s1, t, Load, sched);
    sched := Before(s, t, Swap, sched);
  }

  /** Two overlapping Stops can leave the server up for good: the one that took it finds `running`
      already cleared by the other, and returns. */
  lemma OverlappingStopsLoseServer(s: State) returns (sched: Schedule)
    requires Steady(s) && s.running && {0, 1} <= s.threads.Keys
    ensures Legal(s, sched) && Count(sched, Enter) == 0 && Count(sched, Swap) == 2
    ensures
      var n := Exec(s, sched);
      && AtRest(n) && !n.running && n.servers.current.None?
      && n.servers.lost == [s.servers.current.value] && n.servers.ended == s.servers.ended
  {
    var s1 := Apply(s, 0, Swap);
    sched := Before(s1.(running := false), 0, Load, []);
    sched := StopBefore(s1, 1, sched);
    sched := Before(s, 0, Swap, sched);
  }

  /** The same server with nothing under way, as the sequential calls see it. */
  predicate Matches(s: State, v: Srv.State) {
    && s.servers.current == v.srv && s.servers.made == v.created && s.servers.ended == v.stops
    && s.registrars.current == v.mdns && s.registrars.made == v.registered && s.registrars.ended == v.unregisters
    && s.running == v.running && s.servers.held == map[] && s.registrars.held == map[] && s.lock.None?
  }

  /** What a whole Start of a server that is down makes of the state. */
  function Started(s: State): State {
    s.(servers := s.servers.Put(), running := true,
       registrars := if s.mdnsOn then s.registrars.Put() else s.registrars)
  }

  /** The second half of such a Start. */
  lemma AssignBefore(s: State, t: nat, rest: Schedule) returns (sched: Schedule)
    requires t in s.threads && s.threads[t].Checked? && PortFree(s.servers)
    requires Legal(Started(s).(lock := None, threads := s.threads[t := Idle]), rest)
    ensures Legal(s, sched) && Exec(s, sched) == Exec(Started(s).(lock := None, threads := s.threads[t := Idle]), rest)
    ensures Count(sched, Enter) == Count(rest, Enter) && Count(sched, Swap) == Count(rest, Swap)
  {
    var s1 := Apply(s, t, Assign);
    var s2 := Apply(s1, t, Announce);
    assert s2.threads[t := Idle] == s.threads[t := Idle];
    sched := Before(s2, t, Leave, rest);
    sched := Before(s1, t, Announce, sched);
    sched := Before(s, t, Assign, sched);
  }

  lemma StartBefore(s: State, t: nat, rest: Schedule) returns (sched: Schedule)
    requires s.lock.None? && !s.running && t in s.threads && s.threads[t].Idle? && PortFree(s.servers)
    requires Legal(Started(s), rest)
    ensures Legal(s, sched) && Exec(s, sched) == Exec(Started(s), rest)
    ensures Count(sched, Enter) == Count(rest, Enter) + 1 && Count(sched, Swap) == Count(rest, Swap)
  {
    var s1 := Apply(s, t, Enter);
    var s2 := Apply(s1, t, Check);
    assert Started(s2).(lock := None, threads := s2.threads[t := Idle]) == Started(s) by {
      assert s2.threads[t := Idle] == s.threads;
    }
    sched := AssignBefore(s2, t, rest);
    sched := Before(s1, t, Check, sched);
    sched := Before(s, t, Enter, sched);
  }

  /** A Start that nobody overlaps and that fails on nothing does what the sequential Start does, */
  lemma StartAlone(s: State, t: nat, v: Srv.State, mtls: bool, port: nat) returns (sched: Schedule)
    requires Matches(s, v) && !s.running && PortFree(s.servers) && t in s.threads && s.threads[t].Idle?
    ensures Legal(s, sched) && Count(sched, Enter) == 1 && Count(sched, Swap) == 0
    ensures Exec(s, sched).threads == s.threads
    ensures Matches(Exec(s, sched), Srv.Step(v, mtls, s.mdnsOn, Srv.DoStart(Srv.Boot(true, true, Some(port)))))
  {
    sched := StartBefore(s, t, []);
  }

  /** and such a Stop what the sequential Stop does. */
  lemma StopAlone(s: State, t: nat, v: Srv.State, mtls: bool) returns (sched: Schedule)
    requires Matches(s, v) && t in s.threads && s.threads[t].Idle? && Consistent(s)
    ensures Legal(s, sched) && Count(sched, Enter) == 0 && Count(sched, Swap) == 1
    ensures Exec(s, sched).threads == s.threads
    ensures Matches(Exec(s, sched), Srv.Step(v, mtls, s.mdnsOn, Srv.DoStop))
  {
    var s1 := Apply(s, t, Swap);
    var s2 := Apply(s1, t, Load);
    if s.running {
      var s3 := Apply(s2, t, Clear);
      var s4 := Apply(s3, t, Finish);
      assert s4.threads == s.threads && s4.servers.held == map[] && s4.registrars.held == map[];
      sched := Before(s3, t, Finish, []);
      sched := Before(s2, t, Clear, sched);
      sched := Before(s1, t, Load, sched);
    } else {
      assert s2.threads == s.threads && s2.servers.held == map[] && s2.registrars.held == map[];
      sched := Before(s1, t, Load, []);
    }
    sched := Before(s, t, Swap, sched);
  }

  /** A Stop that found nothing to take, over a whole Start: the Stop sees the Start's `running` and
      clears it, which leaves a server that is up and not running. */
  lemma StopOverStartHidesServer(s: State) returns (sched: Schedule)
    requires Steady(s) && !s.running && {0, 1} <= s.threads.Keys
    ensures Legal(s, sched) && Count(sched, Enter) == 1 && Count(sched, Swap) == 1
    ensures
      var n := Exec(s, sched);
      && AtRest(n) && n.lock.None? && n.threads.Keys == s.threads.Keys
      && !n.running && n.servers.current == Some(s.servers.made)
      && n.servers.held == map[] && NothingLost(n) && n.servers.ended == s.servers.ended
  {
    var s1 := Apply(s, 0, Swap);
    var s2 := Started(s1);
    var s3 := Apply(s2, 0, Load);
    sched := ClearBefore(s3, 0, []);
    sched := Before(s2, 0, Load, sched);
    sched := StartBefore(s1, 1, sched);
    sched := Before(s, 0, Swap, sched);
  }

  /** A server `x` up but not running, from which no Stop has taken it, with nothing else up. */
  predicate Hidden(s: State, x: nat) {
    && !s.running && s.servers.current == Some(x) && s.servers.held == map[] && s.servers.lost == []
    && forall t | t in s.threads :: s.threads[t].Idle? || s.threads[t].Entered? || s.threads[t].Checked?
  }

  /** A Stop has taken it, and is going to drop it if it has not done so yet. */
  predicate Dropping(s: State, x: nat) {
    && !s.running && s.servers.current.None?
    && (forall t | t in s.threads ::
          s.threads[t].Idle? || s.threads[t].Entered? || s.threads[t].Checked? || s.threads[t].Swapped?)
    && if s.servers.lost == [] then exists t :: t in s.threads && s.threads[t].Swapped? && s.servers.held == map[t := x]
       else s.servers.lost == [x] && s.servers.held == map[]
  }

  lemma HiddenStep(s: State, t: nat, a: Action, x: nat)
    requires Enabled(s, t, a) && (Hidden(s, x) || Dropping(s, x))
    ensures
      var n := Apply(s, t, a);
      && n.servers.made == s.servers.made && n.servers.ended == s.servers.ended
      && if Hidden(s, x) && !a.Swap? then Hidden(n, x) else Dropping(n, x)
  {
    var n := Apply(s, t, a);
    assert forall u | u in s.threads && u != t :: n.threads[u] == s.threads[u];
    if Dropping(s, x) && s.servers.lost == [] {
      var u :| u in s.threads && s.threads[u].Swapped? && s.servers.held == map[u := x];
      assert u in s.servers.held;
      if a.Load? {
        assert u != t ==> s.servers.held - {t} == s.servers.held;
        assert u == t ==> s.servers.held - {t} == map[];
      }
    } else if Hidden(s, x) && a.Swap? {
      assert n.servers.held == map[t := x];
    }
  }

  lemma {:induction false} HiddenRun(s: State, sched: Schedule, x: nat)
    requires Legal(s, sched) && (Hidden(s, x) || Dropping(s, x))
    ensures
      var n := Exec(s, sched);
      && n.servers.made == s.servers.made && n.servers.ended == s.servers.ended
      && if Hidden(s, x) && Count(sched, Swap) == 0 then Hidden(n, x) else Dropping(n, x)
    decreases |sched|
  {
    if sched != [] {
      HiddenStep(s, sched[0].0, sched[0].1, x);
      HiddenRun(Apply(s, sched[0].0, sched[0].1), sched[1..], x);
    }
  }

  /** What becomes of a server hidden so, whatever calls follow and however they overlap: no Start
      succeeds, no Stop ends it, and the first Stop loses it for good. */
  lemma HiddenServerIsLost(s: State, sched: Schedule)
    requires AtRest(s) && !s.running && s.servers.current.Some? && s.servers.held == map[] && s.servers.lost == []
    requires Legal(s, sched)
    ensures
      var n := Exec(s, sched);
      && n.servers.made == s.servers.made && n.servers.ended == s.servers.ended && !n.running
      && (AtRest(n) ==> if Count(sched, Swap) == 0 then n.servers.current == s.servers.current
                        else n.servers.lost == [s.servers.current.value])
  {
    HiddenRun(s, sched, s.servers.current.value);
  }

  /** A way to interleave at most that many Starts and Stops that loses or hides a server. */
  ghost predicate CanBreak(s: State, starts: nat, stops: nat) {
    exists sched: Schedule ::
      Legal(s, sched) && Count(sched, Enter) <= starts && Count(sched, Swap) <= stops
      && AtRest(Exec(s, sched)) && !Intact(Exec(s, sched))
  }

  /** Exactly when that can happen from a steady state: two Stops of a running server, or a Stop and
      a Start of one that is not. Any number of Starts and one Stop of a running one cannot. */
  lemma CanBreakIff(s: State, starts: nat, stops: nat)
    requires Steady(s) && {0, 1} <= s.threads.Keys
    ensures CanBreak(s, starts, stops) <==> if s.running then stops >= 2 else stops >= 1 && starts >= 1
  {
    if s.running && stops >= 2 {
      var sched := OverlappingStopsLoseServer(s);
    } else if !s.running && stops >= 1 && starts >= 1 {
      var sched := StopOverStartHidesServer(s);
    } else {
      forall sched: Schedule | Legal(s, sched) && Count(sched, Enter) <= starts && Count(sched, Swap) <= stops
        ensures AtRest(Exec(s, sched)) ==> Intact(Exec(s, sched))
      {
        if s.running {
          UpRun(s, sched);
        } else if stops == 0 {
          CalmRun(s, sched);
        } else {
          DownRun(s, sched);
        }
      }
    }
  }
}
